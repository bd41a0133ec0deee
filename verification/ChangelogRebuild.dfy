/** `rebuild_changelog`: main's text plus the branch's own [Unreleased] bullets, self-checked. */
module ChangelogRebuild {
  import opened Common
  import opened ChangelogParse
  import opened ChangelogText
  import opened ChangelogInsert
  import opened Changelog

  /** A document as `_parse_doc` returns one, as far as its own indices go. */
  predicate Cut(doc: Doc) {
    doc.start < doc.end <= |doc.lines|
  }

  function Outside(doc: Doc): (seq<Line>, seq<Line>)
    requires Cut(doc)
  {
    (doc.lines[..doc.start], doc.lines[doc.end..])
  }

  /** `_check_branch_shape`: the refusal, if any. */
  function BranchShape(base: Doc, tip: Doc): Option<Disposition>
    requires Cut(base) && Cut(tip)
  {
    if Versions(tip.headings) != Versions(base.headings) then Some(AmbiguousEdit)
    else if Outside(tip) != Outside(base) then Some(ReleasedSectionTouched)
    else None
  }

  function Keys(items: seq<OwnItem>): seq<(string, seq<string>)> {
    seq(|items|, i requires 0 <= i < |items| => items[i].Key())
  }

  function WithoutKeys(items: seq<OwnItem>, keys: seq<(string, seq<string>)>): seq<OwnItem> {
    if items == [] then []
    else (if items[0].Key() in keys then [] else [items[0]]) + WithoutKeys(items[1..], keys)
  }

  /** `_own_items`: the tip's bullets absent from the merge base's, in tip order. */
  function OwnItems(base: Doc, tip: Doc): Result<seq<OwnItem>>
    requires Cut(base) && Cut(tip)
  {
    var was, now := ParseBlock(Body(base)), ParseBlock(Body(tip));
    var own := WithoutKeys(now.items, Keys(was.items));
    if exists text | text in now.prose :: text !in was.prose then Err(Unparseable)
    else if exists text | text in was.prose :: text !in now.prose then Err(AmbiguousEdit)
    else if exists key | key in Keys(was.items) :: key !in Keys(now.items) then Err(AmbiguousEdit)
    else if !Distinct(Keys(own)) then Err(AmbiguousEdit)
    else if exists item | item in own :: item.subsection == "" then Err(AmbiguousEdit)
    else Ok(own)
  }

  /** The items whose text is, or is not, already present. */
  function Select(items: seq<OwnItem>, present: seq<seq<string>>, wanted: bool): seq<OwnItem> {
    if items == [] then []
    else (if (items[0].Normalized() in present) == wanted then [items[0]] else []) + Select(items[1..], present, wanted)
  }

  /** A blank line between the body and what follows it. */
  function Pad(body: seq<Line>, following: bool): seq<Line> {
    if following && (body == [] || !Blank(body[|body| - 1])) then body + [""] else body
  }

  function NewLines(main: Doc, items: seq<OwnItem>): seq<Line>
    requires Cut(main)
  {
    Front(main) + Pad(InsertAll(Body(main), items), main.end < |main.lines|) + Back(main)
  }

  /** `_check_postconditions`: nothing to complain about. */
  predicate SelfCheck(main: Doc, result: Doc, inserted: seq<OwnItem>)
    requires Cut(main) && Cut(result)
  {
    var whole := multiset(Norms(ParseBlock(result.lines).items));
    && Outside(result) == Outside(main)
    && Greedy(Text(main.lines), Text(result.lines))
    && (forall i :: 0 <= i < |inserted| ==> whole[inserted[i].Normalized()] == 1)
    && Distinct(SubLines(Body(result)))
    && Distinct(Versions(result.headings))
  }

  datatype Rebuilt = Rebuilt(text: string, inserted: seq<OwnItem>, skipped: seq<OwnItem>)

  lemma ParsedCut(text: string)
    ensures ParseDoc(text).Ok? ==> Cut(ParseDoc(text).value)
  {
    hide Heads, Unreleased, SplitLines, VersionOf, Blank;
  }

  /** `_rebuild`. */
  function Rebuild(base: string, branch: string, main: string): Result<Rebuilt> {
    ParsedCut(base);
    ParsedCut(branch);
    ParsedCut(main);
    match (ParseDoc(base), ParseDoc(branch), ParseDoc(main))
    case (Ok(b), Ok(t), Ok(m)) =>
      if BranchShape(b, t).Some? then Err(BranchShape(b, t).value)
      else (
        match OwnItems(b, t)
        case Err(d) => Err(d)
        case Ok(own) => PlaceOwn(own, m, main)
      )
    case (_, _, _) => Err(Unparseable)
  }

  /** The second half of `_rebuild`: place the branch's own items into main. */
  function PlaceOwn(own: seq<OwnItem>, doc: Doc, main: string): Result<Rebuilt>
    requires Cut(doc)
  {
    var present := Norms(ParseBlock(doc.lines).items);
    var inserted, skipped := Select(own, present, false), Select(own, present, true);
    if inserted == [] then Ok(Rebuilt(main, [], skipped))
    else
      var text := JoinLines(NewLines(doc, inserted), doc.newline, doc.trailing);
      ParsedCut(text);
      match ParseDoc(text)
      case Err(d) => Err(d)
      case Ok(result) =>
        if SelfCheck(doc, result, inserted) then Ok(Rebuilt(text, inserted, skipped)) else Err(AmbiguousEdit)
  }

  /** `rebuild_changelog`: refuse unless a second rebuild over the result changes nothing. */
  function RebuildChangelog(base: string, branch: string, main: string): Result<Rebuilt> {
    match Rebuild(base, branch, main)
    case Err(d) => Err(d)
    case Ok(result) =>
      if result.inserted == [] then Ok(result)
      else
        match Rebuild(base, branch, result.text)
        case Err(d) => Err(d)
        case Ok(again) => if again.text != result.text then Err(AmbiguousEdit) else Ok(result)
  }

  // ----- the rebuilt document ----------------------------------------------------------------------

  ghost predicate BodyOk(body: seq<Line>) {
    NoSection(body) && CleanLines(body)
  }

  lemma DocParts(doc: Doc)
    requires DocInv(doc)
    ensures Cut(doc) && doc.lines == Front(doc) + Body(doc) + Back(doc)
    ensures BodyOk(Body(doc)) && (Back(doc) != [] ==> IsSection(Back(doc)[0]))
    ensures CleanLines(Front(doc)) && CleanLines(Back(doc))
    ensures IsSection(Front(doc)[doc.start]) && |Front(doc)| == doc.start + 1
  {
    hide Heads, Unreleased, VersionOf, NoBreaks, IsSection, NextSection, NoSection, CleanLines;
    HeadingIsSection(doc.lines[doc.start]);
    CutThree(doc.lines, doc.start + 1, doc.end);
    CleanCut(doc.lines, 0, doc.start + 1);
    CleanCut(doc.lines, doc.start + 1, doc.end);
    CleanCut(doc.lines, doc.end, |doc.lines|);
    NoSectionCut(doc.lines, doc.start + 1);
  }

  lemma CleanCut(lines: seq<Line>, a: nat, b: nat)
    requires a <= b <= |lines| && CleanLines(lines)
    ensures CleanLines(lines[a..b]) && CleanLines(lines[..b]) && CleanLines(lines[a..])
  {
    hide NoBreaks;
  }

  lemma NoSectionCut(lines: seq<Line>, from: nat)
    requires from <= |lines|
    ensures NoSection(lines[from..NextSection(lines, from)])
    ensures lines[NextSection(lines, from)..] != [] ==> IsSection(lines[NextSection(lines, from)..][0])
  {
    hide NextSection, IsSection;
  }

  lemma CutThree(lines: seq<Line>, a: nat, b: nat)
    requires a <= b <= |lines|
    ensures lines == lines[..a] + lines[a..b] + lines[b..]
  {
  }

  lemma PadOk(body: seq<Line>, following: bool)
    requires BodyOk(body)
    ensures BodyOk(Pad(body, following))
    ensures ParseBlock(Pad(body, following)) == ParseBlock(body)
    ensures SubLines(Pad(body, following)) == SubLines(body)
    ensures Thinned(body, Pad(body, following))
  {
    hide FeedAll, Blank, SubLines, Thinned;
    assert !IsSection("") && NoBreaks("");
    FeedConcat(START, body, [""]);
    FeedEmpty(FeedAll(START, body));
    FeedEmptyProse(FeedAll(START, body));
    SubLinesConcat(body, [""]);
    NoSubLines([""]);
    ThinnedSplice(body, [""], []);
    ThinnedSelf(body);
    assert body + [] == body && body + [""] + [] == body + [""] && SubLines(body) + [] == SubLines(body);
  }

  lemma FeedEmptyProse(p: Parser)
    ensures Finish(FeedAll(p, [""])) == Finish(p)
  {
    FeedBlanks(p, [""]);
  }

  /** The new document, had its text never been written and read back. */
  ghost function NewDoc(main: Doc, items: seq<OwnItem>): Doc
    requires Cut(main)
  {
    var body := Pad(InsertAll(Body(main), items), main.end < |main.lines|);
    var lines := NewLines(main, items);
    Doc(lines, main.newline, main.trailing, Heads(lines, 0), main.start, main.start + 1 + |body|)
  }

  lemma SwapCut(main: Doc, body: seq<Line>)
    requires DocInv(main) && NoSection(body)
    ensures Cut(main)
    ensures var lines := Front(main) + body + Back(main);
            && NextSection(lines, main.start + 1) == main.start + 1 + |body|
            && lines[main.start] == main.lines[main.start]
            && lines[..main.start] == main.lines[..main.start]
            && lines[main.start + 1..main.start + 1 + |body|] == body
            && lines[main.start + 1 + |body|..] == Back(main)
  {
    hide Heads, Unreleased, VersionOf, IsSection;
    DocParts(main);
    var front, back := Front(main), Back(main);
    var lines := front + body + back;
    var n := main.start + 1 + |body|;
    assert forall k :: main.start + 1 <= k < n ==> lines[k] == body[k - main.start - 1];
    assert n < |lines| ==> lines[n] == back[0];
    NextIs(lines, main.start + 1, n);
  }

  lemma {:induction false} NextIs(lines: seq<Line>, from: nat, n: nat)
    requires from <= n <= |lines|
    requires forall k :: from <= k < n ==> !IsSection(lines[k])
    requires n < |lines| ==> IsSection(lines[n])
    ensures NextSection(lines, from) == n
    decreases n - from
  {
    hide IsSection;
    if from < n {
      NextIs(lines, from + 1, n);
    }
  }

  /** Swapping the body leaves the headings as they were, moved. */
  lemma SwapHeads(main: Doc, body: seq<Line>)
    requires DocInv(main) && NoSection(body)
    ensures Cut(main)
    ensures var lines := Front(main) + body + Back(main);
            && Versions(Heads(lines, 0)) == Versions(main.headings)
            && Unreleased(Heads(lines, 0)) == [Heading(UNRELEASED, main.start)]
  {
    hide Heads, Unreleased, VersionOf, IsSection, NextSection;
    DocParts(main);
    var front, back := Front(main), Back(main);
    CutHeads(front, Body(main), back);
    CutHeads(front, body, back);
    var at, at' := |front| + |Body(main)|, |front| + |body|;
    HeadsMoved(back, at, at');
    HeadsComplete(front, 0, main.start);
    UnreleasedAre(Heads(front, 0));
    assert Heading(UNRELEASED, main.start) in Unreleased(Heads(front, 0));
    OnlyFirst(Unreleased(Heads(front, 0)), Unreleased(Heads(back, at)), Heading(UNRELEASED, main.start));
    assert Unreleased(Heads(back, at')) == [];
    assert Unreleased(Heads(front, 0)) + [] == Unreleased(Heads(front, 0));
  }

  lemma OnlyFirst<T>(a: seq<T>, b: seq<T>, x: T)
    requires a + b == [x] && x in a
    ensures b == [] && a == [x]
  {
    assert |a + b| == |a| + |b|;
    assert a == (a + b)[..|a|];
  }

  lemma CutHeads(front: seq<Line>, body: seq<Line>, back: seq<Line>)
    requires NoSection(body)
    ensures var all := Heads(front + body + back, 0);
            var f, b := Heads(front, 0), Heads(back, |front| + |body|);
            && Versions(all) == Versions(f) + Versions(b)
            && Unreleased(all) == Unreleased(f) + Unreleased(b)
  {
    hide Heads, Unreleased, Versions, NoSection;
    HeadsConcat(front + body, back, 0);
    HeadsConcat(front, body, 0);
    HeadsNone(body, |front|);
    var f, b := Heads(front, 0), Heads(back, |front| + |body|);
    assert f + [] == f;
    VersionsConcat(f, b);
    UnreleasedConcat(f, b);
  }

  lemma NewBody(main: Doc, items: seq<OwnItem>)
    requires DocInv(main) && AllParsed(items)
    ensures Cut(main)
    ensures var body := Pad(InsertAll(Body(main), items), main.end < |main.lines|);
            && BodyOk(body)
            && multiset(Norms(ParseBlock(body).items))
               == multiset(Norms(ParseBlock(Body(main)).items)) + multiset(Norms(items))
            && (Distinct(SubLines(body)) <==> Distinct(SubLines(Body(main))))
            && Thinned(Body(main), body)
  {
    hide *;
    DocParts(main);
    BodyFacts(main, items);
  }

  lemma BodyFacts(main: Doc, items: seq<OwnItem>)
    requires Cut(main) && BodyOk(Body(main)) && AllParsed(items)
    ensures var body := Pad(InsertAll(Body(main), items), main.end < |main.lines|);
            && BodyOk(body)
            && multiset(Norms(ParseBlock(body).items))
               == multiset(Norms(ParseBlock(Body(main)).items)) + multiset(Norms(items))
            && (Distinct(SubLines(body)) <==> Distinct(SubLines(Body(main))))
            && Thinned(Body(main), body)
  {
    hide ParseBlock, Norms, SubLines, Distinct, Thinned, InsertAll, Pad, NoSection, CleanLines, AllParsed;
    var was := Body(main);
    var now := InsertAll(was, items);
    InsertAllNorms(was, items);
    InsertAllThins(was, items);
    PadOk(now, main.end < |main.lines|);
    ThinnedTrans(was, now, Pad(now, main.end < |main.lines|));
  }

  /** An insertion never makes the last line of a text without a final newline empty. */
  lemma {:induction false} InsertAllLast(body: seq<Line>, items: seq<OwnItem>)
    requires AllParsed(items) && (body == [] || body[|body| - 1] != "")
    ensures var now := InsertAll(body, items); (items != [] ==> now != []) && (now == [] || now[|now| - 1] != "")
    decreases |items|
  {
    hide InsertItem, Parsed;
    if items != [] {
      InsertLast(body, items[0]);
      InsertAllLast(InsertItem(body, items[0]), items[1..]);
    }
  }

  lemma InsertLast(body: seq<Line>, item: OwnItem)
    requires Parsed(item) && (body == [] || body[|body| - 1] != "")
    ensures var now := InsertItem(body, item); now != [] && now[|now| - 1] != ""
  {
    hide Strip, SubName, Rank, NoBreaks;
    PlaceInside(body, item);
    assert Blank("");
  }

  lemma NewDocInv(main: Doc, items: seq<OwnItem>)
    requires DocInv(main) && AllParsed(items) && items != []
    ensures Cut(main)
    ensures var doc := NewDoc(main, items);
            && DocInv(doc) && |doc.lines| > 1 && Cut(doc)
            && Versions(doc.headings) == Versions(main.headings)
            && Outside(doc) == Outside(main)
            && Body(doc) == Pad(InsertAll(Body(main), items), main.end < |main.lines|)
  {
    hide Heads, Unreleased, VersionOf, IsSection, NextSection, InsertAll, ParseBlock, SubLines, Thinned, Norms,
         Distinct, NoBreaks, Pad, Parsed, Versions, NoSection;
    NewBody(main, items);
    var body := Pad(InsertAll(Body(main), items), main.end < |main.lines|);
    DocParts(main);
    SwapCut(main, body);
    SwapHeads(main, body);
    NewLast(main, items);
  }

  /** The last line stays the last line, or is a bullet's. */
  lemma NewLast(main: Doc, items: seq<OwnItem>)
    requires DocInv(main) && AllParsed(items) && items != []
    ensures Cut(main)
    ensures var lines := NewLines(main, items);
            |lines| > 1 && (!main.trailing ==> lines[|lines| - 1] != "")
  {
    hide Heads, Unreleased, VersionOf, IsSection, NextSection, InsertAll, NoBreaks, Parsed, NoSection;
    DocParts(main);
    var was := Body(main);
    if !main.trailing && Back(main) == [] {
      InsertAllLast(was, items);
    } else {
      InsertAllLonger(was, items);
    }
  }

  lemma {:induction false} InsertAllLonger(body: seq<Line>, items: seq<OwnItem>)
    requires AllParsed(items)
    ensures |InsertAll(body, items)| >= |body| + |items|
    decreases |items|
  {
    hide InsertItem, Parsed;
    if items != [] {
      InsertLonger(body, items[0]);
      InsertAllLonger(InsertItem(body, items[0]), items[1..]);
    }
  }

  lemma InsertLonger(body: seq<Line>, item: OwnItem)
    requires Parsed(item)
    ensures |InsertItem(body, item)| > |body|
  {
    hide Strip, SubName, Rank, NoBreaks;
    PlaceInside(body, item);
  }

  // ----- the items of the whole document -------------------------------------------------------------

  lemma SectionNotSub(line: Line)
    requires IsSection(line)
    ensures !IsSub(line)
  {
    assert line[2] == ' ';
  }

  /** A `## ` line closes what is open and starts afresh. */
  lemma SectionTail(q: Parser, tail: seq<Line>)
    requires tail == [] || IsSection(tail[0])
    ensures Finish(FeedAll(q, tail)).items == Close(q).items + ParseBlock(tail).items
  {
    hide Close;
    if tail == [] {
      assert Close(START).items == [] by { CloseStart(); }
    } else {
      SectionNotSub(tail[0]);
      CloseStart();
      CloseClears(q);
      var c, next := Close(q), FeedAll(START, tail[1..]);
      assert Feed(START, tail[0]) == START;
      assert Feed(q, tail[0]) == Behind(START, c.items, c.prose) by {
        assert c.items + [] == c.items && c.prose + [] == c.prose;
      }
      FeedAllBehind(START, tail[1..], c.items, c.prose);
      CloseBehind(next, c.items, c.prose);
    }
  }

  lemma CloseStart()
    ensures Close(START) == START
  {
  }

  lemma CloseClears(p: Parser)
    ensures Close(p).current.None? && Close(p).pendingBlanks == 0
  {
  }

  /** The items of a document are those of its three pieces. */
  lemma WholeItems(front: seq<Line>, body: seq<Line>, back: seq<Line>)
    requires front != [] && IsSection(front[|front| - 1]) && (back == [] || IsSection(back[0]))
    ensures ParseBlock(front + body + back).items
         == ParseBlock(front).items + ParseBlock(body).items + ParseBlock(back).items
  {
    hide FeedAll, Close, IsSection;
    var p := FeedAll(START, front);
    FrontState(front);
    var q := FeedAll(START, body);
    FeedConcat(START, front + body, back);
    FeedConcat(START, front, body);
    FeedAllBehind(START, body, p.items, p.prose);
    SectionTail(Behind(q, p.items, p.prose), back);
    CloseBehind(q, p.items, p.prose);
  }

  lemma FrontState(front: seq<Line>)
    requires front != [] && IsSection(front[|front| - 1])
    ensures var p := FeedAll(START, front);
            p == Behind(START, p.items, p.prose) && ParseBlock(front).items == p.items
  {
    hide FeedAll;
    var n := |front| - 1;
    assert front == front[..n] + [front[n]];
    FeedConcat(START, front[..n], [front[n]]);
    FeedOne(FeedAll(START, front[..n]), front[n]);
    SectionNotSub(front[n]);
    var p := FeedAll(START, front);
    assert p.items + [] == p.items && p.prose + [] == p.prose;
  }

  lemma NewNorms(main: Doc, items: seq<OwnItem>)
    requires DocInv(main) && AllParsed(items)
    ensures Cut(main)
    ensures multiset(Norms(ParseBlock(NewLines(main, items)).items))
         == multiset(Norms(ParseBlock(main.lines).items)) + multiset(Norms(items))
  {
    hide DocInv, ParseBlock, Norms, AllParsed, BodyOk, Distinct, SubLines, Thinned, IsSection, CleanLines,
         InsertAll, Pad;
    NewBody(main, items);
    DocParts(main);
    var front, was, back := Front(main), Body(main), Back(main);
    var now := Pad(InsertAll(was, items), main.end < |main.lines|);
    WholeItems(front, was, back);
    WholeItems(front, now, back);
    NormsOfThree(ParseBlock(front).items, ParseBlock(was).items, ParseBlock(back).items);
    NormsOfThree(ParseBlock(front).items, ParseBlock(now).items, ParseBlock(back).items);
  }

  lemma NormsOfThree(a: seq<OwnItem>, b: seq<OwnItem>, c: seq<OwnItem>)
    ensures multiset(Norms(a + b + c)) == multiset(Norms(a)) + multiset(Norms(b)) + multiset(Norms(c))
  {
    hide Norms;
    NormsConcat(a + b, c);
    NormsConcat(a, b);
  }

  // ----- when the self-check passes --------------------------------------------------------------------

  lemma {:induction false} ThinnedBack<T(!new)>(a: seq<T>, b: seq<T>, y: seq<T>)
    requires Thinned(a, b)
    ensures Thinned(a + y, b + y)
    decreases |b|
  {
    if b == [] {
      ThinnedSelf(y);
      assert a + y == y && b + y == y;
    } else {
      assert (b + y)[1..] == b[1..] + y;
      if Thinned(a, b[1..]) {
        ThinnedBack(a, b[1..], y);
      } else {
        assert (a + y)[1..] == a[1..] + y;
        ThinnedBack(a[1..], b[1..], y);
      }
    }
  }

  lemma NewThins(main: Doc, items: seq<OwnItem>)
    requires DocInv(main) && AllParsed(items)
    ensures Cut(main) && Greedy(Text(main.lines), Text(NewLines(main, items)))
  {
    hide DocInv, ParseBlock, Norms, AllParsed, BodyOk, Distinct, SubLines, Thinned, IsSection, CleanLines,
         InsertAll, Pad, Text, Greedy;
    NewBody(main, items);
    DocParts(main);
    var front, was, back := Front(main), Body(main), Back(main);
    var now := Pad(InsertAll(was, items), main.end < |main.lines|);
    ThinnedFront(front, was, now);
    ThinnedBack(front + was, front + now, back);
    ThinnedText(main.lines, NewLines(main, items));
    GreedyDecides(Text(main.lines), Text(NewLines(main, items)));
  }

  lemma {:induction false} CountOne<T>(s: seq<T>, i: nat)
    requires i < |s| && Distinct(s)
    ensures multiset(s)[s[i]] == 1
    decreases |s|
  {
    var n := |s| - 1;
    assert s == s[..n] + [s[n]];
    if i < n {
      CountOne(s[..n], i);
    } else {
      assert s[n] !in s[..n];
      assert multiset(s[..n])[s[n]] == 0;
    }
  }

  lemma DistinctCounts<T>(s: seq<T>)
    ensures Distinct(s) <==> forall i :: 0 <= i < |s| ==> multiset(s)[s[i]] == 1
  {
    if Distinct(s) {
      forall i | 0 <= i < |s| ensures multiset(s)[s[i]] == 1 {
        CountOne(s, i);
      }
    } else {
      var i, j :| 0 <= i < j < |s| && s[i] == s[j];
      assert s == s[..j] + s[j..];
      assert s[..j][i] in multiset(s[..j]) && s[j..][0] in multiset(s[j..]);
    }
  }

  /** The self-check of a rebuilt document, in terms of what went in. */
  lemma SelfCheckExact(main: Doc, inserted: seq<OwnItem>)
    requires DocInv(main) && AllParsed(inserted) && inserted != [] && Cut(main)
    requires forall i :: 0 <= i < |inserted| ==> inserted[i].Normalized() !in Norms(ParseBlock(main.lines).items)
    ensures Cut(NewDoc(main, inserted))
    ensures SelfCheck(main, NewDoc(main, inserted), inserted)
       <==> Distinct(Norms(inserted)) && Distinct(SubLines(Body(main))) && Distinct(Versions(main.headings))
  {
    hide DocInv, ParseBlock, AllParsed, BodyOk, Distinct, SubLines, Thinned, IsSection, CleanLines, InsertAll, Pad,
         Text, Greedy, Versions, Heads, NewLines, WordsOf;
    NewDocInv(main, inserted);
    NewBody(main, inserted);
    NewThins(main, inserted);
    NewNorms(main, inserted);
    DistinctCounts(Norms(inserted));
    var was := multiset(Norms(ParseBlock(main.lines).items));
    var doc := NewDoc(main, inserted);
    var whole := multiset(Norms(ParseBlock(doc.lines).items));
    forall i | 0 <= i < |inserted|
      ensures whole[inserted[i].Normalized()] == multiset(Norms(inserted))[Norms(inserted)[i]]
    {
      assert was[inserted[i].Normalized()] == 0;
    }
  }

  ghost predicate IsText(line: Line) {
    !Blank(line)
  }

  lemma {:induction false} TextKeeps(lines: seq<Line>)
    ensures Text(lines) == Keep(lines, iset line | IsText(line))
    decreases |lines|
  {
    hide Blank;
    if lines != [] {
      TextKeeps(lines[1..]);
    }
  }

  /** Exactly one item has the words. */
  ghost predicate Once(items: seq<OwnItem>, words: seq<string>) {
    exists i :: 0 <= i < |items| && items[i].Normalized() == words
             && forall k :: 0 <= k < |items| && items[k].Normalized() == words ==> k == i
  }

  ghost predicate Alone<T(!new)>(s: seq<T>, x: T, i: int) {
    0 <= i < |s| && s[i] == x && forall k :: 0 <= k < |s| && s[k] == x ==> k == i
  }

  lemma CountsOnce<T(!new)>(s: seq<T>, x: T)
    ensures multiset(s)[x] == 1 <==> exists i :: Alone(s, x, i)
  {
    if x in s {
      var i :| 0 <= i < |s| && s[i] == x;
      assert s == s[..i] + [x] + s[i + 1..];
      var before, behind := multiset(s[..i]), multiset(s[i + 1..]);
      assert multiset(s) == before + multiset{x} + behind;
      assert (x in before <==> x in s[..i]) && (x in behind <==> x in s[i + 1..]);
      if x in s[..i] {
        var k :| 0 <= k < i && s[k] == x;
        assert forall j :: !Alone(s, x, j);
      } else if x in s[i + 1..] {
        var k :| 0 <= k < |s[i + 1..]| && s[i + 1..][k] == x;
        assert s[i + 1 + k] == x;
        assert forall j :: !Alone(s, x, j);
      } else {
        forall k | 0 <= k < |s| && k != i ensures s[k] != x {
          assert if k < i then s[k] in s[..i] else s[i + 1..][k - i - 1] in s[i + 1..];
        }
        assert Alone(s, x, i);
      }
    } else {
      assert x !in multiset(s);
    }
  }

  lemma OnceCounts(items: seq<OwnItem>, words: seq<string>)
    ensures multiset(Norms(items))[words] == 1 <==> Once(items, words)
  {
    hide WordsOf;
    var norms := Norms(items);
    CountsOnce(norms, words);
    forall k | 0 <= k < |items| ensures norms[k] == items[k].Normalized() {
    }
    if i :| Alone(norms, words, i) {
      assert items[i].Normalized() == words;
    }
    if i :| 0 <= i < |items| && items[i].Normalized() == words
            && forall k :: 0 <= k < |items| && items[k].Normalized() == words ==> k == i {
      assert Alone(norms, words, i);
    }
  }

  /** What the self-check asks of any two documents: the same lines around [Unreleased], main's lines that are
      not blank among the result's in order, every inserted bullet's words in exactly one item, and no
      repeated heading. */
  lemma SelfCheckMeaning(main: Doc, result: Doc, inserted: seq<OwnItem>)
    requires Cut(main) && Cut(result)
    ensures SelfCheck(main, result, inserted)
       <==> (&& SameOutside(main, result)
             && Thinned(Keep(main.lines, iset line | IsText(line)), Keep(result.lines, iset line | IsText(line)))
             && (forall i :: 0 <= i < |inserted| ==>
                   Once(ParseBlock(result.lines).items, inserted[i].Normalized()))
             && Distinct(Keep(Body(result), iset line | IsSub(line)))
             && Distinct(Versions(result.headings)))
  {
    hide ParseBlock, Text, Keep, Greedy, Thinned, SubLines, Distinct, Norms, Once, Versions, WordsOf, Body;
    TextKeeps(main.lines);
    TextKeeps(result.lines);
    GreedyDecides(Text(main.lines), Text(result.lines));
    SubLinesKeep(Body(result));
    forall i | 0 <= i < |inserted|
      ensures multiset(Norms(ParseBlock(result.lines).items))[inserted[i].Normalized()] == 1
         <==> Once(ParseBlock(result.lines).items, inserted[i].Normalized())
    {
      OnceCounts(ParseBlock(result.lines).items, inserted[i].Normalized());
    }
  }

  // ----- the whole rebuild -------------------------------------------------------------------------------

  lemma {:induction false} SelectAre(items: seq<OwnItem>, present: seq<seq<string>>, wanted: bool)
    ensures forall item :: item in Select(items, present, wanted)
              <==> item in items && (item.Normalized() in present) == wanted
  {
    hide WordsOf;
    if items != [] {
      SelectAre(items[1..], present, wanted);
    }
  }

  lemma {:induction false} SelectAll(items: seq<OwnItem>, present: seq<seq<string>>)
    requires forall item :: item in items ==> item.Normalized() in present
    ensures Select(items, present, false) == [] && Select(items, present, true) == items
  {
    hide WordsOf;
    if items != [] {
      assert items[0] in items && forall item :: item in items[1..] ==> item in items;
      SelectAll(items[1..], present);
    }
  }

  lemma {:induction false} OwnAre(items: seq<OwnItem>, keys: seq<(string, seq<string>)>)
    ensures forall item :: item in WithoutKeys(items, keys) ==> item in items
  {
    hide WordsOf;
    if items != [] {
      OwnAre(items[1..], keys);
    }
  }

  lemma OwnParsed(base: Doc, tip: Doc)
    requires DocInv(tip) && Cut(base) && Cut(tip) && OwnItems(base, tip).Ok?
    ensures AllParsed(OwnItems(base, tip).value)
  {
    hide DocInv, ParseBlock, Parsed, WordsOf, NoBreaks, IsSection, WithoutKeys, Distinct, Keys;
    DocParts(tip);
    var items := ParseBlock(Body(tip)).items;
    ParsedItems(Body(tip));
    var own := OwnItems(base, tip).value;
    OwnAre(items, Keys(ParseBlock(Body(base)).items));
    forall i | 0 <= i < |own| ensures Parsed(own[i]) {
      assert own[i] in own;
      assert own[i] in items;
    }
  }

  // ----- which bullets are the branch's own --------------------------------------------------------------

  /** The same subsection and the same words. */
  ghost predicate Twins(a: OwnItem, b: OwnItem) {
    a.subsection == b.subsection && a.Normalized() == b.Normalized()
  }

  ghost predicate NoTwin(items: seq<OwnItem>, item: OwnItem) {
    forall i :: 0 <= i < |items| ==> !Twins(items[i], item)
  }

  /** No item has the words, in whatever subsection. */
  ghost predicate Absent(items: seq<OwnItem>, item: OwnItem) {
    forall i :: 0 <= i < |items| ==> items[i].Normalized() != item.Normalized()
  }

  ghost function Unlike(items: seq<OwnItem>): iset<OwnItem> {
    iset item | NoTwin(items, item)
  }

  ghost function Missing(items: seq<OwnItem>): iset<OwnItem> {
    iset item | Absent(items, item)
  }

  ghost function Held(items: seq<OwnItem>): iset<OwnItem> {
    iset item | !Absent(items, item)
  }

  /** The tip's items that the merge base's [Unreleased] does not have. */
  ghost function Own(b: Doc, t: Doc): seq<OwnItem>
    requires Cut(b) && Cut(t)
  {
    Keep(ParseBlock(Body(t)).items, Unlike(ParseBlock(Body(b)).items))
  }

  /** What goes into main: the branch's own items whose words main has nowhere. */
  ghost function Inserts(b: Doc, t: Doc, m: Doc): seq<OwnItem>
    requires Cut(b) && Cut(t)
  {
    Keep(ParseBlock(Body(t)).items, Unlike(ParseBlock(Body(b)).items) * Missing(ParseBlock(m.lines).items))
  }

  /** The branch did no more than add bullets to [Unreleased]: the same version headings, the same lines
      before and after, the same prose, every old bullet, no new bullet twice, none without a subsection. */
  ghost predicate OnlyAdds(b: Doc, t: Doc)
    requires Cut(b) && Cut(t)
  {
    && Versions(t.headings) == Versions(b.headings) && SameOutside(b, t)
    && ProseAdded(b, t) == {} && ProseAdded(t, b) == {}
    && BulletsKept(b, t)
  }

  ghost predicate SameOutside(b: Doc, t: Doc)
    requires Cut(b) && Cut(t)
  {
    t.lines[..t.start] == b.lines[..b.start] && t.lines[t.end..] == b.lines[b.end..]
  }

  ghost function ProseAdded(b: Doc, t: Doc): set<string>
    requires Cut(b) && Cut(t)
  {
    More(ParseBlock(Body(b)).prose, ParseBlock(Body(t)).prose)
  }

  ghost function More(was: seq<string>, now: seq<string>): set<string> {
    set text | text in now && text !in was
  }

  ghost predicate BulletsKept(b: Doc, t: Doc)
    requires Cut(b) && Cut(t)
  {
    var was, now := ParseBlock(Body(b)).items, ParseBlock(Body(t)).items;
    && (forall i :: 0 <= i < |was| ==> !NoTwin(now, was[i]))
    && (forall i, j :: 0 <= i < j < |now| && Twins(now[i], now[j]) ==> !NoTwin(was, now[i]))
    && (forall i :: 0 <= i < |now| && now[i].subsection == "" ==> !NoTwin(was, now[i]))
  }

  lemma KeyHeld(items: seq<OwnItem>, item: OwnItem)
    ensures item.Key() in Keys(items) <==> !NoTwin(items, item)
  {
    hide WordsOf;
    if !NoTwin(items, item) {
      var i :| 0 <= i < |items| && Twins(items[i], item);
      assert Keys(items)[i] == item.Key();
    }
  }

  lemma {:induction false} WithoutKeysIs(items: seq<OwnItem>, was: seq<OwnItem>)
    ensures WithoutKeys(items, Keys(was)) == Keep(items, Unlike(was))
    decreases |items|
  {
    hide Keys, NoTwin, WordsOf;
    if items != [] {
      KeyHeld(was, items[0]);
      WithoutKeysIs(items[1..], was);
    }
  }

  lemma NormHeld(items: seq<OwnItem>, item: OwnItem)
    ensures item.Normalized() in Norms(items) <==> !Absent(items, item)
  {
    hide WordsOf;
    if !Absent(items, item) {
      var i :| 0 <= i < |items| && items[i].Normalized() == item.Normalized();
      assert Norms(items)[i] == item.Normalized();
    }
  }

  lemma {:induction false} SelectIs(items: seq<OwnItem>, present: seq<OwnItem>)
    ensures Select(items, Norms(present), false) == Keep(items, Missing(present))
    ensures Select(items, Norms(present), true) == Keep(items, Held(present))
    decreases |items|
  {
    hide Norms, Absent, WordsOf;
    if items != [] {
      NormHeld(present, items[0]);
      SelectIs(items[1..], present);
    }
  }

  /** Two own items with one key are two tip items with one key, new to the base. */
  lemma OwnDistinct(now: seq<OwnItem>, was: seq<OwnItem>)
    ensures Distinct(Keys(Keep(now, Unlike(was))))
       <==> forall i, j :: 0 <= i < j < |now| && Twins(now[i], now[j]) ==> !NoTwin(was, now[i])
  {
    hide Keep, WordsOf;
    var own := Keep(now, Unlike(was));
    var at := KeepAt(now, Unlike(was));
    var keys := Keys(own);
    if !Distinct(keys) {
      var x, y :| 0 <= x < y < |keys| && keys[x] == keys[y];
      assert at[x] < at[y] && Twins(now[at[x]], now[at[y]]) && own[x] in Unlike(was);
    }
    if i, j :| 0 <= i < j < |now| && Twins(now[i], now[j]) && NoTwin(was, now[i]) {
      assert NoTwin(was, now[j]);
      var x :| 0 <= x < |at| && at[x] == i;
      var y :| 0 <= y < |at| && at[y] == j;
      assert keys[x] == keys[y] && x < y;
    }
  }

  lemma OwnLoose(now: seq<OwnItem>, was: seq<OwnItem>)
    ensures (exists item | item in Keep(now, Unlike(was)) :: item.subsection == "")
       <==> !forall i :: 0 <= i < |now| && now[i].subsection == "" ==> !NoTwin(was, now[i])
  {
    hide Keep, NoTwin;
    KeepAre(now, Unlike(was));
    if i :| 0 <= i < |now| && now[i].subsection == "" && NoTwin(was, now[i]) {
      assert now[i] in Keep(now, Unlike(was));
    }
  }

  lemma OwnMissing(now: seq<OwnItem>, was: seq<OwnItem>)
    ensures (exists key | key in Keys(was) :: key !in Keys(now))
       <==> !forall i :: 0 <= i < |was| ==> !NoTwin(now, was[i])
  {
    hide NoTwin, WordsOf;
    forall i | 0 <= i < |was| ensures was[i].Key() in Keys(now) <==> !NoTwin(now, was[i]) {
      KeyHeld(now, was[i]);
    }
    if i :| 0 <= i < |was| && NoTwin(now, was[i]) {
      assert Keys(was)[i] in Keys(was);
    }
  }

  /** The items `_own_items` returns, and its refusals, over the two documents. */
  lemma OwnItemsExactly(b: Doc, t: Doc)
    requires Cut(b) && Cut(t)
    ensures OwnItems(b, t)
         == if ProseAdded(b, t) != {} then Err(Unparseable)
            else if ProseAdded(t, b) != {} || !BulletsKept(b, t) then Err(AmbiguousEdit)
            else Ok(Own(b, t))
  {
    hide ParseBlock, WithoutKeys, Keep, Keys, NoTwin, Distinct, Body;
    var was, now := ParseBlock(Body(b)), ParseBlock(Body(t));
    WithoutKeysIs(now.items, was.items);
    OwnDistinct(now.items, was.items);
    OwnLoose(now.items, was.items);
    OwnMissing(now.items, was.items);
    ProseExists(was.prose, now.prose);
    ProseExists(now.prose, was.prose);
  }

  lemma ProseExists(was: seq<string>, now: seq<string>)
    ensures (exists text | text in now :: text !in was) <==> More(was, now) != {}
  {
    if text :| text in now && text !in was {
      assert text in More(was, now);
    }
    if text :| text in More(was, now) {
      assert text in now && text !in was;
    }
  }

  /** Three documents that parse, a branch that only added bullets, and what is new to main. */
  ghost predicate Placing(base: string, branch: string, main: string, b: Doc, t: Doc, m: Doc, inserted: seq<OwnItem>) {
    && ParseDoc(base) == Ok(b) && ParseDoc(branch) == Ok(t) && ParseDoc(main) == Ok(m)
    && Cut(b) && Cut(t) && Cut(m)
    && OnlyAdds(b, t) && inserted == Inserts(b, t, m)
  }

  lemma PlacingOwn(base: string, branch: string, main: string, b: Doc, t: Doc, m: Doc, inserted: seq<OwnItem>)
    requires Placing(base, branch, main, b, t, m, inserted)
    ensures BranchShape(b, t).None? && OwnItems(b, t) == Ok(Own(b, t))
    ensures inserted == Select(OwnItems(b, t).value, Norms(ParseBlock(m.lines).items), false)
  {
    hide ParseBlock, Keep, BulletsKept, OwnItems, ParseDoc, Select, Norms;
    OwnItemsExactly(b, t);
    SelectIs(Own(b, t), ParseBlock(m.lines).items);
    KeepKeep(ParseBlock(Body(t)).items, Unlike(ParseBlock(Body(b)).items), Missing(ParseBlock(m.lines).items));
  }

  /** Which refusal each kind of branch edit gets, in the order they are looked at, and that a branch that
      only added bullets main has already gives main back as it is. */
  lemma BranchEdits(base: string, branch: string, main: string, b: Doc, t: Doc, m: Doc)
    requires ParseDoc(base) == Ok(b) && ParseDoc(branch) == Ok(t) && ParseDoc(main) == Ok(m)
    ensures Cut(b) && Cut(t) && Cut(m)
    ensures var r := Rebuild(base, branch, main);
            if Versions(t.headings) != Versions(b.headings) then r == Err(AmbiguousEdit)
            else if !SameOutside(b, t) then r == Err(ReleasedSectionTouched)
            else if ProseAdded(b, t) != {} then r == Err(Unparseable)
            else if ProseAdded(t, b) != {} || !BulletsKept(b, t) then r == Err(AmbiguousEdit)
            else Inserts(b, t, m) == [] ==>
              r == Ok(Rebuilt(main, [], Keep(Own(b, t), Held(ParseBlock(m.lines).items))))
  {
    hide ParseBlock, Keep, BulletsKept, OwnItems, ParseDoc, Select, Norms, Versions, ProseAdded, Own, SelfCheck,
         NewLines, JoinLines;
    ParsedCut(base);
    ParsedCut(branch);
    ParsedCut(main);
    OwnItemsExactly(b, t);
    if OnlyAdds(b, t) {
      var inserted := Inserts(b, t, m);
      PlacingOwn(base, branch, main, b, t, m, inserted);
      SelectIs(Own(b, t), ParseBlock(m.lines).items);
    }
  }

  /** A text that does not parse is refused as such. */
  lemma UnreadableRefused(base: string, branch: string, main: string)
    requires ParseDoc(base).Err? || ParseDoc(branch).Err? || ParseDoc(main).Err?
    ensures Rebuild(base, branch, main) == Err(Unparseable)
  {
    hide ParseDoc;
  }

  /** What a rebuild inserts and what it skips: an item is inserted exactly when it stands in the branch's
      [Unreleased], the merge base's has none with its subsection and words, and main has its words
      nowhere; it is skipped when main has them. Both keep the branch's order. */
  lemma InsertedExactly(base: string, branch: string, main: string, b: Doc, t: Doc, m: Doc)
    returns (at: seq<int>, skippedAt: seq<int>)
    requires ParseDoc(base) == Ok(b) && ParseDoc(branch) == Ok(t) && ParseDoc(main) == Ok(m)
    requires Rebuild(base, branch, main).Ok?
    ensures Cut(b) && Cut(t)
    ensures var r := Rebuild(base, branch, main).value;
            var was, now, there := ParseBlock(Body(b)).items, ParseBlock(Body(t)).items, ParseBlock(m.lines).items;
            && (forall item :: item in r.inserted <==> item in now && NoTwin(was, item) && Absent(there, item))
            && (forall item :: item in r.skipped <==> item in now && NoTwin(was, item) && !Absent(there, item))
            && KeptAt(now, Unlike(was) * Missing(there), at, r.inserted)
            && KeptAt(now, Unlike(was) * Held(there), skippedAt, r.skipped)
  {
    hide ParseBlock, Keep, BulletsKept, OwnItems, ParseDoc, Select, Norms, Versions, ProseAdded, SelfCheck, NewLines,
         JoinLines, NoTwin, Absent, KeptAt;
    BranchEdits(base, branch, main, b, t, m);
    var inserted := Inserts(b, t, m);
    PlacingOwn(base, branch, main, b, t, m, inserted);
    var was, now, there := ParseBlock(Body(b)).items, ParseBlock(Body(t)).items, ParseBlock(m.lines).items;
    SelectIs(Own(b, t), there);
    KeepKeep(now, Unlike(was), Held(there));
    KeepAre(now, Unlike(was) * Missing(there));
    KeepAre(now, Unlike(was) * Held(there));
    at := KeepAt(now, Unlike(was) * Missing(there));
    skippedAt := KeepAt(now, Unlike(was) * Held(there));
  }

  lemma PlacingParsed(base: string, branch: string, main: string, b: Doc, t: Doc, m: Doc, inserted: seq<OwnItem>)
    requires Placing(base, branch, main, b, t, m, inserted)
    ensures DocInv(m) && AllParsed(inserted)
    ensures forall i :: 0 <= i < |inserted| ==> inserted[i].Normalized() !in Norms(ParseBlock(m.lines).items)
  {
    hide DocInv, ParseBlock, Parsed, WordsOf, OwnItems, ParseDoc, Select, Norms, BranchShape, OnlyAdds, Inserts;
    PlacingOwn(base, branch, main, b, t, m, inserted);
    ParseDocInv(branch);
    ParseDocInv(main);
    OwnParsed(b, t);
    var own, present := OwnItems(b, t).value, Norms(ParseBlock(m.lines).items);
    SelectAre(own, present, false);
    forall i | 0 <= i < |inserted| ensures Parsed(inserted[i]) && inserted[i].Normalized() !in present {
      assert inserted[i] in inserted;
      assert inserted[i] in own;
    }
  }

  /** When there is something to insert, the rebuild succeeds exactly when the inserted texts are
      pairwise different, main repeats no raw subsection heading under [Unreleased], and main
      repeats no version heading. Every refusal is the ambiguous one, and what is written reads
      back as main with the bullets in place. */
  lemma RebuildExact(base: string, branch: string, main: string, b: Doc, t: Doc, m: Doc, inserted: seq<OwnItem>)
    requires Placing(base, branch, main, b, t, m, inserted) && inserted != []
    ensures var r := Rebuild(base, branch, main);
            && (r.Ok? <==> Distinct(Norms(inserted)) && Distinct(SubLines(Body(m))) && Distinct(Versions(m.headings)))
            && (r.Err? ==> r.disposition == AmbiguousEdit)
            && (r.Ok? ==> r.value.inserted == inserted && ParseDoc(r.value.text) == Ok(NewDoc(m, inserted)))
  {
    hide DocInv, ParseBlock, AllParsed, Distinct, SubLines, Versions, OwnItems, ParseDoc, Select, Norms,
         BranchShape, SelfCheck, NewLines, JoinLines, Cut, WordsOf, NewDoc, OnlyAdds, Inserts, Own;
    PlacingOwn(base, branch, main, b, t, m, inserted);
    PlacingParsed(base, branch, main, b, t, m, inserted);
    SelfCheckExact(m, inserted);
    NewDocReads(m, inserted);
  }

  lemma NewDocReads(m: Doc, inserted: seq<OwnItem>)
    requires DocInv(m) && AllParsed(inserted) && inserted != []
    ensures Cut(m) && ParseDoc(JoinLines(NewLines(m, inserted), m.newline, m.trailing)) == Ok(NewDoc(m, inserted))
    ensures Cut(NewDoc(m, inserted)) && DocInv(NewDoc(m, inserted))
  {
    hide DocInv, ParseBlock, AllParsed, ParseDoc, NewLines, JoinLines, Heads, Cut, Pad, InsertAll, Versions,
         Outside, Body;
    NewDocInv(m, inserted);
    WriteParse(NewDoc(m, inserted));
  }

  /** A rebuild that succeeds had a branch that only added bullets. */
  lemma RebuildPlaces(base: string, branch: string, main: string, b: Doc, t: Doc, m: Doc)
    requires ParseDoc(base) == Ok(b) && ParseDoc(branch) == Ok(t) && ParseDoc(main) == Ok(m)
    requires Rebuild(base, branch, main).Ok?
    ensures Cut(b) && Cut(t) && OwnItems(b, t).Ok?
    ensures Placing(base, branch, main, b, t, m,
                    Select(OwnItems(b, t).value, Norms(ParseBlock(m.lines).items), false))
  {
    hide ParseBlock, OwnItems, ParseDoc, Select, Norms, Versions, ProseAdded, Rebuild, BulletsKept, SameOutside,
         Inserts;
    BranchEdits(base, branch, main, b, t, m);
    PlacingOwn(base, branch, main, b, t, m, Inserts(b, t, m));
  }

  /** A successful rebuild over its own result finds every bullet present and changes nothing. */
  lemma RebuildIdempotent(base: string, branch: string, main: string)
    requires Rebuild(base, branch, main).Ok?
    ensures var text := Rebuild(base, branch, main).value.text;
            var again := Rebuild(base, branch, text);
            again.Ok? && again.value.text == text && again.value.inserted == []
  {
    hide DocInv, ParseBlock, AllParsed, Distinct, SubLines, Versions, OwnItems, ParseDoc, Select, Norms,
         BranchShape, SelfCheck, NewLines, JoinLines, Cut, WordsOf, NewDoc;
    var b, t, m := ParseDoc(base).value, ParseDoc(branch).value, ParseDoc(main).value;
    ParsedCut(base);
    ParsedCut(branch);
    ParsedCut(main);
    var own, present := OwnItems(b, t).value, Norms(ParseBlock(m.lines).items);
    var inserted := Select(own, present, false);
    RebuildPlaces(base, branch, main, b, t, m);
    if inserted != [] {
      RebuildExact(base, branch, main, b, t, m, inserted);
      PlacingParsed(base, branch, main, b, t, m, inserted);
      var present' := Norms(ParseBlock(NewDoc(m, inserted).lines).items);
      OwnPresent(own, m, inserted);
      SelectAll(own, present');
      NewDocReads(m, inserted);
    }
  }

  /** After the insertion every one of the branch's bullets is in the document. */
  lemma OwnPresent(own: seq<OwnItem>, m: Doc, inserted: seq<OwnItem>)
    requires DocInv(m) && AllParsed(inserted) && Cut(m)
    requires inserted == Select(own, Norms(ParseBlock(m.lines).items), false)
    ensures forall item :: item in own ==> item.Normalized() in Norms(ParseBlock(NewDoc(m, inserted).lines).items)
  {
    hide DocInv, ParseBlock, AllParsed, Select, NewLines, WordsOf, Cut, Heads, Pad, InsertAll;
    var was := Norms(ParseBlock(m.lines).items);
    var now := Norms(ParseBlock(NewDoc(m, inserted).lines).items);
    NewNorms(m, inserted);
    SelectAre(own, was, false);
    forall item | item in own ensures item.Normalized() in now {
      if item.Normalized() in was {
        assert item.Normalized() in multiset(was);
      } else {
        assert item in inserted;
        var i :| 0 <= i < |inserted| && inserted[i] == item;
        assert Norms(inserted)[i] in multiset(Norms(inserted));
      }
      assert item.Normalized() in multiset(now);
    }
  }

  /** The final idempotence check of `rebuild_changelog` never refuses: it is implied by the rest. */
  lemma SecondRebuildNeverRefuses(base: string, branch: string, main: string)
    ensures RebuildChangelog(base, branch, main) == Rebuild(base, branch, main)
  {
    hide Rebuild;
    if Rebuild(base, branch, main).Ok? {
      RebuildIdempotent(base, branch, main);
    }
  }

  /** What a rebuild that inserted something wrote: everything outside main's [Unreleased] line for
      line, main's prose, main's version headings, and under each subsection main's bullets
      followed by the branch's, given distinct subsection names. */
  lemma RebuildKeeps(base: string, branch: string, main: string, b: Doc, t: Doc, m: Doc, inserted: seq<OwnItem>,
                     name: string)
    requires Placing(base, branch, main, b, t, m, inserted) && inserted != []
    requires Rebuild(base, branch, main).Ok?
    ensures var doc := NewDoc(m, inserted);
            && ParseDoc(Rebuild(base, branch, main).value.text) == Ok(doc)
            && Cut(doc) && Outside(doc) == Outside(m) && Versions(doc.headings) == Versions(m.headings)
            && ParseBlock(Body(doc)).prose == ParseBlock(Body(m)).prose
            && (UniqueSubs(Body(m)) ==>
                  Of(ParseBlock(Body(doc)).items, name) == Of(ParseBlock(Body(m)).items, name) + Of(inserted, name))
  {
    hide DocInv, ParseBlock, AllParsed, Distinct, SubLines, Versions, ParseDoc, Norms, NewLines, WordsOf, NewDoc,
         Rebuild, Of, UniqueSubs, Outside, InsertAll, Pad, Placing;
    RebuildExact(base, branch, main, b, t, m, inserted);
    PlacingParsed(base, branch, main, b, t, m, inserted);
    NewDocInv(m, inserted);
    DocParts(m);
    KeepsItems(Body(m), inserted, m.end < |m.lines|, name);
  }

  lemma KeepsItems(body: seq<Line>, items: seq<OwnItem>, following: bool, name: string)
    requires BodyOk(body) && AllParsed(items)
    ensures var now := ParseBlock(Pad(InsertAll(body, items), following));
            && now.prose == ParseBlock(body).prose
            && (UniqueSubs(body) ==> Of(now.items, name) == Of(ParseBlock(body).items, name) + Of(items, name))
  {
    hide ParseBlock, AllParsed, NoSection, CleanLines, Of, UniqueSubs, InsertAll, Pad, SubLines, Norms, Distinct,
         Thinned;
    InsertAllNorms(body, items);
    InsertAllProse(body, items);
    PadOk(InsertAll(body, items), following);
    if UniqueSubs(body) {
      InsertAllAppends(body, items, name);
    }
  }

  /** The loop of `_rebuild` that edits main's body in place. */
  method InsertOwn(body: seq<Line>, items: seq<OwnItem>, following: bool) returns (now: seq<Line>)
    ensures now == Pad(InsertAll(body, items), following)
  {
    hide InsertItem;
    now := body;
    assert items[0..] == items;
    for i := 0 to |items|
      invariant InsertAll(body, items) == InsertAll(now, items[i..])
    {
      assert items[i..][1..] == items[i + 1..] && items[i..][0] == items[i];
      now := Insert(now, items[i]);
    }
    if following && (now == [] || !Blank(now[|now| - 1])) {
      now := now + [""];
    }
  }
}
