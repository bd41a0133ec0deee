/** Inserting a bullet into an [Unreleased] body (`changelog_rebuild.py` `_insert_item`), and
    why the parser reads the result back as the old items plus that one. */
module ChangelogInsert {
  import opened Common
  import opened ChangelogParse

  function Rank(name: string): nat {
    if name == "Added" then 0 else if name == "Changed" then 1 else if name == "Deprecated" then 2
    else if name == "Removed" then 3 else if name == "Fixed" then 4 else if name == "Security" then 5
    else 6
  }

  /** The first subsection heading at or after `from`, else the end. */
  function NextSub(body: seq<Line>, from: nat): (i: nat)
    requires from <= |body|
    ensures from <= i <= |body|
    ensures i < |body| ==> IsSub(body[i])
    ensures forall k :: from <= k < i ==> !IsSub(body[k])
    decreases |body| - from
  {
    if from == |body| || IsSub(body[from]) then from else NextSub(body, from + 1)
  }

  /** The first heading of the named subsection at or after `from`, else the end. */
  function FindSub(body: seq<Line>, name: string, from: nat): (i: nat)
    requires from <= |body|
    ensures from <= i <= |body|
    ensures i < |body| ==> IsSub(body[i]) && SubName(body[i]) == name
    ensures forall k :: from <= k < i && IsSub(body[k]) ==> SubName(body[k]) != name
    decreases |body| - from
  {
    if from == |body| || (IsSub(body[from]) && SubName(body[from]) == name) then from
    else FindSub(body, name, from + 1)
  }

  /** The first heading of greater rank at or after `from`, else the end. */
  function FindHigher(body: seq<Line>, rank: nat, from: nat): (i: nat)
    requires from <= |body|
    ensures from <= i <= |body|
    ensures i < |body| ==> IsSub(body[i]) && Rank(SubName(body[i])) > rank
    ensures forall k :: from <= k < i && IsSub(body[k]) ==> Rank(SubName(body[k])) <= rank
    decreases |body| - from
  {
    if from == |body| || (IsSub(body[from]) && Rank(SubName(body[from])) > rank) then from
    else FindHigher(body, rank, from + 1)
  }

  /** One past the last non-blank line of `body[start..end]`, else `start`. */
  function AfterText(body: seq<Line>, start: nat, end: nat): (i: nat)
    requires start <= end <= |body|
    ensures start <= i <= end
    ensures i > start ==> !Blank(body[i - 1])
    ensures forall k :: i <= k < end ==> Blank(body[k])
    decreases end
  {
    if start == end || !Blank(body[end - 1]) then end else AfterText(body, start, end - 1)
  }

  /** Where the subsection `name` ends: the next heading after its own, the heading it would go
      in front of, or the end of the body. */
  function SubEnd(body: seq<Line>, name: string): (e: nat)
    ensures e <= |body|
  {
    var i := FindSub(body, name, 0);
    if i < |body| then NextSub(body, i + 1) else FindHigher(body, Rank(name), 0)
  }

  /** The line index at which `_insert_item` splices, and the lines it splices in. */
  function Place(body: seq<Line>, item: OwnItem): (nat, seq<Line>) {
    var i := FindSub(body, item.subsection, 0);
    var heading := SUBSECTION_PREFIX + item.subsection;
    if i < |body| then (AfterText(body, i, NextSub(body, i + 1)), [""] + item.lines)
    else
      var j := FindHigher(body, Rank(item.subsection), 0);
      if j < |body| then (j, [heading, ""] + item.lines + [""])
      else (AfterText(body, 0, |body|), ["", heading, ""] + item.lines)
  }

  lemma PlaceInside(body: seq<Line>, item: OwnItem)
    ensures Place(body, item).0 <= |body|
  {
  }

  function InsertItem(body: seq<Line>, item: OwnItem): seq<Line> {
    PlaceInside(body, item);
    var (at, lines) := Place(body, item);
    body[..at] + lines + body[at..]
  }

  /** `_insert_item` with its scans as loops. */
  method Insert(body: seq<Line>, item: OwnItem) returns (body': seq<Line>)
    ensures body' == InsertItem(body, item)
  {
    hide Rank, SubName;
    var heading := SUBSECTION_PREFIX + item.subsection;
    var i := 0;
    while i < |body| && !(IsSub(body[i]) && SubName(body[i]) == item.subsection)
      invariant i <= |body| && FindSub(body, item.subsection, 0) == FindSub(body, item.subsection, i)
    {
      i := i + 1;
    }
    if i < |body| {
      var end := i + 1;
      while end < |body| && !IsSub(body[end])
        invariant i + 1 <= end <= |body| && NextSub(body, i + 1) == NextSub(body, end)
      {
        end := end + 1;
      }
      var last := LastText(body, i, end);
      return body[..last] + ([""] + item.lines) + body[last..];
    }
    var j := 0;
    while j < |body| && !(IsSub(body[j]) && Rank(SubName(body[j])) > Rank(item.subsection))
      invariant j <= |body|
      invariant FindHigher(body, Rank(item.subsection), 0) == FindHigher(body, Rank(item.subsection), j)
    {
      j := j + 1;
    }
    if j < |body| {
      return body[..j] + ([heading, ""] + item.lines + [""]) + body[j..];
    }
    var last := LastText(body, 0, |body|);
    return body[..last] + (["", heading, ""] + item.lines) + body[last..];
  }

  /** `_last_nonblank`, plus one. */
  method LastText(body: seq<Line>, start: nat, end: nat) returns (i: nat)
    requires start <= end <= |body|
    ensures i == AfterText(body, start, end)
  {
    i := end;
    while i > start && Blank(body[i - 1])
      invariant start <= i <= end && AfterText(body, start, end) == AfterText(body, start, i)
    {
      i := i - 1;
    }
  }

  // ----- the parser reads the insertion back ---------------------------------------------------

  ghost predicate NoSection(body: seq<Line>) {
    forall i :: 0 <= i < |body| ==> !IsSection(body[i])
  }

  /** Between headings the subsection stays the same. */
  lemma {:induction false} SubsectionKept(p: Parser, lines: seq<Line>)
    requires NoSection(lines) && forall i :: 0 <= i < |lines| ==> !IsSub(lines[i])
    ensures FeedAll(p, lines).subsection == p.subsection
    decreases |lines|
  {
    hide Strip;
    if lines != [] {
      SubsectionKept(Feed(p, lines[0]), lines[1..]);
    }
  }

  /** After a heading of the subsection and lines of it, that is the parser's subsection. */
  lemma InSubsection(body: seq<Line>, i: nat, at: nat)
    requires i < at <= |body| && IsSub(body[i]) && NoSection(body)
    requires forall k :: i < k < at ==> !IsSub(body[k])
    ensures FeedAll(START, body[..at]).subsection == SubName(body[i])
  {
    hide FeedAll, SubName;
    var rest := body[i + 1..at];
    assert body[..at] == body[..i] + ([body[i]] + rest);
    FeedConcat(START, body[..i], [body[i]] + rest);
    var p := FeedAll(START, body[..i]);
    FeedConcat(p, [body[i]], rest);
    FeedOne(p, body[i]);
    SubsectionKept(Feed(p, body[i]), rest);
  }

  /** The bullets and prose of closed states that differ by one more item, after the same lines. */
  lemma SameTail(p: Parser, q: Parser, item: OwnItem, tail: seq<Line>)
    requires p.current.None? && p.pendingBlanks == 0
    requires q == p.(items := p.items + [item])
    ensures var was, now := Finish(FeedAll(p, tail)), Finish(FeedAll(q, tail));
            && now.prose == was.prose
            && p.items <= was.items
            && now.items == p.items + [item] + was.items[|p.items|..]
  {
    hide FeedAll, Close;
    var z := p.(items := [], prose := []);
    FeedAllBehind(z, tail, p.items, p.prose);
    FeedAllBehind(z, tail, q.items, q.prose);
    assert Behind(z, p.items, p.prose) == p && Behind(z, q.items, q.prose) == q by {
      assert p.items + [] == p.items && p.prose + [] == p.prose && q.items + [] == q.items;
    }
    var r := FeedAll(z, tail);
    CloseBehind(r, p.items, p.prose);
    CloseBehind(r, q.items, q.prose);
  }

  /** Lines that open a subsection forget the open item and the subsection before them. */
  lemma ClosedTail(q: Parser, name: string, tail: seq<Line>)
    requires tail == [] || IsSub(tail[0])
    ensures Finish(FeedAll(q, tail)) == Finish(FeedAll(Close(q).(subsection := name), tail))
  {
    hide SubName;
    if tail != [] {
      assert Feed(q, tail[0]) == Feed(Close(q).(subsection := name), tail[0]);
    }
  }

  /** The heading of a created subsection names it. */
  lemma HeadingNames(name: string)
    requires Strip(name) == name
    ensures IsSub(SUBSECTION_PREFIX + name) && SubName(SUBSECTION_PREFIX + name) == name
  {
    assert (SUBSECTION_PREFIX + name)[4..] == name;
  }

  /** What `_insert_item` puts in front of the bullet leads the parser into its subsection. */
  ghost function Lead(body: seq<Line>, item: OwnItem): seq<Line> {
    var heading := SUBSECTION_PREFIX + item.subsection;
    if FindSub(body, item.subsection, 0) < |body| then [""]
    else if FindHigher(body, Rank(item.subsection), 0) < |body| then [heading, ""]
    else ["", heading, ""]
  }

  ghost function Trail(body: seq<Line>, item: OwnItem): seq<Line> {
    if FindSub(body, item.subsection, 0) == |body| && FindHigher(body, Rank(item.subsection), 0) < |body| then [""]
    else []
  }

  lemma PlaceParts(body: seq<Line>, item: OwnItem)
    ensures Place(body, item).1 == Lead(body, item) + item.lines + Trail(body, item)
    ensures AllBlank(Trail(body, item))
    ensures Place(body, item).0 <= SubEnd(body, item.subsection)
    ensures forall k :: Place(body, item).0 <= k < SubEnd(body, item.subsection) ==> Blank(body[k])
    ensures SubEnd(body, item.subsection) < |body| ==> IsSub(body[SubEnd(body, item.subsection)])
  {
    hide Rank, SubName;
  }

  lemma FeedEmpty(p: Parser)
    ensures Close(FeedAll(p, [""])) == Close(p) && FeedAll(p, [""]).subsection == p.subsection
  {
    FeedBlanks(p, [""]);
  }

  lemma FeedHeading(p: Parser, name: string)
    requires Strip(name) == name
    ensures Close(FeedAll(p, [SUBSECTION_PREFIX + name, ""])) == Close(p).(subsection := name)
  {
    hide FeedAll, SubName;
    var heading := SUBSECTION_PREFIX + name;
    HeadingNames(name);
    assert [heading, ""] == [heading] + [""];
    FeedConcat(p, [heading], [""]);
    FeedOne(p, heading);
    FeedEmpty(Feed(p, heading));
  }

  lemma LeadParses(body: seq<Line>, item: OwnItem)
    requires NoSection(body) && Strip(item.subsection) == item.subsection
    ensures Place(body, item).0 <= |body|
    ensures var p := FeedAll(START, body[..Place(body, item).0]);
            Close(FeedAll(p, Lead(body, item))) == Close(p).(subsection := item.subsection)
  {
    hide FeedAll, Rank, SubName, Strip, Close;
    PlaceInside(body, item);
    var at := Place(body, item).0;
    var p := FeedAll(START, body[..at]);
    var heading := SUBSECTION_PREFIX + item.subsection;
    var i := FindSub(body, item.subsection, 0);
    if i < |body| {
      FirstChar(body[i]);
      InSubsection(body, i, at);
      FeedEmpty(p);
      assert Close(p).subsection == p.subsection by { CloseKeepsSubsection(p); }
    } else if FindHigher(body, Rank(item.subsection), 0) < |body| {
      FeedHeading(p, item.subsection);
    } else {
      assert ["", heading, ""] == [""] + [heading, ""];
      FeedConcat(p, [""], [heading, ""]);
      FeedEmpty(p);
      FeedHeading(FeedAll(p, [""]), item.subsection);
    }
  }

  lemma CloseKeepsSubsection(p: Parser)
    ensures Close(p).subsection == p.subsection
  {
  }

  /** From a state about to take the bullet: the bullet, blanks, then the next subsection. */
  lemma BulletThenTail(p: Parser, item: OwnItem, blanks: seq<Line>, tail: seq<Line>)
    requires ItemLines(item.lines) && AllBlank(blanks) && (tail == [] || IsSub(tail[0]))
    requires Close(p).subsection == item.subsection
    ensures var c := Close(p);
            Finish(FeedAll(p, item.lines + blanks + tail)) == Finish(FeedAll(c.(items := c.items + [item]), tail))
  {
    hide FeedAll, ItemLines, AllBlank, IsSub;
    FeedConcat(p, item.lines + blanks, tail);
    FeedConcat(p, item.lines, blanks);
    FeedItem(p, item.lines);
    var q := FeedAll(p, item.lines);
    FeedBlanks(q, blanks);
    ClosedTail(FeedAll(q, blanks), item.subsection, tail);
  }

  /** Blanks, then the next subsection, from any state. */
  lemma BlanksThenTail(p: Parser, name: string, blanks: seq<Line>, tail: seq<Line>)
    requires AllBlank(blanks) && (tail == [] || IsSub(tail[0]))
    ensures Finish(FeedAll(p, blanks + tail)) == Finish(FeedAll(Close(p).(subsection := name), tail))
  {
    hide FeedAll, AllBlank, IsSub, Close, Finish;
    FeedConcat(p, blanks, tail);
    FeedBlanks(p, blanks);
    ClosedTail(FeedAll(p, blanks), name, tail);
  }

  /** Inserting a bullet adds exactly that bullet, behind everything its subsection holds, and
      leaves every other item, their order and the prose as they were. */
  lemma InsertParses(body: seq<Line>, item: OwnItem)
    requires NoSection(body) && ItemLines(item.lines) && Strip(item.subsection) == item.subsection
    ensures var was, now := ParseBlock(body), ParseBlock(InsertItem(body, item));
            var head := ParseBlock(body[..SubEnd(body, item.subsection)]).items;
            && head <= was.items
            && now.items == head + [item] + was.items[|head|..]
            && now.prose == was.prose
  {
    hide FeedAll, Finish, ItemLines, SubEnd, Strip, Lead, Trail, Place, Close, FindSub, FindHigher;
    PlaceParts(body, item);
    LeadParses(body, item);
    var at, end := Place(body, item).0, SubEnd(body, item.subsection);
    var p := FeedAll(START, body[..at]);
    var blanks, tail := body[at..end], body[end..];
    var lead, trail := Lead(body, item), Trail(body, item);
    assert body == body[..at] + (blanks + tail);
    assert body[..end] == body[..at] + (blanks + []);
    assert InsertItem(body, item) == body[..at] + (lead + (item.lines + (trail + blanks) + tail));
    FeedConcat(START, body[..at], blanks + tail);
    FeedConcat(START, body[..at], blanks + []);
    FeedConcat(START, body[..at], lead + (item.lines + (trail + blanks) + tail));
    FeedConcat(p, lead, item.lines + (trail + blanks) + tail);
    BlanksThenTail(p, item.subsection, blanks, tail);
    BlanksThenTail(p, item.subsection, blanks, []);
    BulletThenTail(FeedAll(p, lead), item, trail + blanks, tail);
    var c := Close(p).(subsection := item.subsection);
    FinishClosed(p, item.subsection);
    SameTail(c, c.(items := c.items + [item]), item, tail);
  }

  lemma FinishClosed(p: Parser, name: string)
    ensures var c := Close(p).(subsection := name);
            c.current.None? && c.pendingBlanks == 0 && Finish(FeedAll(c, [])).items == c.items
  {
  }

  // ----- the bullet comes last in its subsection ------------------------------------------------

  /** The items of one subsection, in order. */
  ghost function Of(items: seq<OwnItem>, name: string): seq<OwnItem> {
    if items == [] then []
    else (if items[0].subsection == name then [items[0]] else []) + Of(items[1..], name)
  }

  lemma {:induction false} OfConcat(a: seq<OwnItem>, b: seq<OwnItem>, name: string)
    ensures Of(a + b, name) == Of(a, name) + Of(b, name)
  {
    if a == [] {
      assert a + b == b;
    } else {
      assert (a + b)[1..] == a[1..] + b && (a + b)[0] == a[0];
      OfConcat(a[1..], b, name);
      var h, x, y := if a[0].subsection == name then [a[0]] else [], Of(a[1..], name), Of(b, name);
      assert h + (x + y) == (h + x) + y;
    }
  }

  lemma {:induction false} OfNone(a: seq<OwnItem>, name: string)
    requires forall i :: 0 <= i < |a| ==> a[i].subsection != name
    ensures Of(a, name) == []
  {
    if a != [] {
      OfNone(a[1..], name);
    }
  }

  /** No item collected so far, nor the open one, belongs to `name`. */
  ghost predicate Avoids(p: Parser, name: string) {
    p.subsection != name && forall i :: 0 <= i < |p.items| ==> p.items[i].subsection != name
  }

  lemma {:induction false} AvoidsKept(p: Parser, lines: seq<Line>, name: string)
    requires Avoids(p, name) && NoSection(lines)
    requires forall i :: 0 <= i < |lines| && IsSub(lines[i]) ==> SubName(lines[i]) != name
    ensures Avoids(FeedAll(p, lines), name)
    decreases |lines|
  {
    hide SubName;
    if lines != [] {
      AvoidsKept(Feed(p, lines[0]), lines[1..], name);
    }
  }

  /** No two subsections of the body have the same name. */
  ghost predicate UniqueSubs(body: seq<Line>) {
    forall i, j :: 0 <= i < j < |body| && IsSub(body[i]) && IsSub(body[j]) ==> SubName(body[i]) != SubName(body[j])
  }

  lemma LaterSubs(body: seq<Line>, name: string)
    requires UniqueSubs(body)
    ensures forall k :: SubEnd(body, name) <= k < |body| && IsSub(body[k]) ==> SubName(body[k]) != name
  {
    hide SubName, Rank;
    var i := FindSub(body, name, 0);
    if i < |body| {
      assert IsSub(body[i]) && SubName(body[i]) == name;
    }
  }

  /** What follows the end of the subsection holds no item of it. */
  lemma RestAvoids(body: seq<Line>, name: string)
    requires NoSection(body) && UniqueSubs(body)
    ensures var head, all := ParseBlock(body[..SubEnd(body, name)]).items, ParseBlock(body).items;
            head <= all && Of(all[|head|..], name) == []
  {
    hide FeedAll, SubName, SubEnd, UniqueSubs, Of;
    var e := SubEnd(body, name);
    SubEndIsSub(body, name);
    LaterSubs(body, name);
    var tail := body[e..];
    var p := FeedAll(START, body[..e]);
    assert body == body[..e] + tail;
    FeedConcat(START, body[..e], tail);
    var other := name + "x";
    ClosedTail(p, other, tail);
    var c := Close(p).(subsection := other);
    var z := c.(items := [], prose := []);
    assert c == Behind(z, c.items, c.prose) by {
      assert c.items + [] == c.items && c.prose + [] == c.prose;
    }
    FeedAllBehind(z, tail, c.items, c.prose);
    AvoidsKept(z, tail, name);
    var r := FeedAll(z, tail);
    CloseBehind(r, c.items, c.prose);
    var all := ParseBlock(body).items;
    assert all == c.items + Close(r).items;
    assert all[|c.items|..] == Close(r).items;
    OfNone(Close(r).items, name);
  }

  lemma SubEndIsSub(body: seq<Line>, name: string)
    ensures SubEnd(body, name) < |body| ==> IsSub(body[SubEnd(body, name)])
  {
    hide SubName, Rank;
  }

  /** Every other subsection keeps its items in order; the new bullet's own keeps them around the bullet,
      and has it last where no two subsections share a name. */
  lemma InsertAppends(body: seq<Line>, item: OwnItem, name: string)
    requires NoSection(body) && ItemLines(item.lines) && Strip(item.subsection) == item.subsection
    ensures var was, now := ParseBlock(body).items, ParseBlock(InsertItem(body, item)).items;
            var head := ParseBlock(body[..SubEnd(body, item.subsection)]).items;
            && head <= was && Of(was, name) == Of(head, name) + Of(was[|head|..], name)
            && (name == item.subsection ==> Of(now, name) == Of(head, name) + [item] + Of(was[|head|..], name))
            && (name != item.subsection ==> Of(now, name) == Of(was, name))
            && (name == item.subsection && UniqueSubs(body) ==> Of(now, name) == Of(was, name) + [item])
  {
    hide ParseBlock, InsertItem, Of, UniqueSubs, NoSection, ItemLines, Strip, SubEnd;
    InsertParses(body, item);
    if UniqueSubs(body) {
      RestAvoids(body, item.subsection);
    }
    var was := ParseBlock(body).items;
    var head := ParseBlock(body[..SubEnd(body, item.subsection)]).items;
    var rest := was[|head|..];
    assert was == head + rest;
    OfConcat(head, rest, name);
    OfConcat(head + [item], rest, name);
    OfConcat(head, [item], name);
    OfOne(item, name);
    assert Of(head, name) + [] == Of(head, name);
  }

  lemma OfOne(item: OwnItem, name: string)
    ensures Of([item], name) == if name == item.subsection then [item] else []
  {
    assert [item][1..] == [];
  }

  // ----- what insertion keeps ---------------------------------------------------------------------

  lemma ItemHasNoHeading(lines: seq<Line>)
    requires ItemLines(lines)
    ensures forall i :: 0 <= i < |lines| ==> !IsSection(lines[i]) && !IsSub(lines[i])
  {
    forall i | 0 <= i < |lines| ensures !IsSection(lines[i]) && !IsSub(lines[i]) {
      FirstChar(lines[i]);
    }
  }

  lemma HeadingIsNoSection(name: string)
    ensures !IsSection(SUBSECTION_PREFIX + name)
  {
    assert (SUBSECTION_PREFIX + name)[2] == '#';
  }

  lemma PlacedLines(body: seq<Line>, item: OwnItem)
    requires Parsed(item)
    ensures forall k :: 0 <= k < |Place(body, item).1| ==>
              !IsSection(Place(body, item).1[k]) && NoBreaks(Place(body, item).1[k])
  {
    hide Place, FindSub, FindHigher, Rank, Strip, ItemLines;
    PlaceParts(body, item);
    ItemHasNoHeading(item.lines);
    HeadingIsNoSection(item.subsection);
    assert NoBreaks(SUBSECTION_PREFIX + item.subsection);
    assert !IsSection("");
  }

  lemma InsertKeepsShape(body: seq<Line>, item: OwnItem)
    requires NoSection(body) && CleanLines(body) && Parsed(item)
    ensures NoSection(InsertItem(body, item)) && CleanLines(InsertItem(body, item))
  {
    hide Place, Parsed, IsSection, NoBreaks;
    PlacedLines(body, item);
    PlaceInside(body, item);
  }

  /** The raw subsection headings of a body. */
  function SubLines(body: seq<Line>): seq<Line> {
    if body == [] then [] else (if IsSub(body[0]) then [body[0]] else []) + SubLines(body[1..])
  }

  /** The raw heading lines, in order. */
  lemma {:induction false} SubLinesKeep(body: seq<Line>)
    ensures SubLines(body) == Keep(body, iset line | IsSub(line))
    decreases |body|
  {
    hide IsSub;
    if body != [] {
      SubLinesKeep(body[1..]);
    }
  }

  lemma {:induction false} SubLinesConcat(a: seq<Line>, b: seq<Line>)
    ensures SubLines(a + b) == SubLines(a) + SubLines(b)
  {
    hide IsSub;
    if a == [] {
      assert a + b == b;
    } else {
      assert (a + b)[1..] == a[1..] + b && (a + b)[0] == a[0];
      SubLinesConcat(a[1..], b);
      var h, x, y := if IsSub(a[0]) then [a[0]] else [], SubLines(a[1..]), SubLines(b);
      assert h + (x + y) == (h + x) + y;
    }
  }

  lemma {:induction false} NoSubLines(a: seq<Line>)
    requires forall i :: 0 <= i < |a| ==> !IsSub(a[i])
    ensures SubLines(a) == []
  {
    if a != [] {
      NoSubLines(a[1..]);
    }
  }

  lemma {:induction false} SubLinesAre(body: seq<Line>, h: Line)
    requires h in SubLines(body)
    ensures IsSub(h) && h in body
  {
    if h in SubLines(body[1..]) {
      SubLinesAre(body[1..], h);
    }
  }

  /** The raw headings after an insertion: the old ones, and the created one if it was missing. */
  lemma InsertSubLines(body: seq<Line>, item: OwnItem)
    requires Parsed(item)
    ensures Distinct(SubLines(InsertItem(body, item))) <==> Distinct(SubLines(body))
  {
    hide Place, FindSub, FindHigher, SubLines, Strip, ItemLines, IsSub, SubName, Rank;
    PlaceParts(body, item);
    PlaceInside(body, item);
    ItemHasNoHeading(item.lines);
    var at := Place(body, item).0;
    var x, y := SubLines(body[..at]), SubLines(body[at..]);
    var lead, trail := Lead(body, item), Trail(body, item);
    assert body == body[..at] + body[at..];
    SubLinesConcat(body[..at], body[at..]);
    SubLinesConcat(body[..at] + Place(body, item).1, body[at..]);
    SubLinesConcat(body[..at], Place(body, item).1);
    SubLinesConcat(lead + item.lines, trail);
    SubLinesConcat(lead, item.lines);
    NoSubLines(item.lines);
    TrailSubLines(body, item);
    LeadSubLines(body, item);
    var mid := SubLines(lead);
    assert SubLines(Place(body, item).1) == mid by {
      assert mid + [] + [] == mid;
    }
    assert SubLines(InsertItem(body, item)) == x + mid + y;
    if mid != [] {
      DistinctMiddle(x, mid[0], y);
    } else {
      assert x + mid + y == x + y;
    }
  }

  lemma TrailSubLines(body: seq<Line>, item: OwnItem)
    ensures SubLines(Trail(body, item)) == []
  {
    hide FindSub, FindHigher, Rank;
    NoSubLines(Trail(body, item));
  }

  lemma LeadSubLines(body: seq<Line>, item: OwnItem)
    requires Strip(item.subsection) == item.subsection
    ensures |SubLines(Lead(body, item))| <= 1
    ensures forall h :: h in SubLines(Lead(body, item)) ==> h !in SubLines(body)
    ensures SubLines(Lead(body, item)) != [] ==> SubLines(Lead(body, item)) == [SUBSECTION_PREFIX + item.subsection]
  {
    hide FindHigher, Rank, SubLines, Strip, SubName;
    var heading := SUBSECTION_PREFIX + item.subsection;
    HeadingNames(item.subsection);
    BlankSubLines(heading);
    if FindSub(body, item.subsection, 0) == |body| && heading in SubLines(body) {
      SubLinesAre(body, heading);
    }
  }

  lemma BlankSubLines(heading: Line)
    requires IsSub(heading)
    ensures SubLines([""]) == [] && SubLines([heading, ""]) == [heading] && SubLines(["", heading, ""]) == [heading]
  {
    NoSubLines([""]);
    assert [heading, ""][1..] == [""];
    assert ["", heading, ""][1..] == [heading, ""];
    assert !IsSub("");
  }

  lemma DistinctMiddle<T>(x: seq<T>, h: T, y: seq<T>)
    requires h !in x + y
    ensures Distinct(x + [h] + y) <==> Distinct(x + y)
  {
    var with, without := x + [h] + y, x + y;
    if Distinct(with) {
      forall i, j | 0 <= i < j < |without| ensures without[i] != without[j] {
        var i', j' := if i < |x| then i else i + 1, if j < |x| then j else j + 1;
        assert with[i'] == without[i] && with[j'] == without[j];
      }
    }
    if Distinct(without) {
      forall i, j | 0 <= i < j < |with| ensures with[i] != with[j] {
        if i != |x| && j != |x| {
          var i', j' := if i < |x| then i else i - 1, if j < |x| then j else j - 1;
          assert with[i] == without[i'] && with[j] == without[j'];
        } else if i == |x| {
          assert with[j] == without[j - 1] && without[j - 1] in without;
        } else {
          assert with[i] == without[i] && without[i] in without;
        }
      }
    }
  }

  /** At most one spliced line is a heading, and then no heading of the body has its name. */
  lemma PlacedSubs(body: seq<Line>, item: OwnItem)
    requires Parsed(item)
    ensures var ins := Place(body, item).1;
            && (forall i, j :: 0 <= i < j < |ins| ==> !(IsSub(ins[i]) && IsSub(ins[j])))
            && (forall i, k :: 0 <= i < |ins| && IsSub(ins[i]) && 0 <= k < |body| && IsSub(body[k]) ==>
                  SubName(ins[i]) != SubName(body[k]))
  {
    hide FindHigher, Rank, Strip, SubName, ItemLines;
    ItemHasNoHeading(item.lines);
    HeadingNames(item.subsection);
    assert !IsSub("");
  }

  lemma InsertKeepsUnique(body: seq<Line>, item: OwnItem)
    requires Parsed(item) && UniqueSubs(body)
    ensures UniqueSubs(InsertItem(body, item))
  {
    hide Place, Parsed, IsSub, SubName;
    PlacedSubs(body, item);
    PlaceInside(body, item);
    var at, ins := Place(body, item).0, Place(body, item).1;
    SpliceUnique(body, at, ins);
  }

  lemma SpliceUnique(body: seq<Line>, at: nat, ins: seq<Line>)
    requires at <= |body| && UniqueSubs(body)
    requires forall i, j :: 0 <= i < j < |ins| ==> !(IsSub(ins[i]) && IsSub(ins[j]))
    requires forall i, k :: 0 <= i < |ins| && IsSub(ins[i]) && 0 <= k < |body| && IsSub(body[k]) ==>
               SubName(ins[i]) != SubName(body[k])
    ensures UniqueSubs(body[..at] + ins + body[at..])
  {
    hide IsSub, SubName;
    var all := body[..at] + ins + body[at..];
    forall i, j | 0 <= i < j < |all| && IsSub(all[i]) && IsSub(all[j]) ensures SubName(all[i]) != SubName(all[j]) {
      SpliceAt(body, at, ins, i);
      SpliceAt(body, at, ins, j);
    }
  }

  lemma SpliceAt(body: seq<Line>, at: nat, ins: seq<Line>, i: nat)
    requires at <= |body| && i < |body| + |ins|
    ensures (body[..at] + ins + body[at..])[i] ==
            if i < at then body[i] else if i < at + |ins| then ins[i - at] else body[i - |ins|]
  {
  }

  // ----- inserting all of a branch's bullets -------------------------------------------------------

  function InsertAll(body: seq<Line>, items: seq<OwnItem>): seq<Line>
    decreases |items|
  {
    if items == [] then body else InsertAll(InsertItem(body, items[0]), items[1..])
  }

  ghost predicate AllParsed(items: seq<OwnItem>) {
    forall i :: 0 <= i < |items| ==> Parsed(items[i])
  }

  /** The identity keys of items. */
  function Norms(items: seq<OwnItem>): seq<seq<string>> {
    seq(|items|, i requires 0 <= i < |items| => items[i].Normalized())
  }

  /** One insertion adds one key. */
  lemma InsertNorms(body: seq<Line>, item: OwnItem)
    requires NoSection(body) && Parsed(item)
    ensures multiset(Norms(ParseBlock(InsertItem(body, item)).items))
         == multiset(Norms(ParseBlock(body).items)) + multiset{item.Normalized()}
  {
    hide ParseBlock, InsertItem, SubEnd, ItemLines, Strip, Norms, WordsOf;
    InsertParses(body, item);
    var all := ParseBlock(body).items;
    var head := ParseBlock(body[..SubEnd(body, item.subsection)]).items;
    var rest := all[|head|..];
    assert all == head + rest;
    NormsConcat(head, rest);
    NormsConcat(head + [item], rest);
    NormsConcat(head, [item]);
    NormsOne(item);
  }

  lemma NormsConcat(a: seq<OwnItem>, b: seq<OwnItem>)
    ensures Norms(a + b) == Norms(a) + Norms(b)
  {
    hide WordsOf;
  }

  lemma NormsOne(item: OwnItem)
    ensures Norms([item]) == [item.Normalized()]
  {
    hide WordsOf;
  }

  lemma {:induction false} InsertAllNorms(body: seq<Line>, items: seq<OwnItem>)
    requires NoSection(body) && CleanLines(body) && AllParsed(items)
    ensures var now := InsertAll(body, items);
            && NoSection(now) && CleanLines(now)
            && multiset(Norms(ParseBlock(now).items))
               == multiset(Norms(ParseBlock(body).items)) + multiset(Norms(items))
            && (Distinct(SubLines(now)) <==> Distinct(SubLines(body)))
    decreases |items|
  {
    hide ParseBlock, InsertItem, Parsed, Norms, SubLines, NoSection, CleanLines, Distinct;
    if items == [] {
      assert Norms(items) == [] by { NormsEmpty(); }
    } else {
      InsertNorms(body, items[0]);
      InsertKeepsShape(body, items[0]);
      InsertSubLines(body, items[0]);
      InsertAllNorms(InsertItem(body, items[0]), items[1..]);
      assert items == [items[0]] + items[1..];
      NormsConcat([items[0]], items[1..]);
      NormsOne(items[0]);
    }
  }

  lemma NormsEmpty()
    ensures Norms([]) == []
  {
  }

  /** Every subsection of the result holds what it held, then the branch's bullets for it, in order. */
  lemma {:induction false} InsertAllAppends(body: seq<Line>, items: seq<OwnItem>, name: string)
    requires NoSection(body) && CleanLines(body) && UniqueSubs(body) && AllParsed(items)
    ensures Of(ParseBlock(InsertAll(body, items)).items, name) == Of(ParseBlock(body).items, name) + Of(items, name)
    decreases |items|
  {
    hide ParseBlock, InsertItem, ItemLines, CleanLines, NoSection, UniqueSubs, Strip, NoBreaks;
    if items != [] {
      InsertAppends(body, items[0], name);
      InsertKeepsShape(body, items[0]);
      InsertKeepsUnique(body, items[0]);
      InsertAllAppends(InsertItem(body, items[0]), items[1..], name);
    }
  }

  /** The prose between bullets is untouched. */
  lemma {:induction false} InsertAllProse(body: seq<Line>, items: seq<OwnItem>)
    requires NoSection(body) && CleanLines(body) && AllParsed(items)
    ensures ParseBlock(InsertAll(body, items)).prose == ParseBlock(body).prose
    decreases |items|
  {
    hide ParseBlock, InsertItem, ItemLines, CleanLines, NoSection, Strip, NoBreaks, SubEnd;
    if items != [] {
      InsertParses(body, items[0]);
      InsertKeepsShape(body, items[0]);
      InsertAllProse(InsertItem(body, items[0]), items[1..]);
    }
  }

  // ----- additivity --------------------------------------------------------------------------------

  /** `a` is `b` with some elements left out. */
  ghost predicate Thinned<T(!new)>(a: seq<T>, b: seq<T>) {
    if b == [] then a == []
    else Thinned(a, b[1..]) || (a != [] && a[0] == b[0] && Thinned(a[1..], b[1..]))
  }

  /** `_is_subsequence`: each needle takes the first match in what is left of the haystack. */
  function Greedy<T(==)>(needle: seq<T>, haystack: seq<T>): bool
    decreases |haystack|
  {
    if needle == [] then true
    else if haystack == [] then false
    else if needle[0] == haystack[0] then Greedy(needle[1..], haystack[1..])
    else Greedy(needle, haystack[1..])
  }

  lemma {:induction false} ThinnedEmpty<T(!new)>(b: seq<T>)
    ensures Thinned([], b)
  {
    if b != [] {
      ThinnedEmpty(b[1..]);
    }
  }

  lemma {:induction false} ThinnedTail<T(!new)>(a: seq<T>, b: seq<T>)
    requires a != [] && Thinned(a, b)
    ensures Thinned(a[1..], b)
  {
    if Thinned(a, b[1..]) {
      ThinnedTail(a, b[1..]);
    }
  }

  /** Taking the first match never misses: the greedy scan decides thinning. */
  lemma {:induction false} GreedyDecides<T(!new)>(needle: seq<T>, haystack: seq<T>)
    ensures Greedy(needle, haystack) <==> Thinned(needle, haystack)
    decreases |haystack|
  {
    if needle == [] {
      ThinnedEmpty(haystack);
    } else if haystack != [] {
      if needle[0] == haystack[0] {
        GreedyDecides(needle[1..], haystack[1..]);
        if Thinned(needle, haystack[1..]) {
          ThinnedTail(needle, haystack[1..]);
        }
      } else {
        GreedyDecides(needle, haystack[1..]);
      }
    }
  }

  lemma {:induction false} ThinnedTrans<T(!new)>(a: seq<T>, b: seq<T>, c: seq<T>)
    requires Thinned(a, b) && Thinned(b, c)
    ensures Thinned(a, c)
    decreases |c|
  {
    if c != [] {
      if Thinned(b, c[1..]) {
        ThinnedTrans(a, b, c[1..]);
      } else if Thinned(a, b[1..]) {
        ThinnedTrans(a, b[1..], c[1..]);
      } else {
        ThinnedTrans(a[1..], b[1..], c[1..]);
      }
    }
  }

  lemma {:induction false} ThinnedFront<T(!new)>(x: seq<T>, a: seq<T>, b: seq<T>)
    requires Thinned(a, b)
    ensures Thinned(x + a, x + b)
    decreases |x|
  {
    if x == [] {
      assert x + a == a && x + b == b;
    } else {
      assert (x + a)[1..] == x[1..] + a && (x + b)[1..] == x[1..] + b;
      ThinnedFront(x[1..], a, b);
    }
  }

  lemma {:induction false} ThinnedSkip<T(!new)>(z: seq<T>, a: seq<T>, b: seq<T>)
    requires Thinned(a, b)
    ensures Thinned(a, z + b)
    decreases |z|
  {
    if z == [] {
      assert z + b == b;
    } else {
      assert (z + b)[1..] == z[1..] + b;
      ThinnedSkip(z[1..], a, b);
    }
  }

  lemma {:induction false} ThinnedSelf<T(!new)>(a: seq<T>)
    ensures Thinned(a, a)
  {
    if a != [] {
      ThinnedSelf(a[1..]);
    }
  }

  /** Splicing something in leaves the old sequence as a thinning of the new one. */
  lemma ThinnedSplice<T(!new)>(x: seq<T>, ins: seq<T>, y: seq<T>)
    ensures Thinned(x + y, x + ins + y)
  {
    hide Thinned;
    ThinnedSelf(y);
    ThinnedSkip(ins, y, y);
    ThinnedFront(x, y, ins + y);
    assert x + ins + y == x + (ins + y);
  }

  lemma {:induction false} InsertAllThins(body: seq<Line>, items: seq<OwnItem>)
    ensures Thinned(body, InsertAll(body, items))
    decreases |items|
  {
    hide Thinned, Place;
    if items == [] {
      ThinnedSelf(body);
    } else {
      var item := items[0];
      PlaceInside(body, item);
      var at := Place(body, item).0;
      ThinnedSplice(body[..at], Place(body, item).1, body[at..]);
      assert body[..at] + body[at..] == body;
      InsertAllThins(InsertItem(body, item), items[1..]);
      ThinnedTrans(body, InsertItem(body, item), InsertAll(body, items));
    }
  }

  /** The non-blank lines. */
  function Text(lines: seq<Line>): seq<Line> {
    if lines == [] then [] else (if Blank(lines[0]) then [] else [lines[0]]) + Text(lines[1..])
  }

  lemma {:induction false} ThinnedText(a: seq<Line>, b: seq<Line>)
    requires Thinned(a, b)
    ensures Thinned(Text(a), Text(b))
    decreases |b|
  {
    hide Blank;
    if b != [] {
      if Thinned(a, b[1..]) {
        ThinnedText(a, b[1..]);
        ThinnedSkip(if Blank(b[0]) then [] else [b[0]], Text(a), Text(b[1..]));
      } else {
        ThinnedText(a[1..], b[1..]);
        ThinnedFront(if Blank(b[0]) then [] else [b[0]], Text(a[1..]), Text(b[1..]));
      }
    }
  }

  /** `_is_subsequence` with its iterator. */
  method IsSubsequence(needle: seq<Line>, haystack: seq<Line>) returns (ok: bool)
    ensures ok <==> Thinned(needle, haystack)
  {
    hide Thinned;
    GreedyDecides(needle, haystack);
    var i, j := 0, 0;
    assert needle[0..] == needle && haystack[0..] == haystack;
    while i < |needle| && j < |haystack|
      invariant i <= |needle| && j <= |haystack|
      invariant Greedy(needle, haystack) == Greedy(needle[i..], haystack[j..])
    {
      assert needle[i..][1..] == needle[i + 1..] && haystack[j..][1..] == haystack[j + 1..];
      if needle[i] == haystack[j] {
        i := i + 1;
      }
      j := j + 1;
    }
    ok := i == |needle|;
  }
}
