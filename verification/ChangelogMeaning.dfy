/** What the bullet parser of `changelog_rebuild.py` finds, by the positions of the lines. */
module ChangelogMeaning {
  import opened Common
  import opened ChangelogParse
  import opened ChangelogText

  // ----- blocks ----------------------------------------------------------------------------------

  predicate IsHeading(line: Line) {
    IsSub(line) || IsSection(line)
  }

  /** A line that can stand under a bullet: blank, or indented text. */
  predicate Carries(line: Line) {
    Blank(line) || Continuation(line)
  }

  /** Only such lines stand between the bullet at `j` and line `n`. */
  ghost predicate OpenTo(lines: seq<Line>, j: int, n: int) {
    0 <= j < n <= |lines| && IsBullet(lines[j]) && forall k :: j < k < n ==> Carries(lines[k])
  }

  /** The last heading above line `n`, else -1. */
  function HeadingAbove(lines: seq<Line>, n: nat): (h: int)
    requires n <= |lines|
    ensures -1 <= h < n && (h >= 0 ==> IsHeading(lines[h]))
    ensures forall k :: h < k < n ==> !IsHeading(lines[k])
  {
    if n == 0 then -1 else if IsHeading(lines[n - 1]) then n - 1 else HeadingAbove(lines, n - 1)
  }

  /** The subsection of line `n`; a `## ` line ends every subsection. */
  function NameAt(lines: seq<Line>, n: nat): string
    requires n <= |lines|
  {
    var h := HeadingAbove(lines, n);
    if h >= 0 && IsSub(lines[h]) then SubName(lines[h]) else ""
  }

  /** The lines from `j` up to `e`, blank ones emptied. */
  ghost function TextOf(lines: seq<Line>, j: nat, e: nat): seq<Line>
    requires j <= e <= |lines|
  {
    seq(e - j, k requires 0 <= k < e - j => if Blank(lines[j + k]) then "" else lines[j + k])
  }

  /** The text of the bullet at `j` ends at `e`: with its last line that is not blank. */
  ghost predicate EndsAt(lines: seq<Line>, j: int, e: int, n: int) {
    OpenTo(lines, j, e) && e <= n <= |lines| && !Blank(lines[e - 1]) && forall k :: e <= k < n ==> Blank(lines[k])
  }

  /** The bullet at line `j` is the item: its subsection, and its lines up to the last that is not blank
      before a line that does not belong to it. */
  ghost predicate ItemAt(lines: seq<Line>, j: int, item: OwnItem) {
    && 0 <= j < |lines| && item.subsection == NameAt(lines, j)
    && exists e, n ::
         && EndsAt(lines, j, e, n) && OpenTo(lines, j, n) && (n == |lines| || !Carries(lines[n]))
         && item.lines == TextOf(lines, j, e)
  }

  /** Line `i` is prose: text that is no heading and no bullet and belongs to none. */
  ghost predicate ProseAt(lines: seq<Line>, i: int) {
    && 0 <= i < |lines| && !IsHeading(lines[i]) && !IsBullet(lines[i]) && !Blank(lines[i])
    && !(IsSpace(lines[i][0]) && exists j :: OpenTo(lines, j, i))
  }

  /** What the parser knows after `n` lines: `at` are the bullets so far, `text` the prose lines. */
  ghost predicate Reads(lines: seq<Line>, n: nat, p: Parser, at: seq<int>, text: seq<int>) {
    && n <= |lines| && p.subsection == NameAt(lines, n)
    && ReadsBullets(lines, n, at)
    && |at| == |p.items| + (if p.current.Some? then 1 else 0)
    && (forall k :: 0 <= k < |p.items| ==> ItemAt(lines, at[k], p.items[k]))
    && ReadsOpen(lines, n, p, at)
    && ReadsProse(lines, n, p, text)
  }

  ghost predicate ReadsBullets(lines: seq<Line>, n: nat, at: seq<int>)
    requires n <= |lines|
  {
    && Rising(at) && (forall k :: 0 <= k < |at| ==> 0 <= at[k] < n && IsBullet(lines[at[k]]))
    && (forall i :: 0 <= i < n && IsBullet(lines[i]) ==> i in at)
  }

  ghost predicate NoneOpen(lines: seq<Line>, n: nat) {
    forall j :: !OpenTo(lines, j, n)
  }

  ghost predicate ReadsOpen(lines: seq<Line>, n: nat, p: Parser, at: seq<int>)
    requires n <= |lines|
  {
    if p.current.None? then p.pendingBlanks == 0 && NoneOpen(lines, n)
    else
      && |at| > 0
      && var j, e := at[|at| - 1], n - p.pendingBlanks;
      && OpenTo(lines, j, n) && EndsAt(lines, j, e, n) && p.subsection == NameAt(lines, j)
      && p.current.value == TextOf(lines, j, e)
  }

  ghost predicate ReadsProse(lines: seq<Line>, n: nat, p: Parser, text: seq<int>)
    requires n <= |lines|
  {
    && Rising(text) && |text| == |p.prose|
    && (forall k :: 0 <= k < |text| ==>
          0 <= text[k] < n && ProseAt(lines, text[k]) && p.prose[k] == Strip(lines[text[k]]))
    && (forall i :: 0 <= i < n && ProseAt(lines, i) ==> i in text)
  }

  // ----- one line more -----------------------------------------------------------------------------

  lemma NoHeadingBetween(lines: seq<Line>, j: nat, n: nat)
    requires j <= n <= |lines| && forall k :: j <= k < n ==> !IsHeading(lines[k])
    ensures NameAt(lines, n) == NameAt(lines, j)
  {
    hide SubName, HeadingAbove, IsHeading;
    var h, g := HeadingAbove(lines, j), HeadingAbove(lines, n);
    assert g == h;
  }

  lemma CarriesNoHeading(line: Line)
    ensures Carries(line) ==> !IsHeading(line) && !IsBullet(line)
    ensures IsBullet(line) ==> !IsHeading(line) && !Blank(line) && !Carries(line)
    ensures IsHeading(line) ==> !IsBullet(line) && !Blank(line) && !Carries(line)
  {
    FirstChar(line);
  }

  /** A bullet stays open over a line exactly when the line can stand under it. */
  lemma OpenNext(lines: seq<Line>, n: nat)
    requires n < |lines|
    ensures forall j :: OpenTo(lines, j, n + 1) <==> OpensAt(lines, j, n)
  {
    hide IsBullet, Carries;
    forall j ensures OpenTo(lines, j, n + 1) <==> OpensAt(lines, j, n) {
      if OpensAt(lines, j, n) && j < n {
        assert forall k :: j < k < n + 1 ==> Carries(lines[k]);
      }
      if OpenTo(lines, j, n + 1) && j < n {
        assert Carries(lines[n]);
      }
    }
  }

  lemma NoneAfter(lines: seq<Line>, n: nat)
    requires n < |lines| && !IsBullet(lines[n]) && (!Carries(lines[n]) || NoneOpen(lines, n))
    ensures NoneOpen(lines, n + 1)
  {
    hide OpenTo, IsBullet, Carries;
    OpenNext(lines, n);
    var m := n + 1;
    forall j ensures !OpenTo(lines, j, m) {
      assert !OpensAt(lines, j, n);
    }
  }

  ghost predicate OpensAt(lines: seq<Line>, j: int, n: nat)
    requires n < |lines|
  {
    (j == n && IsBullet(lines[n])) || (OpenTo(lines, j, n) && Carries(lines[n]))
  }

  /** Closing the open bullet in front of a line that is not its own, or at the end. */
  lemma CloseReads(lines: seq<Line>, n: nat, p: Parser, at: seq<int>, text: seq<int>)
    requires Reads(lines, n, p, at, text) && (n == |lines| || !Carries(lines[n]))
    ensures var q := Close(p);
            && |at| == |q.items| && (forall k :: 0 <= k < |q.items| ==> ItemAt(lines, at[k], q.items[k]))
            && q.prose == p.prose && q.subsection == p.subsection
  {
    hide ReadsBullets, ReadsProse, NameAt, TextOf, EndsAt, OpenTo, Carries;
    if p.current.Some? {
      var j, e := at[|at| - 1], n - p.pendingBlanks;
      assert EndsAt(lines, j, e, n) && OpenTo(lines, j, n);
      assert 0 <= j < |lines| by { OpenInside(lines, j, n); }
      assert ItemAt(lines, j, OwnItem(p.subsection, p.current.value));
    }
  }

  lemma OpenInside(lines: seq<Line>, j: int, n: int)
    requires OpenTo(lines, j, n)
    ensures 0 <= j < n <= |lines|
  {
  }

  /** A line that is not prose adds none. */
  lemma SameProse(lines: seq<Line>, n: nat, p: Parser, q: Parser, text: seq<int>)
    requires n < |lines| && ReadsProse(lines, n, p, text) && !ProseAt(lines, n) && q.prose == p.prose
    ensures ReadsProse(lines, n + 1, q, text)
  {
    hide ProseAt, Strip;
  }

  lemma SameBullets(lines: seq<Line>, n: nat, at: seq<int>)
    requires n < |lines| && ReadsBullets(lines, n, at)
    ensures ReadsBullets(lines, n + 1, if IsBullet(lines[n]) then at + [n] else at)
  {
    hide IsBullet, Rising;
    var more := at + [n];
    RisingSnoc(at, n);
    assert more[|at|] == n;
    forall i | 0 <= i < n && IsBullet(lines[i]) ensures i in more {
      assert i in at;
    }
  }

  lemma HeadingLine(lines: seq<Line>, n: nat, p: Parser, at: seq<int>, text: seq<int>)
    requires n < |lines| && Reads(lines, n, p, at, text) && IsHeading(lines[n])
    ensures Reads(lines, n + 1, Feed(p, lines[n]), at, text)
  {
    hide ReadsBullets, ReadsProse, ItemAt, OpenTo, SubName, Carries, IsBullet, EndsAt, TextOf, IsHeading, NameAt, Feed;
    CarriesNoHeading(lines[n]);
    CloseReads(lines, n, p, at, text);
    SameBullets(lines, n, at);
    NoneAfter(lines, n);
    assert !ProseAt(lines, n) by { NotProse(lines, n); }
    FeedHeadingLine(lines, n, p);
    SameProse(lines, n, p, Feed(p, lines[n]), text);
  }

  lemma FeedHeadingLine(lines: seq<Line>, n: nat, p: Parser)
    requires n < |lines| && IsHeading(lines[n])
    ensures Feed(p, lines[n]) == Close(p).(subsection := NameAt(lines, n + 1))
  {
    hide SubName;
    CarriesNoHeading(lines[n]);
    assert HeadingAbove(lines, n + 1) == n;
  }

  lemma BulletLineReads(lines: seq<Line>, n: nat, p: Parser, at: seq<int>, text: seq<int>)
    requires n < |lines| && Reads(lines, n, p, at, text) && IsBullet(lines[n])
    ensures Reads(lines, n + 1, Feed(p, lines[n]), at + [n], text)
  {
    hide ReadsBullets, ReadsProse, ItemAt, OpenTo, SubName, Carries, IsBullet, EndsAt, TextOf, NameAt, IsHeading;
    CarriesNoHeading(lines[n]);
    CloseReads(lines, n, p, at, text);
    SameBullets(lines, n, at);
    NewBullet(lines, n);
    assert !ProseAt(lines, n) by { NotProse(lines, n); }
    assert Feed(p, lines[n]) == Close(p).(current := Some([lines[n]])) by { FeedBullet(p, lines[n]); }
    SameProse(lines, n, p, Feed(p, lines[n]), text);
  }

  lemma FeedBullet(p: Parser, line: Line)
    requires IsBullet(line)
    ensures Feed(p, line) == Close(p).(current := Some([line]))
  {
    CarriesNoHeading(line);
  }

  lemma NotProse(lines: seq<Line>, n: nat)
    requires n < |lines| && (IsBullet(lines[n]) || IsHeading(lines[n]) || Blank(lines[n]))
    ensures !ProseAt(lines, n)
  {
  }

  lemma NewBullet(lines: seq<Line>, n: nat)
    requires n < |lines| && IsBullet(lines[n])
    ensures OpenTo(lines, n, n + 1) && EndsAt(lines, n, n + 1, n + 1) && TextOf(lines, n, n + 1) == [lines[n]]
    ensures NameAt(lines, n + 1) == NameAt(lines, n)
  {
    hide NameAt;
    CarriesNoHeading(lines[n]);
    NoHeadingBetween(lines, n, n + 1);
  }

  /** A line that stays under the open bullet, or blank text under none. */
  lemma CarriedLine(lines: seq<Line>, n: nat, p: Parser, at: seq<int>, text: seq<int>)
    requires n < |lines| && Reads(lines, n, p, at, text) && Carries(lines[n]) && (p.current.Some? || Blank(lines[n]))
    ensures Reads(lines, n + 1, Feed(p, lines[n]), at, text)
  {
    hide ReadsBullets, ReadsProse, ItemAt, OpenTo, SubName, Carries, IsBullet, EndsAt, TextOf, NameAt, IsHeading,
         ReadsOpen, Blank, Feed;
    CarriesNoHeading(lines[n]);
    SameBullets(lines, n, at);
    NoHeadingBetween(lines, n, n + 1);
    CarriedOpen(lines, n, p, at);
    assert !ProseAt(lines, n) by { NotProseUnder(lines, n, p, at); }
    FeedCarried(p, lines[n]);
    SameProse(lines, n, p, Feed(p, lines[n]), text);
  }

  lemma FeedCarried(p: Parser, line: Line)
    requires Carries(line) && (p.current.Some? || Blank(line))
    ensures var q := Feed(p, line);
            && q.items == p.items && q.prose == p.prose && q.subsection == p.subsection
            && q.current.Some? == p.current.Some?
            && (p.current.None? ==> q == p)
            && (p.current.Some? && Blank(line) ==> q == p.(pendingBlanks := p.pendingBlanks + 1))
            && (p.current.Some? && !Blank(line) ==>
                  q == p.(current := Some(p.current.value + Empties(p.pendingBlanks) + [line]), pendingBlanks := 0))
  {
    CarriesNoHeading(line);
  }

  lemma NotProseUnder(lines: seq<Line>, n: nat, p: Parser, at: seq<int>)
    requires n < |lines| && ReadsOpen(lines, n, p, at) && Carries(lines[n]) && (p.current.Some? || Blank(lines[n]))
    ensures !ProseAt(lines, n)
  {
    hide OpenTo, EndsAt, TextOf, NameAt;
    if p.current.Some? {
      assert OpenTo(lines, at[|at| - 1], n);
    }
  }

  lemma CarriedOpen(lines: seq<Line>, n: nat, p: Parser, at: seq<int>)
    requires n < |lines| && ReadsOpen(lines, n, p, at) && Carries(lines[n]) && (p.current.Some? || Blank(lines[n]))
    ensures ReadsOpen(lines, n + 1, Feed(p, lines[n]), at)
  {
    CarriesNoHeading(lines[n]);
    OpenNext(lines, n);
    FeedCarried(p, lines[n]);
    hide NameAt, OpenTo, TextOf, Feed, Carries, IsHeading, IsBullet, EndsAt, Blank;
    if p.current.Some? {
      var j, e := at[|at| - 1], n - p.pendingBlanks;
      assert OpensAt(lines, j, n) && OpenTo(lines, j, n + 1);
      EndsOn(lines, j, e, n);
      if !Blank(lines[n]) {
        TextGrows(lines, j, e, n);
      }
    } else {
      NoneAfter(lines, n);
    }
  }

  /** The end of the text behind one more line. */
  lemma EndsOn(lines: seq<Line>, j: int, e: int, n: nat)
    requires n < |lines| && EndsAt(lines, j, e, n) && OpenTo(lines, j, n + 1)
    ensures 0 <= j <= e <= n && forall k :: e <= k < n ==> Blank(lines[k])
    ensures if Blank(lines[n]) then EndsAt(lines, j, e, n + 1) else EndsAt(lines, j, n + 1, n + 1)
  {
    hide Blank;
  }

  lemma TextGrows(lines: seq<Line>, j: nat, e: nat, n: nat)
    requires j <= e <= n < |lines| && !Blank(lines[n]) && forall k :: e <= k < n ==> Blank(lines[k])
    ensures TextOf(lines, j, n + 1) == TextOf(lines, j, e) + Empties(n - e) + [lines[n]]
  {
    hide Blank;
  }

  /** Text that belongs to no bullet. */
  lemma ProseLine(lines: seq<Line>, n: nat, p: Parser, at: seq<int>, text: seq<int>)
    requires n < |lines| && Reads(lines, n, p, at, text)
    requires !IsHeading(lines[n]) && !IsBullet(lines[n]) && !Blank(lines[n])
    requires p.current.None? || !IsSpace(lines[n][0])
    ensures Reads(lines, n + 1, Feed(p, lines[n]), at, text + [n])
  {
    hide ReadsBullets, ReadsProse, ItemAt, SubName, IsBullet, EndsAt, TextOf, NameAt, IsHeading, ProseAt, Strip, OpenTo;
    SameBullets(lines, n, at);
    NoHeadingBetween(lines, n, n + 1);
    assert ProseAt(lines, n) by { IsProse(lines, n, p, at); }
    NothingOpen(lines, n, p, at);
    MoreProse(lines, n, p, Close(p).(prose := p.prose + [Strip(lines[n])]), text);
    assert Feed(p, lines[n]) == Close(p).(prose := p.prose + [Strip(lines[n])]) by { FeedProse(p, lines[n]); }
    if p.current.Some? {
      CloseReads(lines, n, p, at, text);
    }
  }

  lemma FeedProse(p: Parser, line: Line)
    requires !IsHeading(line) && !IsBullet(line) && !Blank(line) && (p.current.None? || !IsSpace(line[0]))
    ensures Feed(p, line) == Close(p).(prose := p.prose + [Strip(line)])
  {
  }

  lemma IsProse(lines: seq<Line>, n: nat, p: Parser, at: seq<int>)
    requires n < |lines| && ReadsOpen(lines, n, p, at)
    requires !IsHeading(lines[n]) && !IsBullet(lines[n]) && !Blank(lines[n])
    requires p.current.None? || !IsSpace(lines[n][0])
    ensures ProseAt(lines, n)
  {
    hide OpenTo, EndsAt, TextOf, NameAt;
  }

  /** After such a line no bullet is open. */
  lemma NothingOpen(lines: seq<Line>, n: nat, p: Parser, at: seq<int>)
    requires n < |lines| && ReadsOpen(lines, n, p, at) && !IsBullet(lines[n]) && !Blank(lines[n])
    requires p.current.None? || !IsSpace(lines[n][0])
    ensures NoneOpen(lines, n + 1)
    ensures p.current.Some? ==> !Carries(lines[n])
  {
    hide OpenTo, EndsAt, TextOf, NameAt, IsBullet;
    NoneAfter(lines, n);
  }

  lemma MoreProse(lines: seq<Line>, n: nat, p: Parser, q: Parser, text: seq<int>)
    requires n < |lines| && ReadsProse(lines, n, p, text) && ProseAt(lines, n)
    requires q.prose == p.prose + [Strip(lines[n])]
    ensures ReadsProse(lines, n + 1, q, text + [n])
  {
    hide ProseAt, Strip, Rising;
    var more := text + [n];
    RisingSnoc(text, n);
    assert more[|text|] == n;
    forall i | 0 <= i < n && ProseAt(lines, i) ensures i in more {
      assert i in text;
    }
  }

  lemma {:induction false} ReadsAll(lines: seq<Line>, n: nat) returns (at: seq<int>, text: seq<int>)
    requires n <= |lines|
    ensures Reads(lines, n, FeedAll(START, lines[..n]), at, text)
    decreases n
  {
    hide Reads;
    if n == 0 {
      at, text := [], [];
      assert lines[..0] == [];
      assert Reads(lines, 0, START, [], []) by { NothingRead(lines); }
    } else {
      at, text := ReadsAll(lines, n - 1);
      var p, line := FeedAll(START, lines[..n - 1]), lines[n - 1];
      assert lines[..n] == lines[..n - 1] + [line];
      FeedConcat(START, lines[..n - 1], [line]);
      FeedOne(p, line);
      hide FeedAll, Feed, Blank, IsSub, IsSection, IsBullet, Carries;
      if IsHeading(line) {
        HeadingLine(lines, n - 1, p, at, text);
      } else if IsBullet(line) {
        BulletLineReads(lines, n - 1, p, at, text);
        at := at + [n - 1];
      } else if Blank(line) || (p.current.Some? && IsSpace(line[0])) {
        assert Carries(line) by { IsCarried(line); }
        CarriedLine(lines, n - 1, p, at, text);
      } else {
        ProseLine(lines, n - 1, p, at, text);
        text := text + [n - 1];
      }
    }
  }

  lemma IsCarried(line: Line)
    requires Blank(line) || IsSpace(line[0])
    ensures Carries(line)
  {
  }

  lemma NothingRead(lines: seq<Line>)
    ensures Reads(lines, 0, START, [], [])
  {
  }

  /** The parser, by position. The items are the bullets, one each and in order, each with the subsection
      it stands in and its lines up to the last that is not blank; the prose is the text that belongs to
      none. */
  lemma ParseMeaning(lines: seq<Line>) returns (at: seq<int>, text: seq<int>)
    ensures var block := ParseBlock(lines);
            && ReadsBullets(lines, |lines|, at) && |at| == |block.items|
            && (forall k :: 0 <= k < |at| ==> ItemAt(lines, at[k], block.items[k]))
            && Rising(text) && |text| == |block.prose|
            && (forall k :: 0 <= k < |text| ==>
                  0 <= text[k] < |lines| && ProseAt(lines, text[k]) && block.prose[k] == Strip(lines[text[k]]))
            && (forall i :: 0 <= i < |lines| && ProseAt(lines, i) ==> i in text)
  {
    at, text := ReadsAll(lines, |lines|);
    assert lines[..|lines|] == lines;
    CloseReads(lines, |lines|, FeedAll(START, lines), at, text);
    hide FeedAll, ItemAt, ProseAt, NameAt, ReadsOpen;
  }

  /** The blanks of `str.isspace`, one by one. */
  lemma SpaceTable(c: char)
    ensures IsSpace(c) <==> c as int in {9, 10, 11, 12, 13, 28, 29, 30, 31, 32, 0x85, 0xa0, 0x1680,
                                         0x2000, 0x2001, 0x2002, 0x2003, 0x2004, 0x2005, 0x2006, 0x2007, 0x2008,
                                         0x2009, 0x200a, 0x2028, 0x2029, 0x202f, 0x205f, 0x3000}
  {
  }

  // ----- words and stripping -------------------------------------------------------------------------

  ghost predicate NoSpace(s: string) {
    forall i :: 0 <= i < |s| ==> !IsSpace(s[i])
  }

  /** Gaps and words in turn. */
  ghost function Weave(gaps: seq<string>, words: seq<string>): string
    requires |gaps| == |words| + 1
  {
    if words == [] then gaps[0] else gaps[0] + words[0] + Weave(gaps[1..], words[1..])
  }

  /** Words, with the gaps around them, that make up a text. */
  ghost predicate Woven(s: string, words: seq<string>, gaps: seq<string>) {
    && |gaps| == |words| + 1 && s == Weave(gaps, words)
    && (forall i :: 0 <= i < |words| ==> words[i] != "" && NoSpace(words[i]))
    && (forall i :: 0 <= i < |gaps| ==> Blank(gaps[i]) && (0 < i < |gaps| - 1 ==> gaps[i] != ""))
  }

  /** `str.split()`: the text is its words with blanks between, before and after; no word is empty or
      holds a blank, and only the outer gaps may be empty. */
  lemma {:induction false} WordsMeaning(s: string) returns (gaps: seq<string>)
    ensures Woven(s, Words(s), gaps)
    decreases |s|
  {
    hide Woven, IsSpace;
    if s == "" {
      gaps := [""];
      assert Woven("", [], [""]) by { NothingWoven(); }
    } else if IsSpace(s[0]) {
      var rest := WordsMeaning(s[1..]);
      gaps := WovenSpace(s, Words(s[1..]), rest);
    } else {
      var n := WordLen(s);
      WordIs(s);
      var rest := WordsMeaning(s[n..]);
      gaps := WovenWord(s, n, Words(s[n..]), rest);
    }
  }

  lemma NothingWoven()
    ensures Woven("", [], [""])
  {
  }

  lemma WovenSpace(s: string, words: seq<string>, rest: seq<string>) returns (gaps: seq<string>)
    requires s != "" && IsSpace(s[0]) && Woven(s[1..], words, rest)
    ensures Woven(s, words, gaps)
  {
    hide IsSpace, Weave;
    gaps := [[s[0]] + rest[0]] + rest[1..];
    WeaveHead([s[0]], rest, words);
    assert s == [s[0]] + s[1..];
    forall i | 0 <= i < |gaps| ensures Blank(gaps[i]) && (0 < i < |gaps| - 1 ==> gaps[i] != "") {
      assert i > 0 ==> gaps[i] == rest[i];
    }
  }

  lemma WovenWord(s: string, n: nat, words: seq<string>, rest: seq<string>) returns (gaps: seq<string>)
    requires 0 < n <= |s| && NoSpace(s[..n]) && (n < |s| ==> IsSpace(s[n])) && Woven(s[n..], words, rest)
    ensures Woven(s, [s[..n]] + words, gaps)
  {
    hide IsSpace;
    gaps := [""] + rest;
    FirstGap(s[n..], words, rest);
    assert ([s[..n]] + words)[1..] == words && gaps[1..] == rest;
    assert s == "" + s[..n] + s[n..];
    hide Weave;
    forall i | 0 <= i < |gaps| ensures Blank(gaps[i]) && (0 < i < |gaps| - 1 ==> gaps[i] != "") {
      assert i > 0 ==> gaps[i] == rest[i - 1];
    }
  }

  lemma WeaveHead(head: string, gaps: seq<string>, words: seq<string>)
    requires |gaps| == |words| + 1
    ensures Weave([head + gaps[0]] + gaps[1..], words) == head + Weave(gaps, words)
  {
    var longer := [head + gaps[0]] + gaps[1..];
    assert longer[1..] == gaps[1..];
    if words != [] {
      var rest := Weave(gaps[1..], words[1..]);
      assert head + gaps[0] + words[0] + rest == head + (gaps[0] + words[0] + rest);
    }
  }

  lemma {:induction false} WordIs(s: string)
    ensures NoSpace(s[..WordLen(s)]) && (WordLen(s) < |s| ==> IsSpace(s[WordLen(s)]))
    decreases |s|
  {
    if s != "" && !IsSpace(s[0]) {
      WordIs(s[1..]);
      assert s[..WordLen(s)] == [s[0]] + s[1..][..WordLen(s[1..])];
    }
  }

  /** What follows a word is nothing, or starts with a blank. */
  lemma FirstGap(s: string, words: seq<string>, gaps: seq<string>)
    requires Woven(s, words, gaps) && (s != "" ==> IsSpace(s[0]))
    ensures words != [] ==> gaps[0] != ""
  {
    hide IsSpace;
    if words != [] {
      var tail := Weave(gaps[1..], words[1..]);
      assert s == gaps[0] + words[0] + tail;
      StartsWith(gaps[0], words[0], tail);
    }
  }

  lemma StartsWith(gap: string, word: string, tail: string)
    requires word != ""
    ensures gap == "" ==> (gap + word + tail)[0] == word[0]
  {
  }

  lemma {:induction false} WordsJoin(a: string, c: char, b: string)
    requires IsSpace(c)
    ensures Words(a + [c] + b) == Words(a) + Words(b)
    decreases |a|
  {
    var s := a + [c] + b;
    if a == "" {
      assert s[0] == c && s[1..] == b;
    } else if IsSpace(a[0]) {
      assert s[0] == a[0] && s[1..] == a[1..] + [c] + b;
      WordsJoin(a[1..], c, b);
    } else {
      WordLenJoin(a, c, b);
      var n := WordLen(a);
      assert s[0] == a[0] && s[..n] == a[..n] && s[n..] == a[n..] + [c] + b;
      WordsJoin(a[n..], c, b);
      assert [a[..n]] + (Words(a[n..]) + Words(b)) == ([a[..n]] + Words(a[n..])) + Words(b);
    }
  }

  lemma {:induction false} WordLenJoin(a: string, c: char, b: string)
    requires IsSpace(c)
    ensures WordLen(a + [c] + b) == WordLen(a)
    decreases |a|
  {
    var s := a + [c] + b;
    if a == "" {
      assert s[0] == c;
    } else if !IsSpace(a[0]) {
      assert s[0] == a[0] && s[1..] == a[1..] + [c] + b;
      WordLenJoin(a[1..], c, b);
    }
  }

  /** The words of a bullet are those of its text, the lines joined by newlines. */
  lemma {:induction false} NormalizedIs(lines: seq<Line>)
    requires lines != []
    ensures WordsOf(lines) == Words(Join(lines, "\n"))
    decreases |lines|
  {
    if |lines| == 1 {
      assert WordsOf(lines[1..]) == [] && Words(lines[0]) + [] == Words(lines[0]);
    } else {
      NormalizedIs(lines[1..]);
      WordsJoin(lines[0], '\n', Join(lines[1..], "\n"));
    }
  }

  /** `str.strip()` takes blanks off both ends and nothing else. */
  lemma {:induction false} StripMeaning(s: string) returns (a: string, b: string)
    ensures s == a + Strip(s) + b && Blank(a) && Blank(b)
    ensures var r := Strip(s); r == "" || (!IsSpace(r[0]) && !IsSpace(r[|r| - 1]))
    decreases |s|
  {
    hide IsSpace, Blank;
    a, b := "", "";
    assert Blank("") by { BlankNone(); }
    if s == "" {
    } else if IsSpace(s[0]) {
      var a';
      a', b := StripMeaning(s[1..]);
      a := [s[0]] + a';
      BlankMore(s[0], a');
      hide Strip;
      assert s == [s[0]] + s[1..];
      Grouped([s[0]], a', Strip(s[1..]), b);
    } else if IsSpace(s[|s| - 1]) {
      var b', n := "", |s| - 1;
      a, b' := StripMeaning(s[..n]);
      b := b' + [s[n]];
      BlankMore(s[n], b');
      hide Strip;
      assert s == s[..n] + [s[n]];
      Grouped(a, Strip(s[..n]), b', [s[n]]);
    } else {
      assert "" + s + "" == s;
    }
  }

  lemma BlankNone()
    ensures Blank("")
  {
  }

  lemma BlankMore(c: char, s: string)
    requires IsSpace(c) && Blank(s)
    ensures Blank([c] + s) && Blank(s + [c])
  {
    hide IsSpace;
  }

  lemma Grouped(a: string, b: string, c: string, d: string)
    ensures a + (b + c + d) == (a + b) + c + d
    ensures (a + b + c) + d == a + b + (c + d)
  {
  }
}
