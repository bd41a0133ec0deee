/** The bullet parser of `changelog_rebuild.py` (`_ItemParser`, `_parse_block`). */
module ChangelogParse {
  import opened Common

  type Line = string

  const SUBSECTION_PREFIX := "### "
  const SECTION_BOUNDARY := "## "
  const BULLET_PREFIX := "- "

  /** `str.isspace` for one character. */
  predicate IsSpace(c: char) {
    var n := c as int;
    || 9 <= n <= 13 || 28 <= n <= 32 || n == 0x85 || n == 0xa0 || n == 0x1680 || 0x2000 <= n <= 0x200a
    || n == 0x2028 || n == 0x2029 || n == 0x202f || n == 0x205f || n == 0x3000
  }

  /** `not line.strip()`. */
  predicate Blank(line: Line) {
    forall i :: 0 <= i < |line| ==> IsSpace(line[i])
  }

  ghost predicate NoBreaks(s: string) {
    forall i :: 0 <= i < |s| ==> s[i] != '\r' && s[i] != '\n'
  }

  /** `str.strip()`. */
  function Strip(s: string): (r: string)
    ensures r == [] || (!IsSpace(r[0]) && !IsSpace(r[|r| - 1]))
    ensures NoBreaks(s) ==> NoBreaks(r)
  {
    if s == [] then []
    else if IsSpace(s[0]) then Strip(s[1..])
    else if IsSpace(s[|s| - 1]) then Strip(s[..|s| - 1])
    else s
  }

  lemma StripOnce(s: string)
    ensures Strip(Strip(s)) == Strip(s)
  {
  }

  /** The whitespace-separated words of a line. */
  function Words(s: string): seq<string> {
    if s == [] then []
    else if IsSpace(s[0]) then Words(s[1..])
    else
      var n := WordLen(s);
      [s[..n]] + Words(s[n..])
  }

  function WordLen(s: string): (n: nat)
    ensures n <= |s| && (s != [] && !IsSpace(s[0]) ==> n > 0)
  {
    if s == [] || IsSpace(s[0]) then 0 else 1 + WordLen(s[1..])
  }

  /** One bullet: its subsection and its lines (the text is the lines joined by newlines). */
  datatype OwnItem = OwnItem(subsection: string, lines: seq<Line>) {
    /** The identity key: the words of the text (joined by single spaces in the source). */
    function Normalized(): seq<string> {
      WordsOf(lines)
    }

    function Key(): (string, seq<string>) {
      (subsection, Normalized())
    }
  }

  function WordsOf(lines: seq<Line>): seq<string> {
    if lines == [] then [] else Words(lines[0]) + WordsOf(lines[1..])
  }

  // ----- the parser ------------------------------------------------------------------------

  datatype Parser = Parser(subsection: string, items: seq<OwnItem>, prose: seq<string>,
                           current: Option<seq<Line>>, pendingBlanks: nat)

  datatype Block = Block(items: seq<OwnItem>, prose: seq<string>)

  const START := Parser("", [], [], None, 0)

  function Close(p: Parser): Parser {
    p.(items := if p.current.Some? then p.items + [OwnItem(p.subsection, p.current.value)] else p.items,
       current := None, pendingBlanks := 0)
  }

  predicate IsSub(line: Line) { SUBSECTION_PREFIX <= line }

  predicate IsSection(line: Line) { SECTION_BOUNDARY <= line }

  predicate IsBullet(line: Line) { BULLET_PREFIX <= line }

  function SubName(line: Line): string
    requires IsSub(line)
  {
    Strip(line[4..])
  }

  function Empties(n: nat): seq<Line> {
    seq(n, _ => "")
  }

  function Feed(p: Parser, line: Line): Parser {
    if IsSub(line) then Close(p).(subsection := SubName(line))
    else if IsSection(line) then Close(p).(subsection := "")
    else if IsBullet(line) then Close(p).(current := Some([line]))
    else if Blank(line) then if p.current.Some? then p.(pendingBlanks := p.pendingBlanks + 1) else p
    else if p.current.Some? && IsSpace(line[0]) then
      p.(current := Some(p.current.value + Empties(p.pendingBlanks) + [line]), pendingBlanks := 0)
    else
      var q := Close(p);
      q.(prose := q.prose + [Strip(line)])
  }

  function FeedAll(p: Parser, lines: seq<Line>): Parser
    decreases |lines|
  {
    if lines == [] then p else FeedAll(Feed(p, lines[0]), lines[1..])
  }

  function Finish(p: Parser): Block {
    var q := Close(p);
    Block(q.items, q.prose)
  }

  function ParseBlock(lines: seq<Line>): Block {
    Finish(FeedAll(START, lines))
  }

  /** `_ItemParser`, the object fed line by line. */
  class ItemParser {
    var subsection: string
    var items: seq<OwnItem>
    var prose: seq<string>
    var current: Option<seq<Line>>
    var pendingBlanks: nat

    ghost function State(): Parser
      reads this
    {
      Parser(subsection, items, prose, current, pendingBlanks)
    }

    constructor ()
      ensures State() == START
    {
      subsection, items, prose, current, pendingBlanks := "", [], [], None, 0;
    }

    method CloseItem()
      modifies this
      ensures State() == Close(old(State()))
    {
      if current.Some? {
        items := items + [OwnItem(subsection, current.value)];
      }
      current, pendingBlanks := None, 0;
    }

    method FeedLine(line: Line)
      modifies this
      ensures State() == Feed(old(State()), line)
    {
      if IsSub(line) {
        CloseItem();
        subsection := Strip(line[4..]);
      } else if IsSection(line) {
        CloseItem();
        subsection := "";
      } else if IsBullet(line) {
        CloseItem();
        current := Some([line]);
      } else if Blank(line) {
        if current.Some? {
          pendingBlanks := pendingBlanks + 1;
        }
      } else if current.Some? && IsSpace(line[0]) {
        current := Some(current.value + Empties(pendingBlanks) + [line]);
        pendingBlanks := 0;
      } else {
        CloseItem();
        prose := prose + [Strip(line)];
      }
    }

    method FinishBlock() returns (block: Block)
      modifies this
      ensures block == Finish(old(State()))
    {
      CloseItem();
      block := Block(items, prose);
    }
  }

  method ParseLines(lines: seq<Line>) returns (block: Block)
    ensures block == ParseBlock(lines)
  {
    var parser := new ItemParser();
    hide Feed;
    assert lines[0..] == lines;
    for i := 0 to |lines|
      invariant fresh(parser) && FeedAll(START, lines) == FeedAll(parser.State(), lines[i..])
    {
      assert lines[i..][1..] == lines[i + 1..] && lines[i..][0] == lines[i];
      parser.FeedLine(lines[i]);
    }
    block := parser.FinishBlock();
  }

  // ----- feeding in pieces -----------------------------------------------------------------

  lemma {:induction false} FeedConcat(p: Parser, a: seq<Line>, b: seq<Line>)
    ensures FeedAll(p, a + b) == FeedAll(FeedAll(p, a), b)
    decreases |a|
  {
    hide Feed;
    if a == [] {
      assert a + b == b;
    } else {
      assert (a + b)[1..] == a[1..] + b && (a + b)[0] == a[0];
      FeedConcat(Feed(p, a[0]), a[1..], b);
    }
  }

  lemma FeedOne(p: Parser, line: Line)
    ensures FeedAll(p, [line]) == Feed(p, line)
  {
    hide Feed;
    assert [line][1..] == [];
    assert FeedAll(Feed(p, line), []) == Feed(p, line);
  }

  /** What was collected before never influences what is collected next. */
  ghost function Behind(p: Parser, items: seq<OwnItem>, prose: seq<string>): Parser {
    p.(items := items + p.items, prose := prose + p.prose)
  }

  lemma CloseBehind(p: Parser, items: seq<OwnItem>, prose: seq<string>)
    ensures Close(Behind(p, items, prose)) == Behind(Close(p), items, prose)
  {
    if p.current.Some? {
      var one := [OwnItem(p.subsection, p.current.value)];
      assert items + p.items + one == items + (p.items + one);
    }
  }

  lemma FeedBehind(p: Parser, line: Line, items: seq<OwnItem>, prose: seq<string>)
    ensures Feed(Behind(p, items, prose), line) == Behind(Feed(p, line), items, prose)
  {
    hide Close, Strip, SubName;
    CloseBehind(p, items, prose);
    var q := Close(p);
    assert prose + q.prose + [Strip(line)] == prose + (q.prose + [Strip(line)]);
  }

  lemma {:induction false} FeedAllBehind(p: Parser, lines: seq<Line>, items: seq<OwnItem>, prose: seq<string>)
    ensures FeedAll(Behind(p, items, prose), lines) == Behind(FeedAll(p, lines), items, prose)
    decreases |lines|
  {
    hide Feed, Behind;
    if lines != [] {
      FeedBehind(p, lines[0], items, prose);
      FeedAllBehind(Feed(p, lines[0]), lines[1..], items, prose);
    }
  }

  /** Blank lines add nothing to what is closed next. */
  ghost predicate AllBlank(lines: seq<Line>) {
    forall i :: 0 <= i < |lines| ==> Blank(lines[i])
  }

  lemma FirstChar(line: Line)
    ensures IsSub(line) ==> line != "" && line[0] == '#'
    ensures IsSection(line) ==> line != "" && line[0] == '#'
    ensures IsBullet(line) ==> line != "" && line[0] == '-'
  {
  }

  lemma BlankLine(line: Line)
    requires Blank(line)
    ensures !IsSub(line) && !IsSection(line) && !IsBullet(line)
  {
    FirstChar(line);
  }

  lemma {:induction false} FeedBlanks(p: Parser, lines: seq<Line>)
    requires AllBlank(lines)
    ensures FeedAll(p, lines)
      == p.(pendingBlanks := if p.current.Some? then p.pendingBlanks + |lines| else p.pendingBlanks)
    ensures Close(FeedAll(p, lines)) == Close(p)
    decreases |lines|
  {
    if lines != [] {
      BlankLine(lines[0]);
      FeedBlanks(Feed(p, lines[0]), lines[1..]);
    }
  }

  /** The shape of a parsed bullet. */
  ghost predicate ItemLines(lines: seq<Line>) {
    && lines != [] && IsBullet(lines[0]) && !Blank(lines[|lines| - 1])
    && forall i :: 0 < i < |lines| ==> lines[i] == "" || Continuation(lines[i])
  }

  predicate Continuation(line: Line) {
    line != "" && IsSpace(line[0]) && !Blank(line)
  }

  lemma ContinuationLine(line: Line)
    requires Continuation(line)
    ensures !IsSub(line) && !IsSection(line) && !IsBullet(line)
  {
    FirstChar(line);
  }

  /** The lines of a bullet up to its last line that is not an empty one. */
  ghost predicate Trimmed(lines: seq<Line>, kept: nat) {
    && 0 < kept <= |lines| && (forall i :: kept <= i < |lines| ==> lines[i] == "")
    && (kept > 1 ==> lines[kept - 1] != "")
  }

  lemma {:induction false} FeedItemPrefix(p: Parser, lines: seq<Line>, n: nat) returns (kept: nat)
    requires ItemLines(lines) && 0 < n <= |lines|
    ensures Trimmed(lines[..n], kept)
    ensures FeedAll(p, lines[..n]) == Close(p).(current := Some(lines[..kept]), pendingBlanks := n - kept)
    decreases n
  {
    hide FeedAll;
    if n == 1 {
      kept := 1;
      assert lines[..1] == [lines[0]];
      FeedOne(p, lines[0]);
      BulletLine(lines[0]);
    } else {
      var k := FeedItemPrefix(p, lines, n - 1);
      var line := lines[n - 1];
      assert lines[..n] == lines[..n - 1] + [line];
      FeedConcat(p, lines[..n - 1], [line]);
      FeedOne(FeedAll(p, lines[..n - 1]), line);
      if line == "" {
        BlankLine(line);
        kept := k;
      } else {
        ContinuationLine(line);
        kept := n;
        EmptiesAre(lines, k, n - 1);
        assert lines[..n] == lines[..k] + Empties(n - 1 - k) + [line];
      }
    }
  }

  lemma BulletLine(line: Line)
    requires IsBullet(line)
    ensures !IsSub(line) && !IsSection(line)
  {
    FirstChar(line);
  }

  lemma EmptiesAre(lines: seq<Line>, k: nat, n: nat)
    requires k <= n <= |lines| && forall i :: k <= i < n ==> lines[..n][i] == ""
    ensures lines[..n] == lines[..k] + Empties(n - k)
  {
  }

  /** A bullet, fed from any state, closes what was open and becomes the open item. */
  lemma FeedItem(p: Parser, lines: seq<Line>)
    requires ItemLines(lines)
    ensures FeedAll(p, lines) == Close(p).(current := Some(lines), pendingBlanks := 0)
  {
    hide FeedAll, Close;
    var kept := FeedItemPrefix(p, lines, |lines|);
    assert lines[..|lines|] == lines;
    assert Blank("");
  }

  // ----- what the parser produces ------------------------------------------------------------

  ghost predicate CleanLines(lines: seq<Line>) {
    forall i :: 0 <= i < |lines| ==> NoBreaks(lines[i])
  }

  /** A bullet as the parser makes it. */
  ghost predicate Parsed(item: OwnItem) {
    && ItemLines(item.lines) && CleanLines(item.lines)
    && Strip(item.subsection) == item.subsection && NoBreaks(item.subsection)
  }

  ghost predicate ParserInv(p: Parser) {
    && (forall i :: 0 <= i < |p.items| ==> Parsed(p.items[i]))
    && Strip(p.subsection) == p.subsection && NoBreaks(p.subsection)
    && (p.current.Some? ==> ItemLines(p.current.value) && CleanLines(p.current.value))
  }

  lemma CloseKeepsInv(p: Parser)
    requires ParserInv(p)
    ensures ParserInv(Close(p))
  {
    hide Strip, ItemLines, CleanLines, NoBreaks;
  }

  lemma FeedKeepsInv(p: Parser, line: Line)
    requires ParserInv(p) && NoBreaks(line)
    ensures ParserInv(Feed(p, line))
  {
    hide Close, Strip;
    CloseKeepsInv(p);
    if IsSub(line) {
      StripOnce(line[4..]);
      assert NoBreaks(line[4..]);
    } else if IsSection(line) {
      StripOnce("");
      assert Strip("") == "" by { StripEmpty(); }
    } else if IsBullet(line) {
      FirstChar(line);
    } else if !Blank(line) && p.current.Some? && IsSpace(line[0]) {
      var cur := p.current.value;
      var next := cur + Empties(p.pendingBlanks) + [line];
      hide Feed;
      ExtendItem(cur, p.pendingBlanks, line);
    }
  }

  lemma StripEmpty()
    ensures Strip("") == ""
  {
  }

  lemma ExtendItem(cur: seq<Line>, blanks: nat, line: Line)
    requires ItemLines(cur) && CleanLines(cur) && Continuation(line) && NoBreaks(line)
    ensures var next := cur + Empties(blanks) + [line]; ItemLines(next) && CleanLines(next)
  {
    var next := cur + Empties(blanks) + [line];
    forall i | 0 < i < |next| ensures next[i] == "" || Continuation(next[i]) {
    }
  }

  lemma {:induction false} FeedAllKeepsInv(p: Parser, lines: seq<Line>)
    requires ParserInv(p) && CleanLines(lines)
    ensures ParserInv(FeedAll(p, lines))
    decreases |lines|
  {
    hide Feed, ParserInv;
    if lines != [] {
      FeedKeepsInv(p, lines[0]);
      FeedAllKeepsInv(Feed(p, lines[0]), lines[1..]);
    }
  }

  /** Every item of a parsed block has the shape of a bullet. */
  lemma ParsedItems(lines: seq<Line>)
    requires CleanLines(lines)
    ensures forall i :: 0 <= i < |ParseBlock(lines).items| ==> Parsed(ParseBlock(lines).items[i])
  {
    hide FeedAll;
    StripEmpty();
    FeedAllKeepsInv(START, lines);
    CloseKeepsInv(FeedAll(START, lines));
  }
}
