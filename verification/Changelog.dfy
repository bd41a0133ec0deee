/** Rebuilding a branch's changelog onto main's (`changelog_rebuild.py` `rebuild_changelog`). */
module Changelog {
  import opened Common
  import opened ChangelogParse
  import opened ChangelogText
  import opened ChangelogInsert

  const UNRELEASED := "Unreleased"
  const HEADING_PREFIX := "## ["

  /** Why a rebuild was refused. */
  datatype Disposition = Unparseable | ReleasedSectionTouched | AmbiguousEdit

  datatype Result<+T> = Ok(value: T) | Err(disposition: Disposition)

  datatype Heading = Heading(version: string, line: nat)

  /** The index of the first closing bracket, else the length. */
  function Bracket(s: string): (n: nat)
    ensures n <= |s| && (n < |s| ==> s[n] == ']')
    ensures forall i :: 0 <= i < n ==> s[i] != ']'
  {
    if s == "" || s[0] == ']' then 0 else 1 + Bracket(s[1..])
  }

  /** The version of a `## [version]` line. */
  function VersionOf(line: Line): Option<string> {
    if HEADING_PREFIX <= line && 0 < Bracket(line[4..]) < |line[4..]| then Some(line[4..][..Bracket(line[4..])])
    else None
  }

  /** The heading pattern: the text between the first brackets, not empty. */
  lemma VersionMeaning(line: Line, v: string)
    ensures VersionOf(line) == Some(v) <==> v != "" && ']' !in v && "## [" + v + "]" <= line
  {
    var head := "## [" + v + "]";
    if v != "" && ']' !in v && head <= line {
      assert line[..4] == "## [" && line[4..][..|v|] == v && line[4..][|v|] == ']';
      assert Bracket(line[4..]) == |v|;
    }
    if VersionOf(line) == Some(v) {
      var rest := line[4..];
      assert line == "## [" + rest && rest[..|v|] == v && rest[|v|] == ']';
      assert rest[..|v| + 1] == v + "]";
      assert line[..|head|] == head;
    }
  }

  function Heads(lines: seq<Line>, base: nat): seq<Heading>
    decreases |lines|
  {
    if lines == [] then [] else Head(lines[0], base) + Heads(lines[1..], base + 1)
  }

  function Head(line: Line, at: nat): seq<Heading> {
    match VersionOf(line)
    case None => []
    case Some(v) => [Heading(v, at)]
  }

  /** `parse_headings`. */
  method ParseHeadings(lines: seq<Line>) returns (headings: seq<Heading>)
    ensures headings == Heads(lines, 0)
  {
    hide VersionOf;
    headings := [];
    assert lines[0..] == lines;
    for i := 0 to |lines|
      invariant Heads(lines, 0) == headings + Heads(lines[i..], i)
    {
      assert lines[i..][1..] == lines[i + 1..] && lines[i..][0] == lines[i];
      var version := VersionOf(lines[i]);
      if version.Some? {
        assert headings + ([Heading(version.value, i)] + Heads(lines[i + 1..], i + 1))
            == (headings + [Heading(version.value, i)]) + Heads(lines[i + 1..], i + 1);
        headings := headings + [Heading(version.value, i)];
      } else {
        assert [] + Heads(lines[i + 1..], i + 1) == Heads(lines[i + 1..], i + 1);
      }
    }
  }

  /** The first `## ` line at or after `from`, else the end (`_section_end`, from one past the start). */
  function NextSection(lines: seq<Line>, from: nat): (end: nat)
    requires from <= |lines|
    ensures from <= end <= |lines|
    ensures end < |lines| ==> IsSection(lines[end])
    ensures forall k :: from <= k < end ==> !IsSection(lines[k])
    decreases |lines| - from
  {
    if from == |lines| || IsSection(lines[from]) then from else NextSection(lines, from + 1)
  }

  method SectionEnd(lines: seq<Line>, start: nat) returns (end: nat)
    requires start < |lines|
    ensures end == NextSection(lines, start + 1)
  {
    end := start + 1;
    while end < |lines| && !IsSection(lines[end])
      invariant start < end <= |lines| && NextSection(lines, start + 1) == NextSection(lines, end)
    {
      end := end + 1;
    }
  }

  function Unreleased(headings: seq<Heading>): seq<Heading> {
    if headings == [] then []
    else (if headings[0].version == UNRELEASED then [headings[0]] else []) + Unreleased(headings[1..])
  }

  function Versions(headings: seq<Heading>): seq<string> {
    seq(|headings|, i requires 0 <= i < |headings| => headings[i].version)
  }

  datatype Doc = Doc(lines: seq<Line>, newline: string, trailing: bool, headings: seq<Heading>, start: nat, end: nat)

  /** `_parse_doc`. */
  function ParseDoc(text: string): Result<Doc> {
    if Blank(text) then Err(Unparseable)
    else
      var parts := SplitLines(text);
      if parts.Mixed? then Err(Unparseable)
      else
        var headings := Heads(parts.lines, 0);
        var unreleased := Unreleased(headings);
        if |unreleased| != 1 then Err(Unparseable)
        else
          var start := unreleased[0].line;
          UnreleasedIsALine(parts.lines);
          Ok(Doc(parts.lines, parts.newline, parts.trailing, headings, start, NextSection(parts.lines, start + 1)))
  }

  // ----- headings ------------------------------------------------------------------------------

  lemma {:induction false} HeadsSound(lines: seq<Line>, base: nat)
    ensures forall i :: 0 <= i < |Heads(lines, base)| ==>
              var h := Heads(lines, base)[i];
              base <= h.line < base + |lines| && VersionOf(lines[h.line - base]) == Some(h.version)
    decreases |lines|
  {
    hide VersionOf;
    if lines != [] {
      HeadsSound(lines[1..], base + 1);
    }
  }

  lemma {:induction false} HeadsComplete(lines: seq<Line>, base: nat, i: nat)
    requires i < |lines| && VersionOf(lines[i]).Some?
    ensures Heading(VersionOf(lines[i]).value, base + i) in Heads(lines, base)
    decreases |lines|
  {
    hide VersionOf;
    if i > 0 {
      HeadsComplete(lines[1..], base + 1, i - 1);
    }
  }

  lemma {:induction false} UnreleasedAre(headings: seq<Heading>)
    ensures forall h :: h in Unreleased(headings) <==> h in headings && h.version == UNRELEASED
  {
    if headings != [] {
      UnreleasedAre(headings[1..]);
    }
  }

  lemma UnreleasedIsALine(lines: seq<Line>)
    ensures var u := Unreleased(Heads(lines, 0));
            |u| == 1 ==> u[0].line < |lines| && VersionOf(lines[u[0].line]) == Some(UNRELEASED)
  {
    hide VersionOf, Heads, Unreleased;
    HeadsSound(lines, 0);
    UnreleasedAre(Heads(lines, 0));
    var u := Unreleased(Heads(lines, 0));
    if |u| == 1 {
      assert u[0] in u;
    }
  }

  lemma {:induction false} HeadsConcat(a: seq<Line>, b: seq<Line>, base: nat)
    ensures Heads(a + b, base) == Heads(a, base) + Heads(b, base + |a|)
    decreases |a|
  {
    hide Head;
    if a == [] {
      assert a + b == b;
    } else {
      assert (a + b)[1..] == a[1..] + b && (a + b)[0] == a[0];
      HeadsConcat(a[1..], b, base + 1);
      var h, x, y := Head(a[0], base), Heads(a[1..], base + 1), Heads(b, base + |a|);
      assert h + (x + y) == (h + x) + y;
    }
  }

  lemma HeadingIsSection(line: Line)
    requires VersionOf(line).Some?
    ensures IsSection(line)
  {
  }

  lemma {:induction false} HeadsNone(lines: seq<Line>, base: nat)
    requires NoSection(lines)
    ensures Heads(lines, base) == []
    decreases |lines|
  {
    hide VersionOf, IsSection;
    if lines != [] {
      if VersionOf(lines[0]).Some? {
        HeadingIsSection(lines[0]);
      }
      HeadsNone(lines[1..], base + 1);
    }
  }

  /** Moving lines moves their headings and nothing else. */
  lemma {:induction false} HeadsMoved(lines: seq<Line>, base: nat, base': nat)
    ensures Versions(Heads(lines, base)) == Versions(Heads(lines, base'))
    ensures |Unreleased(Heads(lines, base))| == |Unreleased(Heads(lines, base'))|
    decreases |lines|
  {
    hide VersionOf;
    if lines != [] {
      HeadsMoved(lines[1..], base + 1, base' + 1);
      var a, b := Heads(lines[1..], base + 1), Heads(lines[1..], base' + 1);
      VersionsConcat(Head(lines[0], base), a);
      VersionsConcat(Head(lines[0], base'), b);
      UnreleasedConcat(Head(lines[0], base), a);
      UnreleasedConcat(Head(lines[0], base'), b);
    }
  }

  lemma {:induction false} UnreleasedConcat(a: seq<Heading>, b: seq<Heading>)
    ensures Unreleased(a + b) == Unreleased(a) + Unreleased(b)
  {
    if a == [] {
      assert a + b == b;
    } else {
      assert (a + b)[1..] == a[1..] + b && (a + b)[0] == a[0];
      UnreleasedConcat(a[1..], b);
      var h, x, y := if a[0].version == UNRELEASED then [a[0]] else [], Unreleased(a[1..]), Unreleased(b);
      assert h + (x + y) == (h + x) + y;
    }
  }

  lemma VersionsConcat(a: seq<Heading>, b: seq<Heading>)
    ensures Versions(a + b) == Versions(a) + Versions(b)
  {
  }

  ghost predicate Climbs(heads: seq<Heading>) {
    forall i, j :: 0 <= i < j < |heads| ==> heads[i].line < heads[j].line
  }

  lemma ClimbsCons(h: Heading, rest: seq<Heading>)
    requires Climbs(rest) && forall i :: 0 <= i < |rest| ==> h.line < rest[i].line
    ensures Climbs([h] + rest)
  {
  }

  lemma {:induction false} HeadsClimb(lines: seq<Line>, base: nat)
    ensures Climbs(Heads(lines, base))
    decreases |lines|
  {
    hide VersionOf, Climbs;
    if lines == [] {
      assert Climbs([]) by { NoneClimb(); }
    } else {
      var rest := Heads(lines[1..], base + 1);
      HeadsClimb(lines[1..], base + 1);
      HeadsSound(lines[1..], base + 1);
      if VersionOf(lines[0]).Some? {
        ClimbsCons(Heading(VersionOf(lines[0]).value, base), rest);
      } else {
        assert [] + rest == rest;
      }
    }
  }

  lemma NoneClimb()
    ensures Climbs([])
  {
  }

  /** The headings are the heading lines, all of them, in order. */
  lemma HeadsInOrder(lines: seq<Line>)
    ensures var heads := Heads(lines, 0);
            && Climbs(heads)
            && (forall i :: 0 <= i < |heads| ==>
                  heads[i].line < |lines| && VersionOf(lines[heads[i].line]) == Some(heads[i].version))
            && (forall k :: 0 <= k < |lines| && VersionOf(lines[k]).Some? ==>
                  Heading(VersionOf(lines[k]).value, k) in heads)
  {
    hide VersionOf, Heads, Climbs;
    HeadsClimb(lines, 0);
    HeadsSound(lines, 0);
    forall k | 0 <= k < |lines| && VersionOf(lines[k]).Some?
      ensures Heading(VersionOf(lines[k]).value, k) in Heads(lines, 0)
    {
      HeadsComplete(lines, 0, k);
    }
  }

  /** Line `i` is the one [Unreleased] heading. */
  ghost predicate OnlyUnreleased(lines: seq<Line>, i: int) {
    0 <= i < |lines| && VersionOf(lines[i]) == Some("Unreleased")
    && forall k :: 0 <= k < |lines| && VersionOf(lines[k]) == Some("Unreleased") ==> k == i
  }

  /** A text parses exactly when it is not blank, uses one newline throughout and has exactly one [Unreleased]
      heading; its section then runs from there to the next `## ` line. */
  lemma ParseDocExactly(text: string)
    ensures ParseDoc(text).Ok?
       <==> !Blank(text) && SplitLines(text).Parts? && exists i :: OnlyUnreleased(SplitLines(text).lines, i)
    ensures ParseDoc(text).Err? ==> ParseDoc(text).disposition == Unparseable
    ensures ParseDoc(text).Ok? ==>
              var doc := ParseDoc(text).value;
              && doc.lines == SplitLines(text).lines && OnlyUnreleased(doc.lines, doc.start)
              && doc.start < doc.end <= |doc.lines| && (doc.end < |doc.lines| ==> IsSection(doc.lines[doc.end]))
              && (forall k :: doc.start < k < doc.end ==> !IsSection(doc.lines[k]))
  {
    hide Heads, Unreleased, SplitLines, VersionOf, Blank, IsSection;
    if SplitLines(text).Parts? {
      UnreleasedOnce(SplitLines(text).lines);
    }
  }

  lemma UnreleasedOnce(lines: seq<Line>)
    ensures var u := Unreleased(Heads(lines, 0));
            && (|u| == 1 <==> exists i :: OnlyUnreleased(lines, i))
            && (|u| == 1 ==> OnlyUnreleased(lines, u[0].line))
  {
    hide Heads, Unreleased, VersionOf;
    var heads := Heads(lines, 0);
    var u := Unreleased(heads);
    HeadsInOrder(lines);
    UnreleasedAre(heads);
    UnreleasedRise(heads);
    if |u| == 1 {
      assert u[0] in u;
      forall k | 0 <= k < |lines| && VersionOf(lines[k]) == Some("Unreleased") ensures k == u[0].line {
        assert Heading("Unreleased", k) in u;
      }
      assert OnlyUnreleased(lines, u[0].line);
    }
    if i :| OnlyUnreleased(lines, i) {
      assert Heading("Unreleased", i) in u;
      forall x | 0 <= x < |u| ensures u[x].line == i {
        assert u[x] in u;
        assert u[x] in heads;
      }
      Single(u);
    }
  }

  lemma Single(heads: seq<Heading>)
    requires Climbs(heads) && (|heads| > 1 ==> heads[0].line == heads[1].line)
    ensures |heads| <= 1
  {
  }

  lemma {:induction false} UnreleasedRise(headings: seq<Heading>)
    requires Climbs(headings)
    ensures Climbs(Unreleased(headings))
    decreases |headings|
  {
    if headings != [] {
      var tail, rest := headings[1..], Unreleased(headings[1..]);
      ClimbsTail(headings);
      hide Climbs;
      UnreleasedRise(tail);
      UnreleasedAre(tail);
      forall i | 0 <= i < |rest| ensures headings[0].line < rest[i].line {
        assert rest[i] in rest;
        assert rest[i] in tail;
      }
      ClimbsCons(headings[0], rest);
      assert [] + rest == rest;
    }
  }

  lemma ClimbsTail(headings: seq<Heading>)
    requires Climbs(headings) && headings != []
    ensures Climbs(headings[1..]) && forall h :: h in headings[1..] ==> headings[0].line < h.line
  {
    var tail := headings[1..];
    assert forall i :: 0 <= i < |tail| ==> tail[i] == headings[i + 1];
  }

  // ----- documents -------------------------------------------------------------------------------

  /** A document cut at its [Unreleased] body: the lines up to and with the heading, the body, the rest. */
  function Front(doc: Doc): seq<Line>
    requires doc.start < |doc.lines|
  {
    doc.lines[..doc.start + 1]
  }

  function Body(doc: Doc): seq<Line>
    requires doc.start < doc.end <= |doc.lines|
  {
    doc.lines[doc.start + 1..doc.end]
  }

  function Back(doc: Doc): seq<Line>
    requires doc.end <= |doc.lines|
  {
    doc.lines[doc.end..]
  }

  /** What `_parse_doc` guarantees. */
  ghost predicate DocInv(doc: Doc) {
    && CleanLines(doc.lines) && IsNewline(doc.newline)
    && doc.start < |doc.lines|
    && VersionOf(doc.lines[doc.start]) == Some(UNRELEASED)
    && doc.headings == Heads(doc.lines, 0)
    && Unreleased(doc.headings) == [Heading(UNRELEASED, doc.start)]
    && doc.end == NextSection(doc.lines, doc.start + 1)
    && (!doc.trailing && |doc.lines| > 1 ==> doc.lines[|doc.lines| - 1] != "")
  }

  lemma ParseDocInv(text: string)
    requires ParseDoc(text).Ok?
    ensures DocInv(ParseDoc(text).value)
  {
    hide Heads, Unreleased, SplitLines, VersionOf, Blank, NextSection, CleanLines, JoinLines;
    SplitLinesClean(text);
    JoinLinesSplit(text);
    var lines := SplitLines(text).lines;
    UnreleasedIsALine(lines);
    UnreleasedAre(Heads(lines, 0));
    var u := Unreleased(Heads(lines, 0));
    assert u[0] in u;
    assert u == [u[0]];
  }

  /** A document written out reads back as itself. */
  lemma WriteParse(doc: Doc)
    requires DocInv(doc) && |doc.lines| > 1
    ensures ParseDoc(JoinLines(doc.lines, doc.newline, doc.trailing)) == Ok(doc)
  {
    hide Heads, Unreleased, SplitLines, VersionOf, NextSection, CleanLines, JoinLines, Blank, IsNewline;
    var text := JoinLines(doc.lines, doc.newline, doc.trailing);
    SplitLinesJoin(doc.lines, doc.newline, doc.trailing);
    HeadingNotBlank(doc.lines[doc.start]);
    WriteNotBlank(doc.lines, doc.newline, doc.trailing, doc.start);
  }

  lemma HeadingNotBlank(line: Line)
    requires VersionOf(line).Some?
    ensures !Blank(line)
  {
    FirstChar(line);
    HeadingIsSection(line);
  }

  lemma WriteNotBlank(lines: seq<Line>, newline: string, trailing: bool, i: nat)
    requires i < |lines| && !Blank(lines[i])
    ensures !Blank(JoinLines(lines, newline, trailing))
  {
    hide Join, Blank;
    JoinNotBlank(lines, newline, i);
    BlankPrefix(Join(lines, newline), if trailing then newline else "");
  }

  lemma BlankPrefix(a: string, b: string)
    ensures Blank(a + b) <==> Blank(a) && Blank(b)
  {
    var all := a + b;
    if Blank(all) {
      forall i | 0 <= i < |a| ensures IsSpace(a[i]) { assert all[i] == a[i]; }
      forall i | 0 <= i < |b| ensures IsSpace(b[i]) { assert all[|a| + i] == b[i]; }
    }
  }

  lemma {:induction false} JoinNotBlank(lines: seq<Line>, newline: string, i: nat)
    requires i < |lines| && !Blank(lines[i])
    ensures !Blank(Join(lines, newline))
    decreases |lines|
  {
    hide Blank;
    if |lines| > 1 {
      BlankPrefix(lines[0] + newline, Join(lines[1..], newline));
      BlankPrefix(lines[0], newline);
      if i > 0 {
        JoinNotBlank(lines[1..], newline, i - 1);
      }
    }
  }
}
