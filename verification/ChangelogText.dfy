/** Changelog text and its lines (`changelog_rebuild.py` `_split_lines` and the final join). */
module ChangelogText {
  import opened ChangelogParse

  const CR := "\r"
  const LF := "\n"
  const CRLF := "\r\n"

  /** `text.split(sep)`. */
  function Split(text: string, sep: string): (parts: seq<string>)
    requires sep != ""
    ensures parts != []
  {
    if text == "" then [""]
    else if sep <= text then [""] + Split(text[|sep|..], sep)
    else
      var rest := Split(text[1..], sep);
      [[text[0]] + rest[0]] + rest[1..]
  }

  /** `text.count(sep)`; `sep in text` is a positive count. */
  function Count(text: string, sep: string): nat
    requires sep != ""
  {
    if text == "" then 0
    else if sep <= text then 1 + Count(text[|sep|..], sep)
    else Count(text[1..], sep)
  }

  /** `sep.join(parts)`. */
  function Join(parts: seq<string>, sep: string): string
    requires parts != []
  {
    if |parts| == 1 then parts[0] else parts[0] + sep + Join(parts[1..], sep)
  }

  predicate EndsWith(text: string, tail: string) {
    |tail| <= |text| && text[|text| - |tail|..] == tail
  }

  datatype Parts = Mixed | Parts(lines: seq<Line>, newline: string, trailing: bool)

  /** `_split_lines`; `Mixed` is its refusal of mixed line endings. */
  function SplitLines(text: string): Parts {
    var newline := if Count(text, CRLF) > 0 then CRLF else LF;
    if Count(text, CR) != Count(text, CRLF) || (newline == CRLF && Count(text, LF) != Count(text, CRLF)) then Mixed
    else
      var lines := Split(text, newline);
      if EndsWith(text, newline) then Parts(lines[..|lines| - 1], newline, true) else Parts(lines, newline, false)
  }

  /** The text of the lines, as `_rebuild` writes it. */
  function JoinLines(lines: seq<Line>, newline: string, trailing: bool): string
    requires lines != []
  {
    Join(lines, newline) + (if trailing then newline else "")
  }

  // ----- round trips ---------------------------------------------------------------------------

  predicate IsNewline(sep: string) { sep == LF || sep == CRLF }

  lemma {:induction false} JoinSplit(text: string, sep: string)
    requires sep != ""
    ensures Join(Split(text, sep), sep) == text
    decreases |text|
  {
    hide Join;
    if text == "" {
      JoinOne("", sep);
    } else if sep <= text {
      JoinSplit(text[|sep|..], sep);
      JoinEmpty(Split(text[|sep|..], sep), sep);
      assert text == sep + text[|sep|..];
    } else {
      JoinSplit(text[1..], sep);
      JoinHead([text[0]], Split(text[1..], sep), sep);
    }
  }

  lemma JoinOne(part: string, sep: string)
    ensures Join([part], sep) == part
  {
  }

  lemma JoinEmpty(parts: seq<string>, sep: string)
    requires parts != []
    ensures Join([""] + parts, sep) == sep + Join(parts, sep)
  {
    assert ([""] + parts)[1..] == parts;
    assert "" + sep == sep;
  }

  lemma JoinHead(head: string, parts: seq<string>, sep: string)
    requires parts != []
    ensures Join([head + parts[0]] + parts[1..], sep) == head + Join(parts, sep)
  {
    var longer := [head + parts[0]] + parts[1..];
    assert longer[1..] == parts[1..];
    if |parts| > 1 {
      assert head + parts[0] + sep + Join(parts[1..], sep) == head + (parts[0] + sep + Join(parts[1..], sep));
    }
  }

  /** A line without line breaks in front of a separator is one part. */
  lemma {:induction false} SplitFirst(line: Line, rest: string, sep: string)
    requires NoBreaks(line) && IsNewline(sep)
    ensures Split(line + sep + rest, sep) == [line] + Split(rest, sep)
    ensures Count(line + sep + rest, sep) == 1 + Count(rest, sep)
    decreases |line|
  {
    var text := line + sep + rest;
    if line == "" {
      assert text == sep + rest && text[|sep|..] == rest;
    } else {
      assert text[0] == line[0] && sep[0] != line[0];
      assert text[1..] == line[1..] + sep + rest;
      SplitFirst(line[1..], rest, sep);
      assert [line[0]] + line[1..] == line;
    }
  }

  lemma {:induction false} SplitLast(line: Line, sep: string)
    requires NoBreaks(line) && IsNewline(sep)
    ensures Split(line, sep) == [line] && Count(line, sep) == 0
  {
    if line != "" {
      assert sep[0] != line[0];
      SplitLast(line[1..], sep);
      assert [line[0]] + line[1..] == line;
    }
  }

  /** Splitting undoes joining, for lines without line breaks. */
  lemma {:induction false} SplitJoin(lines: seq<Line>, sep: string)
    requires lines != [] && CleanLines(lines) && IsNewline(sep)
    ensures Split(Join(lines, sep), sep) == lines
    ensures Count(Join(lines, sep), sep) == |lines| - 1
    decreases |lines|
  {
    if |lines| == 1 {
      SplitLast(lines[0], sep);
    } else {
      SplitJoin(lines[1..], sep);
      SplitFirst(lines[0], Join(lines[1..], sep), sep);
    }
  }

  /** Counting one character is additive. */
  lemma {:induction false} CountConcat(a: string, b: string, c: char)
    ensures Count(a + b, [c]) == Count(a, [c]) + Count(b, [c])
    decreases |a|
  {
    if a == "" {
      assert a + b == b;
    } else {
      assert (a + b)[1..] == a[1..] + b && (a + b)[0] == a[0];
      CountConcat(a[1..], b, c);
      CountStep(a, c);
      CountStep(a + b, c);
    }
  }

  lemma CountStep(text: string, c: char)
    requires text != ""
    ensures Count(text, [c]) == (if text[0] == c then 1 else 0) + Count(text[1..], [c])
  {
    assert [c] <= text <==> text[0] == c;
  }

  lemma {:induction false} JoinCounts(lines: seq<Line>, sep: string, c: char)
    requires lines != [] && CleanLines(lines) && (c == '\r' || c == '\n')
    ensures Count(Join(lines, sep), [c]) == (|lines| - 1) * Count(sep, [c])
    decreases |lines|
  {
    NoneOf(lines[0], c);
    if |lines| > 1 {
      JoinCounts(lines[1..], sep, c);
      CountConcat(lines[0] + sep, Join(lines[1..], sep), c);
      CountConcat(lines[0], sep, c);
    }
  }

  lemma {:induction false} NoneOf(line: Line, c: char)
    requires forall i :: 0 <= i < |line| ==> line[i] != c
    ensures Count(line, [c]) == 0
  {
    if line != "" {
      CountStep(line, c);
      NoneOf(line[1..], c);
    }
  }

  /** Without a carriage return there is no CRLF. */
  lemma {:induction false} NoCrlf(text: string)
    ensures Count(text, CR) == 0 ==> Count(text, CRLF) == 0
    decreases |text|
  {
    if text != "" {
      CountStep(text, '\r');
      NoCrlf(text[1..]);
    }
  }

  /** Where every carriage return and line feed is part of a CRLF, the parts hold neither. */
  lemma {:induction false} CrlfParts(text: string, c: char)
    requires c == '\r' || c == '\n'
    ensures Count(text, [c]) >= Count(text, CRLF)
    ensures Count(text, [c]) == Count(text, CRLF) ==>
              forall i :: 0 <= i < |Split(text, CRLF)| ==> c !in Split(text, CRLF)[i]
    decreases |text|
  {
    if text != "" {
      CountStep(text, c);
      if CRLF <= text {
        CountStep(text[1..], c);
        assert text[1..][1..] == text[2..];
        CrlfParts(text[2..], c);
      } else {
        CrlfParts(text[1..], c);
      }
    }
  }

  lemma {:induction false} LfParts(text: string)
    ensures forall i :: 0 <= i < |Split(text, LF)| ==> '\n' !in Split(text, LF)[i]
    ensures Count(text, CR) == 0 ==> forall i :: 0 <= i < |Split(text, LF)| ==> '\r' !in Split(text, LF)[i]
    decreases |text|
  {
    if text != "" {
      CountStep(text, '\r');
      LfParts(text[1..]);
    }
  }

  /** What `_split_lines` cuts the text into: parts without line breaks. */
  lemma AllClean(text: string)
    requires SplitLines(text).Parts?
    ensures CleanLines(Split(text, if Count(text, CRLF) > 0 then CRLF else LF))
  {
    hide Split, Count, EndsWith;
    var newline := if Count(text, CRLF) > 0 then CRLF else LF;
    var all := Split(text, newline);
    if newline == CRLF {
      CrlfParts(text, '\r');
      CrlfParts(text, '\n');
    } else {
      LfParts(text);
    }
    forall i | 0 <= i < |all| ensures NoBreaks(all[i]) {
      assert '\r' !in all[i] && '\n' !in all[i];
    }
  }

  lemma EndChar(text: string, tail: string)
    requires tail != "" && EndsWith(text, tail)
    ensures text != "" && text[|text| - 1] == tail[|tail| - 1]
  {
    assert text[|text| - |tail|..][|tail| - 1] == text[|text| - 1];
  }

  /** A line without line breaks ends with no newline. */
  lemma NoEnd(front: string, line: Line, sep: string)
    requires NoBreaks(line) && IsNewline(sep) && (line != "" || front == "")
    ensures !EndsWith(front + line, sep)
  {
    if EndsWith(front + line, sep) {
      EndChar(front + line, sep);
      assert false;
    }
  }

  /** The last part is empty exactly when the text ends with its newline. */
  lemma {:induction false} JoinEnds(lines: seq<Line>, sep: string)
    requires lines != [] && CleanLines(lines) && IsNewline(sep)
    ensures EndsWith(Join(lines, sep), sep) <==> |lines| > 1 && lines[|lines| - 1] == ""
    decreases |lines|
  {
    hide EndsWith;
    if |lines| == 1 {
      assert "" + lines[0] == lines[0];
      NoEnd("", lines[0], sep);
    } else {
      var rest := Join(lines[1..], sep);
      JoinEnds(lines[1..], sep);
      if |lines| > 2 {
        JoinLong(lines[1..], sep);
        EndsLater(lines[0] + sep, rest, sep);
      } else if lines[1] == "" {
        EndsNow(lines[0], sep);
        assert lines[0] + sep + "" == lines[0] + sep;
      } else {
        NoEnd(lines[0] + sep, lines[1], sep);
      }
    }
  }

  lemma EndsLater(front: string, text: string, sep: string)
    requires |text| >= |sep|
    ensures EndsWith(front + text, sep) <==> EndsWith(text, sep)
  {
    assert (front + text)[|front + text| - |sep|..] == text[|text| - |sep|..];
  }

  lemma EndsNow(front: string, sep: string)
    ensures EndsWith(front + sep, sep)
  {
  }

  lemma JoinLong(lines: seq<Line>, sep: string)
    requires |lines| > 1
    ensures |Join(lines, sep)| >= |sep|
  {
  }

  /** Text written from clean lines reads back as those lines. */
  lemma SplitLinesJoin(lines: seq<Line>, newline: string, trailing: bool)
    requires |lines| > 1 && CleanLines(lines) && IsNewline(newline)
    requires trailing || lines[|lines| - 1] != ""
    ensures SplitLines(JoinLines(lines, newline, trailing)) == Parts(lines, newline, trailing)
  {
    hide Split, Count, Join, EndsWith;
    var all := if trailing then lines + [""] else lines;
    var text := Join(all, newline);
    assert JoinLines(lines, newline, trailing) == text by {
      if trailing {
        JoinSnoc(lines, newline);
      } else {
        assert text + "" == text;
      }
    }
    SplitJoin(all, newline);
    JoinEnds(all, newline);
    JoinCounts(all, newline, '\r');
    JoinCounts(all, newline, '\n');
    NewlineCounts();
    assert all[..|all| - 1] == lines || !trailing;
    if newline == LF {
      NoCrlf(text);
    }
  }

  lemma NewlineCounts()
    ensures Count(LF, CR) == 0 && Count(LF, LF) == 1 && Count(CRLF, CR) == 1 && Count(CRLF, LF) == 1
  {
    CountStep(LF, '\r');
    CountStep(LF, '\n');
    CountStep(CRLF, '\r');
    CountStep(CRLF, '\n');
    assert CRLF[1..] == LF;
  }

  lemma {:induction false} JoinSnoc(lines: seq<Line>, sep: string)
    requires lines != []
    ensures Join(lines + [""], sep) == Join(lines, sep) + sep
    decreases |lines|
  {
    assert (lines + [""])[1..] == lines[1..] + [""];
    if |lines| > 1 {
      JoinSnoc(lines[1..], sep);
      assert lines[0] + sep + (Join(lines[1..], sep) + sep) == (lines[0] + sep + Join(lines[1..], sep)) + sep;
    } else {
      assert (lines + [""])[1..] == [""];
      assert lines[0] + sep + "" == lines[0] + sep;
    }
  }

  /** The whole text is recovered from its lines. */
  lemma JoinLinesSplit(text: string)
    requires SplitLines(text).Parts?
    ensures var r := SplitLines(text);
            && r.lines != [] && JoinLines(r.lines, r.newline, r.trailing) == text
            && (!r.trailing && |r.lines| > 1 ==> r.lines[|r.lines| - 1] != "")
            && (r.newline == CRLF ==> |r.lines| > 1 || r.trailing)
  {
    hide Split, Count, Join, EndsWith;
    var newline := if Count(text, CRLF) > 0 then CRLF else LF;
    var all := Split(text, newline);
    JoinSplit(text, newline);
    AllClean(text);
    JoinEnds(all, newline);
    if EndsWith(text, newline) {
      var lines := all[..|all| - 1];
      assert all == lines + [""];
      JoinSnoc(lines, newline);
    } else {
      SplitJoin(all, newline);
    }
  }


  lemma SplitLinesClean(text: string)
    requires SplitLines(text).Parts?
    ensures var r := SplitLines(text); CleanLines(r.lines) && IsNewline(r.newline)
  {
    hide Split, Count, EndsWith, NoBreaks;
    AllClean(text);
  }

  /** Lines without breaks joined by one newline are never refused. */
  lemma JoinedIsNotMixed(all: seq<Line>, sep: string)
    requires all != [] && CleanLines(all) && IsNewline(sep)
    ensures SplitLines(Join(all, sep)).Parts?
  {
    hide Split, Join, EndsWith, Count;
    var text := Join(all, sep);
    JoinCounts(all, sep, '\r');
    JoinCounts(all, sep, '\n');
    if sep == LF {
      assert Count(LF, CR) == 0 by { NewlineCounts(); }
      NoCrlf(text);
    } else {
      NewlineCounts();
      SplitJoin(all, sep);
    }
  }

  /** A text is split exactly when it uses one newline throughout, and no stray carriage return. */
  lemma OneConvention(text: string)
    ensures SplitLines(text).Parts?
       <==> exists all: seq<Line>, sep ::
              all != [] && CleanLines(all) && IsNewline(sep) && text == Join(all, sep)
  {
    hide Split, Join, EndsWith, Count, CleanLines;
    if SplitLines(text).Parts? {
      var sep := if Count(text, CRLF) > 0 then CRLF else LF;
      AllClean(text);
      JoinSplit(text, sep);
      assert text == Join(Split(text, sep), sep);
    }
    if all: seq<Line>, sep :| all != [] && CleanLines(all) && IsNewline(sep) && text == Join(all, sep) {
      JoinedIsNotMixed(all, sep);
    }
  }
}
