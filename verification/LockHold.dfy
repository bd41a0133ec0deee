/** The lock-hold sidecar (`_lock_hold.py`): which records a day's file takes, and how lines are packed
    into writes. */
module LockHold {

  const MAX_FILE_BYTES := 1_048_576
  const CEILING := 2 * MAX_FILE_BYTES

  datatype Stage = Cap | Ceiling

  /** A hold record by its serialized length and whether its hold or wait is at warn level. */
  datatype Record = Record(length: nat, warn: bool)

  /** One line of the sidecar. */
  datatype Line = Hold(record: Record) | Marker(stage: Stage, length: nat) {
    function Length(): nat {
      match this case Hold(r) => r.length case Marker(_, n) => n
    }
  }

  function Size(lines: seq<Line>): nat {
    if lines == [] then 0 else Size(lines[..|lines| - 1]) + lines[|lines| - 1].Length()
  }

  /** What one batch brings: its records, and the lengths its marker lines would have. */
  datatype Batch = Batch(records: seq<Record>, capLength: nat, ceilingLength: nat)

  predicate Takes(size: nat, r: Record) {
    !(size >= CEILING || (size >= MAX_FILE_BYTES && !r.warn))
  }

  /** The lines one record adds to a file of `size` bytes. */
  function Added(size: nat, r: Record, b: Batch): seq<Line> {
    if !Takes(size, r) then []
    else
      var line := [Hold(r)];
      var s1 := size + r.length;
      var cap := if size < MAX_FILE_BYTES <= s1 then [Marker(Cap, b.capLength)] else [];
      var s2 := s1 + (if size < MAX_FILE_BYTES <= s1 then b.capLength else 0);
      line + cap + (if size < CEILING <= s2 then [Marker(Ceiling, b.ceilingLength)] else [])
  }

  /** `select_lines`. */
  function Selected(size: nat, records: seq<Record>, b: Batch): seq<Line>
    decreases |records|
  {
    if records == [] then []
    else
      var lines := Added(size, records[0], b);
      lines + Selected(size + Size(lines), records[1..], b)
  }

  /** One turn of the loop in `select_lines`. */
  method AddRecord(size: nat, r: Record, b: Batch) returns (lines: seq<Line>, grown: nat)
    ensures lines == Added(size, r, b) && grown == size + Size(lines)
  {
    AddedSize(size, r, b);
    lines, grown := [], size;
    if Takes(size, r) {
      lines, grown := [Hold(r)], size + r.length;
      if size < MAX_FILE_BYTES <= grown {
        lines, grown := lines + [Marker(Cap, b.capLength)], grown + b.capLength;
      }
      if size < CEILING <= grown {
        lines, grown := lines + [Marker(Ceiling, b.ceilingLength)], grown + b.ceilingLength;
      }
    }
  }

  lemma SelectNext(size: nat, b: Batch, i: nat)
    requires i < |b.records|
    ensures var added := Added(size, b.records[i], b);
            Selected(size, b.records[i..], b) == added + Selected(size + Size(added), b.records[i + 1..], b)
  {
    hide Added, Size;
    assert b.records[i..][1..] == b.records[i + 1..];
  }

  lemma Regroup(a: seq<Line>, b: seq<Line>, c: seq<Line>)
    ensures a + (b + c) == (a + b) + c
  {
  }

  /** `select_lines` with its running size. */
  method SelectLines(b: Batch, start: nat) returns (lines: seq<Line>)
    ensures lines == Selected(start, b.records, b)
  {
    var size: nat := start;
    lines := [];
    assert b.records[0..] == b.records;
    for i := 0 to |b.records|
      invariant Selected(start, b.records, b) == lines + Selected(size, b.records[i..], b)
    {
      hide Added, Size, Selected;
      var added, grown := AddRecord(size, b.records[i], b);
      SelectNext(size, b, i);
      Regroup(lines, added, Selected(grown, b.records[i + 1..], b));
      lines, size := lines + added, grown;
    }
  }

  lemma {:induction false} SizeConcat(a: seq<Line>, b: seq<Line>)
    ensures Size(a + b) == Size(a) + Size(b)
    decreases |b|
  {
    if b == [] {
      assert a + b == a;
    } else {
      var n := |b| - 1;
      assert (a + b)[..|a + b| - 1] == a + b[..n];
      SizeConcat(a, b[..n]);
    }
  }

  lemma SizeOne(line: Line)
    ensures Size([line]) == line.Length()
  {
    assert [line][..0] == [];
    assert Size([]) == 0;
  }

  lemma AddedSize(size: nat, r: Record, b: Batch)
    ensures var s1 := size + r.length;
            var s2 := s1 + (if size < MAX_FILE_BYTES <= s1 then b.capLength else 0);
            var s3 := s2 + (if size < CEILING <= s2 then b.ceilingLength else 0);
            size + Size(Added(size, r, b)) == if Takes(size, r) then s3 else size
  {
    hide Size, Takes;
    assert Size([]) == 0 by { SizeNone(); }
    SizeOne(Hold(r));
    SizeOne(Marker(Cap, b.capLength));
    SizeOne(Marker(Ceiling, b.ceilingLength));
    var s1 := size + r.length;
    var cap := if size < MAX_FILE_BYTES <= s1 then [Marker(Cap, b.capLength)] else [];
    var s2 := s1 + (if size < MAX_FILE_BYTES <= s1 then b.capLength else 0);
    var ceiling := if size < CEILING <= s2 then [Marker(Ceiling, b.ceilingLength)] else [];
    SizeConcat([Hold(r)] + cap, ceiling);
    SizeConcat([Hold(r)], cap);
  }

  lemma SizeNone()
    ensures Size([]) == 0
  {
  }

  // ----- a day's file, batch after batch -------------------------------------------------------------

  ghost function File(batches: seq<Batch>): seq<Line>
    decreases |batches|
  {
    if batches == [] then []
    else
      var n := |batches| - 1;
      var before := File(batches[..n]);
      before + Selected(Size(before), batches[n].records, batches[n])
  }

  ghost function Marks(lines: seq<Line>, stage: Stage): nat {
    if lines == [] then 0
    else
      var last := lines[|lines| - 1];
      Marks(lines[..|lines| - 1], stage) + (if last.Marker? && last.stage == stage then 1 else 0)
  }

  predicate Fits(before: nat, line: Line) {
    match line
    case Hold(r) => Takes(before, r)
    case Marker(stage, _) => before >= if stage == Cap then MAX_FILE_BYTES else CEILING
  }

  /** Each line is in its place, given the size of what comes before it: records below the cap, at warn
      level below the ceiling; a marker only behind its threshold. */
  ghost predicate InPlace(lines: seq<Line>, i: nat)
    requires i < |lines|
  {
    Fits(Size(lines[..i]), lines[i]) && (lines[i].Marker? && lines[i].stage == Ceiling ==> i == |lines| - 1)
  }

  /** The policy a day's file keeps. */
  ghost predicate Kept(lines: seq<Line>) {
    && Marks(lines, Cap) == (if Size(lines) >= MAX_FILE_BYTES then 1 else 0)
    && Marks(lines, Ceiling) == (if Size(lines) >= CEILING then 1 else 0)
    && forall i :: 0 <= i < |lines| ==> InPlace(lines, i)
  }

  /** Appending a line that fits leaves the earlier lines in place. */
  lemma Append(lines: seq<Line>, line: Line)
    requires forall i :: 0 <= i < |lines| ==> InPlace(lines, i)
    requires Marks(lines, Ceiling) == 0
    requires Fits(Size(lines), line)
    ensures forall i :: 0 <= i < |lines| + 1 ==> InPlace(lines + [line], i)
    ensures Size(lines + [line]) == Size(lines) + line.Length()
    ensures forall stage :: Marks(lines + [line], stage)
              == Marks(lines, stage) + (if line.Marker? && line.stage == stage then 1 else 0)
  {
    var more := lines + [line];
    assert more[..|more| - 1] == lines;
    forall i | 0 <= i < |more| ensures InPlace(more, i) {
      if i < |lines| {
        assert InPlace(lines, i) && more[..i] == lines[..i];
        NoCeiling(lines, i);
      } else {
        assert more[..i] == lines;
      }
    }
  }

  lemma {:induction false} NoCeiling(lines: seq<Line>, i: nat)
    requires Marks(lines, Ceiling) == 0 && i < |lines|
    ensures lines[i] != Marker(Ceiling, lines[i].Length())
    decreases |lines|
  {
    if i < |lines| - 1 {
      NoCeiling(lines[..|lines| - 1], i);
    }
  }

  /** One record keeps the policy. */
  lemma AddedKeeps(lines: seq<Line>, r: Record, b: Batch)
    requires Kept(lines)
    ensures Kept(lines + Added(Size(lines), r, b))
  {
    hide InPlace, Size, Marks;
    var size := Size(lines);
    if !Takes(size, r) {
      assert lines + [] == lines;
    } else {
      Append(lines, Hold(r));
      var one := lines + [Hold(r)];
      var s1 := size + r.length;
      var crosses := size < MAX_FILE_BYTES <= s1;
      var cap := Marker(Cap, b.capLength);
      var two := if crosses then one + [cap] else one;
      if crosses {
        Append(one, cap);
      }
      var s2 := s1 + (if crosses then b.capLength else 0);
      assert Size(two) == s2;
      var ceiling := Marker(Ceiling, b.ceilingLength);
      if size < CEILING <= s2 {
        Append(two, ceiling);
        assert lines + Added(size, r, b) == two + [ceiling];
      } else {
        assert lines + Added(size, r, b) == two;
      }
    }
  }

  lemma {:induction false} SelectedKeeps(lines: seq<Line>, records: seq<Record>, b: Batch)
    requires Kept(lines)
    ensures Kept(lines + Selected(Size(lines), records, b))
    decreases |records|
  {
    hide Kept, Added, Size;
    if records == [] {
      assert lines + [] == lines;
    } else {
      var added := Added(Size(lines), records[0], b);
      AddedKeeps(lines, records[0], b);
      SizeConcat(lines, added);
      SelectedKeeps(lines + added, records[1..], b);
      var rest := Selected(Size(lines) + Size(added), records[1..], b);
      assert lines + (added + rest) == (lines + added) + rest;
    }
  }

  /** Over any sequence of batches: one cap marker exactly when the file has reached the cap, one
      ceiling marker exactly when it has reached the ceiling, only warn-level records behind the first
      and nothing behind the second. */
  lemma {:induction false} FileKept(batches: seq<Batch>)
    ensures Kept(File(batches))
    decreases |batches|
  {
    hide Kept, Selected, Size;
    if batches == [] {
      assert Kept([]) by { EmptyKept(); }
    } else {
      var n := |batches| - 1;
      FileKept(batches[..n]);
      SelectedKeeps(File(batches[..n]), batches[n].records, batches[n]);
    }
  }

  lemma EmptyKept()
    ensures Kept([])
  {
    assert Size([]) == 0 && Marks([], Cap) == 0 && Marks([], Ceiling) == 0;
  }

  // ----- which records are written -------------------------------------------------------------------

  /** The file up to record `i` of batch `n`. */
  ghost function UpTo(batches: seq<Batch>, n: nat, i: nat): seq<Line>
    requires n < |batches| && i <= |batches[n].records|
  {
    var before := File(batches[..n]);
    before + Selected(Size(before), batches[n].records[..i], batches[n])
  }

  lemma {:induction false} SelectedSnoc(size: nat, records: seq<Record>, r: Record, b: Batch)
    ensures var done := Selected(size, records, b);
            Selected(size, records + [r], b) == done + Added(size + Size(done), r, b)
    decreases |records|
  {
    hide Added, Size;
    if records == [] {
      assert records + [r] == [r] && [r][1..] == [];
      SizeNone();
      var added := Added(size, r, b);
      assert Selected(size + Size(added), [], b) == [] && added + [] == added && [] + added == added;
    } else {
      assert (records + [r])[1..] == records[1..] + [r];
      var first := Added(size, records[0], b);
      SelectedSnoc(size + Size(first), records[1..], r, b);
      var rest := Selected(size + Size(first), records[1..], b);
      SizeConcat(first, rest);
      Regroup(first, rest, Added(size + Size(first) + Size(rest), r, b));
    }
  }

  /** A record of the file `before` is written exactly when that is below the cap, or below the ceiling and
      the record at warn level. A cap marker follows when the record reaches the cap, and a ceiling marker
      when record and cap marker reach the ceiling. */
  ghost predicate Wrote(before: seq<Line>, r: Record, after: seq<Line>) {
    var size := Size(before);
    var reached := size + r.length;
    if size >= 2_097_152 || (size >= 1_048_576 && !r.warn) then after == before
    else
      exists c, d: nat ::
        var cap := if size < 1_048_576 <= reached then [Marker(Cap, c)] else [];
        var ceiling := if reached + Size(cap) >= 2_097_152 then [Marker(Ceiling, d)] else [];
        after == before + [Hold(r)] + cap + ceiling
  }

  lemma AddedWrote(before: seq<Line>, r: Record, b: Batch)
    ensures Wrote(before, r, before + Added(Size(before), r, b))
  {
    hide Size;
    var size := Size(before);
    if Takes(size, r) {
      var reached := size + r.length;
      var cap := if size < MAX_FILE_BYTES <= reached then [Marker(Cap, b.capLength)] else [];
      SizeNone();
      SizeOne(Marker(Cap, b.capLength));
      var ceiling := if reached + Size(cap) >= CEILING then [Marker(Ceiling, b.ceilingLength)] else [];
      assert Added(size, r, b) == [Hold(r)] + cap + ceiling;
      assert before + ([Hold(r)] + cap + ceiling) == before + [Hold(r)] + cap + ceiling;
    } else {
      assert before + [] == before;
    }
  }

  /** The day's file, record by record: each batch's records in turn, each written or not as `Wrote` says. */
  lemma RecordByRecord(batches: seq<Batch>, n: nat, i: nat)
    requires n < |batches| && i < |batches[n].records|
    ensures Wrote(UpTo(batches, n, i), batches[n].records[i], UpTo(batches, n, i + 1))
  {
    hide Wrote, Added, Size, File, Selected;
    var b, before := batches[n], File(batches[..n]);
    var size := Size(before);
    assert b.records[..i + 1] == b.records[..i] + [b.records[i]];
    SelectedSnoc(size, b.records[..i], b.records[i], b);
    var done := Selected(size, b.records[..i], b);
    SizeConcat(before, done);
    AddedWrote(before + done, b.records[i], b);
    Regroup(before, done, Added(size + Size(done), b.records[i], b));
  }

  /** Where the pieces start and end. */
  lemma UpToEnds(batches: seq<Batch>, n: nat)
    requires n < |batches|
    ensures UpTo(batches, n, 0) == File(batches[..n])
    ensures UpTo(batches, n, |batches[n].records|) == File(batches[..n + 1])
    ensures File([]) == []
  {
    hide Added, Size;
    var b := batches[n];
    assert b.records[..0] == [] && b.records[..|b.records|] == b.records;
    assert batches[..n + 1][..n] == batches[..n] && batches[..n + 1][n] == b;
    assert File(batches[..n]) + [] == File(batches[..n]);
  }

  /** Behind a marker: sizes only grow along the file. */
  lemma {:induction false} SizeGrows(lines: seq<Line>, i: nat, j: nat)
    requires i <= j <= |lines|
    ensures Size(lines[..i]) <= Size(lines[..j])
    decreases j
  {
    if i < j {
      SizeGrows(lines, i, j - 1);
      assert lines[..j][..j - 1] == lines[..j - 1];
    }
  }

  lemma OnlyWarnBehindCap(batches: seq<Batch>, i: nat, j: nat)
    requires var f := File(batches); i < j < |f| && f[i].Marker?
    ensures var f := File(batches); f[i].stage == Cap && (f[j].Hold? ==> f[j].record.warn)
  {
    hide File, Size, Marks;
    FileKept(batches);
    var f := File(batches);
    assert InPlace(f, i) && InPlace(f, j);
    SizeGrows(f, i, j);
  }

  /** The bound: the ceiling, one record and two markers. */
  ghost predicate Bounded(lines: seq<Line>, longest: nat, cap: nat, ceiling: nat) {
    Size(lines) < CEILING + longest + cap + ceiling
  }

  ghost predicate Within(b: Batch, longest: nat, cap: nat, ceiling: nat) {
    && b.capLength <= cap && b.ceilingLength <= ceiling
    && forall i :: 0 <= i < |b.records| ==> b.records[i].length <= longest
  }

  lemma {:induction false} SelectedBounded(size: nat, records: seq<Record>, b: Batch, longest: nat, cap: nat,
                                           ceiling: nat)
    requires size < CEILING + longest + cap + ceiling && b.capLength <= cap && b.ceilingLength <= ceiling
    requires forall i :: 0 <= i < |records| ==> records[i].length <= longest
    ensures size + Size(Selected(size, records, b)) < CEILING + longest + cap + ceiling
    decreases |records|
  {
    hide Size, Added;
    if records == [] {
      SizeNone();
    } else {
      var added := Added(size, records[0], b);
      AddedSize(size, records[0], b);
      SelectedBounded(size + Size(added), records[1..], b, longest, cap, ceiling);
      SizeConcat(added, Selected(size + Size(added), records[1..], b));
    }
  }

  lemma {:induction false} FileBounded(batches: seq<Batch>, longest: nat, cap: nat, ceiling: nat)
    requires forall i :: 0 <= i < |batches| ==> Within(batches[i], longest, cap, ceiling)
    ensures Bounded(File(batches), longest, cap, ceiling)
    decreases |batches|
  {
    hide Selected, Size;
    if batches == [] {
      SizeNone();
    } else {
      var n := |batches| - 1;
      FileBounded(batches[..n], longest, cap, ceiling);
      var before := File(batches[..n]);
      assert Within(batches[n], longest, cap, ceiling);
      SelectedBounded(Size(before), batches[n].records, batches[n], longest, cap, ceiling);
      SizeConcat(before, Selected(Size(before), batches[n].records, batches[n]));
    }
  }

  // ----- packing lines into writes ---------------------------------------------------------------------

  type Bytes = seq<bv8>

  function Concat(parts: seq<Bytes>): Bytes {
    if parts == [] then [] else Concat(parts[..|parts| - 1]) + parts[|parts| - 1]
  }

  /** The chunks are the lines between consecutive cuts. */
  ghost predicate CutAt(chunks: seq<Bytes>, lines: seq<Bytes>, cuts: seq<nat>) {
    && |cuts| == |chunks| + 1 && cuts[0] == 0
    && (forall i :: 0 <= i < |chunks| ==> IsSlice(chunks[i], lines, cuts[i], cuts[i + 1]))
  }

  ghost predicate IsSlice(chunk: Bytes, lines: seq<Bytes>, a: nat, b: nat) {
    a <= b <= |lines| && chunk == Concat(lines[a..b])
  }

  ghost predicate Packed(chunk: Bytes, lines: seq<Bytes>, limit: nat) {
    chunk != [] && (|chunk| <= limit || chunk in lines)
  }

  /** No chunk could have taken the line behind it. */
  ghost predicate Full(chunks: seq<Bytes>, cuts: seq<nat>, lines: seq<Bytes>, limit: nat) {
    |cuts| == |chunks| + 1 && forall i :: 0 <= i < |chunks| ==> IsFull(chunks[i], cuts[i + 1], lines, limit)
  }

  ghost predicate IsFull(chunk: Bytes, next: nat, lines: seq<Bytes>, limit: nat) {
    next < |lines| ==> |chunk| + |lines[next]| > limit
  }

  lemma FullSnoc(chunks: seq<Bytes>, cuts: seq<nat>, lines: seq<Bytes>, limit: nat, chunk: Bytes, next: nat)
    requires Full(chunks, cuts, lines, limit) && IsFull(chunk, next, lines, limit)
    ensures Full(chunks + [chunk], cuts + [next], lines, limit)
  {
    hide IsFull;
    var more, cuts' := chunks + [chunk], cuts + [next];
    forall i | 0 <= i < |more| ensures IsFull(more[i], cuts'[i + 1], lines, limit) {
      if i < |chunks| {
        assert IsFull(chunks[i], cuts[i + 1], lines, limit);
      }
    }
  }

  lemma ConcatSnoc(parts: seq<Bytes>, part: Bytes)
    ensures Concat(parts + [part]) == Concat(parts) + part
  {
    assert (parts + [part])[..|parts|] == parts;
  }

  /** Everything up to line `i` is in the chunks or in the one being filled. */
  ghost predicate Packing(chunks: seq<Bytes>, cuts: seq<nat>, current: Bytes, lines: seq<Bytes>, i: nat, limit: nat) {
    && i <= |lines| && CutAt(chunks, lines, cuts) && IsSlice(current, lines, cuts[|chunks|], i)
    && Concat(chunks) + current == Concat(lines[..i])
    && (forall k :: 0 <= k < |chunks| ==> Packed(chunks[k], lines, limit))
    && (current != [] ==> Packed(current, lines, limit))
  }

  lemma Flush(chunks: seq<Bytes>, cuts: seq<nat>, current: Bytes, lines: seq<Bytes>, i: nat, limit: nat)
    requires Packing(chunks, cuts, current, lines, i, limit) && current != []
    ensures Packing(chunks + [current], cuts + [i], [], lines, i, limit)
  {
    hide Concat, Packed;
    ConcatSnoc(chunks, current);
    ConcatNone();
    assert lines[i..i] == [];
    var more, cuts' := chunks + [current], cuts + [i];
    assert Concat(more) + [] == Concat(more);
    forall k | 0 <= k < |more| ensures IsSlice(more[k], lines, cuts'[k], cuts'[k + 1]) {
      if k < |chunks| {
        assert IsSlice(chunks[k], lines, cuts[k], cuts[k + 1]);
      }
    }
  }

  lemma Grow(chunks: seq<Bytes>, cuts: seq<nat>, current: Bytes, lines: seq<Bytes>, i: nat, limit: nat)
    requires Packing(chunks, cuts, current, lines, i, limit) && i < |lines|
    requires current == [] || |current| + |lines[i]| <= limit
    ensures Packing(chunks, cuts, current + lines[i], lines, i + 1, limit)
  {
    hide Concat;
    var line, from := lines[i], cuts[|chunks|];
    assert lines[..i + 1] == lines[..i] + [line];
    ConcatSnoc(lines[..i], line);
    assert lines[from..i + 1] == lines[from..i] + [line];
    ConcatSnoc(lines[from..i], line);
    assert Concat(chunks) + (current + line) == (Concat(chunks) + current) + line;
    assert current == [] ==> current + line == line;
  }

  /** `chunk_lines`: the bytes in order, cut only between lines; a chunk over the limit is one line,
      and no chunk could have taken the next line. */
  method ChunkLines(lines: seq<Bytes>, limit: nat) returns (chunks: seq<Bytes>, ghost cuts: seq<nat>)
    ensures Concat(chunks) == Concat(lines)
    ensures CutAt(chunks, lines, cuts)
    ensures forall i :: 0 <= i < |chunks| ==> Packed(chunks[i], lines, limit)
    ensures Full(chunks, cuts, lines, limit)
  {
    hide Concat, Packed, Full;
    assert Full([], [0], lines, limit) by { NoneFull(lines, limit); }
    chunks, cuts := [], [0];
    var current: Bytes := [];
    ConcatNone();
    assert lines[0..0] == [] && lines[..0] == [];
    for i := 0 to |lines|
      invariant Packing(chunks, cuts, current, lines, i, limit) && Full(chunks, cuts, lines, limit)
    {
      if current != [] && |current| + |lines[i]| > limit {
        FullSnoc(chunks, cuts, lines, limit, current, i);
        Flush(chunks, cuts, current, lines, i, limit);
        chunks, cuts, current := chunks + [current], cuts + [i], [];
      }
      Grow(chunks, cuts, current, lines, i, limit);
      current := current + lines[i];
    }
    assert lines[..|lines|] == lines;
    if current != [] {
      Flush(chunks, cuts, current, lines, |lines|, limit);
      FullSnoc(chunks, cuts, lines, limit, current, |lines|);
      chunks, cuts := chunks + [current], cuts + [|lines|];
    }
    assert Concat(chunks) + [] == Concat(chunks);
  }

  lemma NoneFull(lines: seq<Bytes>, limit: nat)
    ensures Full([], [0], lines, limit)
  {
  }

  lemma ConcatNone()
    ensures Concat([]) == []
  {
  }
}
