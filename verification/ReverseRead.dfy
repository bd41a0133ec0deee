/** The bounded reverse read that recovers the next offset of a channel log (`event_bus.py`
    `_iter_line_groups_reverse`, `_last_offset_from_reverse_scan`, `load_offset_from_file`). */
module ReverseRead {
  import opened Common
  import opened Lines

  /** Which pieces decode to a non-blank line, and which lines are records with an offset. */
  datatype Codec = Codec(decode: imap<Bytes, string>, offset: imap<string, int>)

  /** `bytes.split(b"\n")`. */
  function Pieces(b: Bytes): (ps: seq<Bytes>)
    ensures ps != []
  {
    if b == [] then [[]]
    else
      var rest := Pieces(b[1..]);
      if b[0] == NL then [[]] + rest else [[b[0]] + rest[0]] + rest[1..]
  }

  /** The decoded non-blank lines, first to last. */
  function Decoded(codec: Codec, pieces: seq<Bytes>): seq<string> {
    if pieces == [] then []
    else (if pieces[0] in codec.decode then [codec.decode[pieces[0]]] else []) + Decoded(codec, pieces[1..])
  }

  /** The order the reader meets things in. */
  function LastFirst<T>(s: seq<T>): (r: seq<T>)
    ensures |r| == |s|
  {
    if s == [] then [] else [s[|s| - 1]] + LastFirst(s[..|s| - 1])
  }

  function Concat(groups: seq<seq<string>>): seq<string> {
    if groups == [] then [] else Concat(groups[..|groups| - 1]) + groups[|groups| - 1]
  }

  lemma {:induction false} DecodedConcat(codec: Codec, a: seq<Bytes>, b: seq<Bytes>)
    ensures Decoded(codec, a + b) == Decoded(codec, a) + Decoded(codec, b)
    decreases |a|
  {
    if a == [] {
      assert a + b == b;
    } else {
      assert (a + b)[1..] == a[1..] + b;
      DecodedConcat(codec, a[1..], b);
    }
  }

  lemma LastFirstSnoc<T>(s: seq<T>, x: T)
    ensures LastFirst(s + [x]) == [x] + LastFirst(s)
  {
    assert (s + [x])[..|s + [x]| - 1] == s;
  }

  lemma {:induction false} LastFirstConcat<T>(a: seq<T>, b: seq<T>)
    ensures LastFirst(a + b) == LastFirst(b) + LastFirst(a)
    decreases |b|
  {
    hide LastFirst;
    if b == [] {
      assert a + b == a && LastFirst(b) == [];
    } else {
      var n := |b| - 1;
      assert b == b[..n] + [b[n]] && a + b == (a + b[..n]) + [b[n]];
      LastFirstConcat(a, b[..n]);
      LastFirstSnoc(a + b[..n], b[n]);
      LastFirstSnoc(b[..n], b[n]);
      Assoc([b[n]], LastFirst(b[..n]), LastFirst(a));
    }
  }

  lemma {:induction false} LastFirstMultiset<T>(s: seq<T>)
    ensures multiset(LastFirst(s)) == multiset(s)
    decreases |s|
  {
    if s != [] {
      var n := |s| - 1;
      assert s == s[..n] + [s[n]];
      LastFirstMultiset(s[..n]);
    }
  }

  lemma PiecesStep(b: Bytes)
    requires b != []
    ensures var rest := Pieces(b[1..]);
            Pieces(b) == if b[0] == NL then [[]] + rest else [[b[0]] + rest[0]] + rest[1..]
  {
  }

  /** Prepending bytes only changes the first piece. */
  lemma {:induction false} PiecesJoin(a: Bytes, b: Bytes)
    ensures Pieces(a + b) == Pieces(a + Pieces(b)[0]) + Pieces(b)[1..]
    decreases |a|
  {
    hide Pieces;
    var h, later := Pieces(b)[0], Pieces(b)[1..];
    if a == [] {
      assert a + b == b && a + h == h;
      FirstPieceWhole(b);
      assert Pieces(b) == [h] + later;
    } else {
      assert (a + b)[1..] == a[1..] + b && (a + h)[1..] == a[1..] + h;
      assert (a + b)[0] == a[0] && (a + h)[0] == a[0];
      PiecesJoin(a[1..], b);
      PiecesStep(a + b);
      PiecesStep(a + h);
      var q := Pieces(a[1..] + h);
      Assoc([[]], q, later);
      assert (q + later)[0] == q[0] && (q + later)[1..] == q[1..] + later;
      Assoc([[a[0]] + q[0]], q[1..], later);
    }
  }

  lemma {:induction false} FirstPieceWhole(b: Bytes)
    ensures Pieces(Pieces(b)[0]) == [Pieces(b)[0]]
    decreases |b|
  {
    if b != [] && b[0] != NL {
      var f := Pieces(b[1..])[0];
      FirstPieceWhole(b[1..]);
      assert ([b[0]] + f)[1..] == f;
    }
  }

  lemma ConcatSnoc(groups: seq<seq<string>>, g: seq<string>)
    ensures Concat(groups + [g]) == Concat(groups) + g
  {
    assert (groups + [g])[..|groups|] == groups;
  }

  /** What has been read so far: `carry` is the first piece of the bytes from `pos` on, and the
      groups are the decoded pieces after it, last first. */
  ghost predicate Scanned(codec: Codec, file: Bytes, pos: nat, carry: Bytes, groups: seq<seq<string>>) {
    && pos <= |file|
    && carry == Pieces(file[pos..])[0]
    && Concat(groups) == LastFirst(Decoded(codec, Pieces(file[pos..])[1..]))
  }

  lemma ScanStart(codec: Codec, file: Bytes)
    ensures Scanned(codec, file, |file|, [], [])
  {
    assert file[|file|..] == [];
    assert Pieces([])[1..] == [];
  }

  lemma ScanChunk(codec: Codec, file: Bytes, start: nat, pos: nat, carry: Bytes, groups: seq<seq<string>>)
    requires Scanned(codec, file, pos, carry, groups) && start <= pos
    ensures var raw := Pieces(file[start..pos] + carry);
            var group := LastFirst(Decoded(codec, raw[1..]));
            && Scanned(codec, file, start, raw[0], groups + [group])
            && (group == [] ==> Scanned(codec, file, start, raw[0], groups))
  {
    hide Decoded, LastFirst, Concat, Pieces;
    var raw := Pieces(file[start..pos] + carry);
    var group := LastFirst(Decoded(codec, raw[1..]));
    var later := Pieces(file[pos..])[1..];
    assert file[start..] == file[start..pos] + file[pos..];
    PiecesJoin(file[start..pos], file[pos..]);
    assert Pieces(file[start..])[1..] == raw[1..] + later;
    DecodedConcat(codec, raw[1..], later);
    LastFirstConcat(Decoded(codec, raw[1..]), Decoded(codec, later));
    ConcatSnoc(groups, group);
    assert Concat(groups) + [] == Concat(groups);
  }

  lemma ScanEnd(codec: Codec, file: Bytes, carry: Bytes, groups: seq<seq<string>>)
    requires Scanned(codec, file, 0, carry, groups)
    ensures var last := if carry in codec.decode then groups + [[codec.decode[carry]]] else groups;
            Concat(last) == LastFirst(Decoded(codec, Pieces(file)))
  {
    hide LastFirst, Concat, Pieces, Decoded;
    assert file[0..] == file;
    var all := Pieces(file);
    assert all == [carry] + all[1..];
    DecodedConcat(codec, [carry], all[1..]);
    OneDecoded(codec, carry);
    LastFirstConcat(Decoded(codec, [carry]), Decoded(codec, all[1..]));
    if carry in codec.decode {
      ConcatSnoc(groups, [codec.decode[carry]]);
    } else {
      assert Concat(groups) + [] == Concat(groups);
    }
  }

  lemma OneDecoded(codec: Codec, piece: Bytes)
    ensures var d := if piece in codec.decode then [codec.decode[piece]] else [];
            Decoded(codec, [piece]) == d && LastFirst(d) == d
  {
    assert [piece][1..] == [] && Decoded(codec, []) == [];
    if piece in codec.decode {
      var d := [codec.decode[piece]];
      assert d[..0] == [] && LastFirst(d[..0]) == [];
    }
  }

  /** The groups still to come when the bytes before `pos` are unread and `carry` is pending. */
  function Groups(codec: Codec, file: Bytes, pos: nat, carry: Bytes, chunk: nat): seq<seq<string>>
    requires pos <= |file| && 0 < chunk
    decreases pos
  {
    if pos == 0 then if carry in codec.decode then [[codec.decode[carry]]] else []
    else
      var start := if pos > chunk then pos - chunk else 0;
      var raw := Pieces(file[start..pos] + carry);
      var group := LastFirst(Decoded(codec, raw[1..]));
      (if group == [] then [] else [group]) + Groups(codec, file, start, raw[0], chunk)
  }

  /** For every file and every positive chunk size the groups, joined, are the decodable
      non-blank lines of the file, last first. */
  lemma GroupsAreTheLines(codec: Codec, file: Bytes, chunk: nat)
    requires 0 < chunk
    ensures Concat(Groups(codec, file, |file|, [], chunk)) == LastFirst(Decoded(codec, Pieces(file)))
  {
    ScanStart(codec, file);
    GroupsFrom(codec, file, |file|, [], [], chunk);
    assert [] + Groups(codec, file, |file|, [], chunk) == Groups(codec, file, |file|, [], chunk);
  }

  lemma {:induction false} GroupsFrom(codec: Codec, file: Bytes, pos: nat, carry: Bytes, done: seq<seq<string>>,
                                      chunk: nat)
    requires 0 < chunk && Scanned(codec, file, pos, carry, done) && pos <= |file|
    ensures Concat(done + Groups(codec, file, pos, carry, chunk)) == LastFirst(Decoded(codec, Pieces(file)))
    decreases pos
  {
    hide Decoded, LastFirst, Concat, Pieces, Scanned;
    var todo := Groups(codec, file, pos, carry, chunk);
    if pos == 0 {
      ScanEnd(codec, file, carry, done);
      assert done + [] == done;
    } else {
      var start := if pos > chunk then pos - chunk else 0;
      ScanChunk(codec, file, start, pos, carry, done);
      var raw := Pieces(file[start..pos] + carry);
      var group := LastFirst(Decoded(codec, raw[1..]));
      var rest := Groups(codec, file, start, raw[0], chunk);
      var done' := if group == [] then done else done + [group];
      GroupsFrom(codec, file, start, raw[0], done', chunk);
      if group == [] {
        assert [] + rest == rest;
      } else {
        Assoc(done, [group], rest);
      }
    }
  }

  /** Moving the next group from the groups to come to those already read. */
  lemma NextGroup(codec: Codec, file: Bytes, pos: nat, carry: Bytes, chunk: nat, done: seq<seq<string>>)
    requires pos <= |file| && 0 < chunk
    ensures if pos == 0 then
              done + Groups(codec, file, pos, carry, chunk) ==
              if carry in codec.decode then done + [[codec.decode[carry]]] else done
            else
              var start := if pos > chunk then pos - chunk else 0;
              var raw := Pieces(file[start..pos] + carry);
              var group := LastFirst(Decoded(codec, raw[1..]));
              done + Groups(codec, file, pos, carry, chunk) ==
              (if group == [] then done else done + [group]) + Groups(codec, file, start, raw[0], chunk)
  {
    hide Pieces, LastFirst, Decoded;
    if pos == 0 {
      assert done + [] == done;
    } else {
      var start := if pos > chunk then pos - chunk else 0;
      var raw := Pieces(file[start..pos] + carry);
      var rest := Groups(codec, file, start, raw[0], chunk);
      Assoc(done, [LastFirst(Decoded(codec, raw[1..]))], rest);
      assert [] + rest == rest;
    }
  }

  /** `_iter_line_groups_reverse`. */
  method LineGroupsReverse(codec: Codec, file: Bytes, chunk: nat) returns (groups: seq<seq<string>>)
    requires 0 < chunk
    ensures groups == Groups(codec, file, |file|, [], chunk)
    ensures Concat(groups) == LastFirst(Decoded(codec, Pieces(file)))
  {
    var pos: nat, carry := |file|, [];
    groups := [];
    GroupsAreTheLines(codec, file, chunk);
    hide *;
    assert groups + Groups(codec, file, pos, carry, chunk) == Groups(codec, file, |file|, [], chunk);
    while pos > 0
      invariant pos <= |file|
      invariant groups + Groups(codec, file, pos, carry, chunk) == Groups(codec, file, |file|, [], chunk)
      decreases pos
    {
      var start := if pos > chunk then pos - chunk else 0;
      var rawLines := Pieces(file[start..pos] + carry);
      var group := LastFirst(Decoded(codec, rawLines[1..]));
      NextGroup(codec, file, pos, carry, chunk, groups);
      pos, carry := start, rawLines[0];
      if group != [] {
        groups := groups + [group];
      }
    }
    NextGroup(codec, file, 0, carry, chunk, groups);
    if carry in codec.decode {
      groups := groups + [[codec.decode[carry]]];
    }
  }

  // ----- the last offset -------------------------------------------------------------------------

  /** The offsets of the records among `lines`, in order. */
  function Offsets(codec: Codec, lines: seq<string>): seq<int> {
    if lines == [] then []
    else (if lines[0] in codec.offset then [codec.offset[lines[0]]] else []) + Offsets(codec, lines[1..])
  }

  lemma {:induction false} OffsetsConcat(codec: Codec, a: seq<string>, b: seq<string>)
    ensures Offsets(codec, a + b) == Offsets(codec, a) + Offsets(codec, b)
    decreases |a|
  {
    if a == [] {
      assert a + b == b;
    } else {
      assert (a + b)[1..] == a[1..] + b;
      OffsetsConcat(codec, a[1..], b);
    }
  }

  function Max(s: seq<int>): (m: int)
    requires s != []
    ensures m in s && forall i :: 0 <= i < |s| ==> s[i] <= m
  {
    if |s| == 1 then s[0]
    else
      var m := Max(s[1..]);
      if s[0] >= m then s[0] else m
  }

  /** The offsets of the first group that has any: where the reverse read stops. */
  function TailOffsets(codec: Codec, groups: seq<seq<string>>): seq<int> {
    if groups == [] then []
    else if Offsets(codec, groups[0]) != [] then Offsets(codec, groups[0])
    else TailOffsets(codec, groups[1..])
  }

  /** `_last_offset_from_reverse_scan` over the groups in reading order. */
  method LastOffset(codec: Codec, groups: seq<seq<string>>) returns (r: Option<int>)
    ensures var tail := TailOffsets(codec, groups); r == if tail == [] then None else Some(Max(tail))
  {
    hide Offsets, Max;
    assert groups[0..] == groups;
    for i := 0 to |groups|
      invariant TailOffsets(codec, groups) == TailOffsets(codec, groups[i..])
    {
      assert groups[i..][1..] == groups[i + 1..];
      var offsets := Offsets(codec, groups[i]);
      if offsets != [] {
        return Some(Max(offsets));
      }
    }
    return None;
  }

  /** The offsets of a log file, in file order. */
  ghost function FileOffsets(codec: Codec, file: Bytes): seq<int> {
    Offsets(codec, Decoded(codec, Pieces(file)))
  }

  lemma {:induction false} OffsetsLastFirst(codec: Codec, lines: seq<string>)
    ensures Offsets(codec, LastFirst(lines)) == LastFirst(Offsets(codec, lines))
    decreases |lines|
  {
    hide Offsets;
    if lines == [] {
      NoneIn(codec);
    } else {
      var n := |lines| - 1;
      assert lines == lines[..n] + [lines[n]];
      OffsetsLastFirst(codec, lines[..n]);
      OffsetsConcat(codec, [lines[n]], LastFirst(lines[..n]));
      OffsetsConcat(codec, lines[..n], [lines[n]]);
      LastFirstConcat(Offsets(codec, lines[..n]), Offsets(codec, [lines[n]]));
      OneOffset(codec, lines[n]);
    }
  }

  lemma NoneIn(codec: Codec)
    ensures Offsets(codec, []) == []
  {
  }

  lemma OneOffset(codec: Codec, line: string)
    ensures LastFirst(Offsets(codec, [line])) == Offsets(codec, [line])
  {
    assert [line][1..] == [] && Offsets(codec, []) == [];
    if line in codec.offset {
      assert Offsets(codec, [line]) == [codec.offset[line]] + [] == [codec.offset[line]];
      assert [codec.offset[line]][..0] == [];
    }
  }

  // ----- where the read stops ------------------------------------------------------------------------

  /** The offsets of the records whose line starts after byte `b`, in file order. */
  ghost function RecordsAfter(codec: Codec, file: Bytes, b: nat): seq<int>
    requires b <= |file|
  {
    Offsets(codec, Decoded(codec, Pieces(file[b..])[1..]))
  }

  function Before(pos: nat, chunk: nat): nat {
    if pos > chunk then pos - chunk else 0
  }

  /** The chunk boundary the read stops at: the first one, going back from the end, behind which a
      record starts; -1 when only the line at the very start of the file is left. */
  ghost function StopAt(codec: Codec, file: Bytes, pos: nat, chunk: nat): (stop: int)
    requires pos <= |file| && 0 < chunk
    ensures -1 <= stop <= pos && (stop >= 0 ==> RecordsAfter(codec, file, stop) != [])
    ensures stop < 0 && pos > 0 ==> RecordsAfter(codec, file, 0) == []
    decreases pos
  {
    if pos == 0 then -1
    else if RecordsAfter(codec, file, Before(pos, chunk)) != [] then Before(pos, chunk)
    else StopAt(codec, file, Before(pos, chunk), chunk)
  }

  /** The offsets in the last read that holds a record. The line at the start of the file is always a
      read of its own. */
  ghost function LastRead(codec: Codec, file: Bytes, chunk: nat): seq<int>
    requires 0 < chunk
  {
    var stop := StopAt(codec, file, |file|, chunk);
    if stop >= 0 then RecordsAfter(codec, file, stop) else FileOffsets(codec, file)
  }

  /** The records behind an earlier byte are those between and those behind the later one. */
  lemma RecordsBetween(codec: Codec, file: Bytes, start: nat, pos: nat)
    requires start <= pos <= |file|
    ensures var raw := Pieces(file[start..pos] + Pieces(file[pos..])[0]);
            && raw[0] == Pieces(file[start..])[0]
            && RecordsAfter(codec, file, start)
               == Offsets(codec, Decoded(codec, raw[1..])) + RecordsAfter(codec, file, pos)
  {
    hide Decoded, Pieces, Offsets;
    var raw, later := Pieces(file[start..pos] + Pieces(file[pos..])[0]), Pieces(file[pos..])[1..];
    assert file[start..] == file[start..pos] + file[pos..];
    PiecesJoin(file[start..pos], file[pos..]);
    assert Pieces(file[start..])[1..] == raw[1..] + later;
    DecodedConcat(codec, raw[1..], later);
    OffsetsConcat(codec, Decoded(codec, raw[1..]), Decoded(codec, later));
  }

  /** All offsets of a file: the first line's and those behind byte 0. */
  lemma FirstAndRest(codec: Codec, file: Bytes)
    ensures FileOffsets(codec, file) == Offsets(codec, Decoded(codec, [Pieces(file)[0]])) + RecordsAfter(codec, file, 0)
  {
    hide Decoded, Pieces, Offsets;
    assert file[0..] == file;
    var all := Pieces(file);
    assert all == [all[0]] + all[1..];
    DecodedConcat(codec, [all[0]], all[1..]);
    OffsetsConcat(codec, Decoded(codec, [all[0]]), Decoded(codec, all[1..]));
  }

  /** What the reverse scan finds, in terms of the file alone. */
  lemma {:induction false} TailIsLastRead(codec: Codec, file: Bytes, pos: nat, chunk: nat)
    requires pos <= |file| && 0 < chunk && RecordsAfter(codec, file, pos) == []
    ensures var stop := StopAt(codec, file, pos, chunk);
            TailOffsets(codec, Groups(codec, file, pos, Pieces(file[pos..])[0], chunk)) ==
            LastFirst(if stop >= 0 then RecordsAfter(codec, file, stop) else FileOffsets(codec, file))
    decreases pos
  {
    hide Decoded, Pieces, Offsets, LastFirst, FileOffsets, RecordsAfter;
    var carry := Pieces(file[pos..])[0];
    if pos == 0 {
      TailOfFirst(codec, file);
    } else {
      var start := Before(pos, chunk);
      var raw := Pieces(file[start..pos] + carry);
      var group := LastFirst(Decoded(codec, raw[1..]));
      RecordsBetween(codec, file, start, pos);
      assert Offsets(codec, Decoded(codec, raw[1..])) + [] == Offsets(codec, Decoded(codec, raw[1..]));
      OffsetsLastFirst(codec, Decoded(codec, raw[1..]));
      TailSkips(codec, group, Groups(codec, file, start, raw[0], chunk));
      LastFirstNone(RecordsAfter(codec, file, start));
      if RecordsAfter(codec, file, start) == [] {
        TailIsLastRead(codec, file, start, chunk);
      }
    }
  }

  lemma LastFirstNone(s: seq<int>)
    ensures LastFirst(s) == [] <==> s == []
  {
  }

  lemma TailSkips(codec: Codec, group: seq<string>, rest: seq<seq<string>>)
    ensures TailOffsets(codec, (if group == [] then [] else [group]) + rest) ==
            if Offsets(codec, group) != [] then Offsets(codec, group) else TailOffsets(codec, rest)
  {
    if group == [] {
      assert [] + rest == rest;
    } else {
      assert ([group] + rest)[1..] == rest && ([group] + rest)[0] == group;
    }
  }

  lemma TailOfFirst(codec: Codec, file: Bytes)
    requires RecordsAfter(codec, file, 0) == []
    ensures var carry := Pieces(file[0..])[0];
            TailOffsets(codec, if carry in codec.decode then [[codec.decode[carry]]] else [])
            == LastFirst(FileOffsets(codec, file))
  {
    hide Pieces, Offsets, LastFirst, RecordsAfter, FileOffsets;
    assert file[0..] == file;
    var carry := Pieces(file)[0];
    FirstAndRest(codec, file);
    OneDecoded(codec, carry);
    assert Offsets(codec, Decoded(codec, [carry])) + [] == Offsets(codec, Decoded(codec, [carry]));
    NoneIn(codec);
    LastFirstNone([]);
    if carry in codec.decode {
      var group := [codec.decode[carry]];
      OneOffset(codec, codec.decode[carry]);
      TailSkips(codec, group, []);
      assert [group] + [] == [group];
      LastFirstNone(Offsets(codec, group));
    }
  }

  // ----- the next offset -----------------------------------------------------------------------------

  /** One above the largest offset of the last read, 0 for a log without records. */
  ghost function NextOffset(codec: Codec, file: Bytes, chunk: nat): int
    requires 0 < chunk
  {
    var last := LastRead(codec, file, chunk);
    if last == [] then 0 else Max(last) + 1
  }

  /** `load_offset_from_file`. */
  method LoadOffset(codec: Codec, file: Bytes, chunk: nat) returns (next: int)
    requires 0 < chunk
    ensures next == NextOffset(codec, file, chunk)
  {
    var groups := LineGroupsReverse(codec, file, chunk);
    var found := LastOffset(codec, groups);
    hide Offsets, Concat, Decoded, Groups, TailOffsets, Max, LastFirst, Pieces, StopAt;
    ghost var last := LastRead(codec, file, chunk);
    assert file[|file|..] == [];
    NothingAfterEnd(codec, file);
    TailIsLastRead(codec, file, |file|, chunk);
    LastFirstNone(last);
    if found.None? {
      return 0;
    }
    MaxLastFirst(last);
    return found.value + 1;
  }

  lemma NothingAfterEnd(codec: Codec, file: Bytes)
    ensures RecordsAfter(codec, file, |file|) == [] && Pieces(file[|file|..])[0] == []
  {
    assert file[|file|..] == [];
    assert Pieces([])[1..] == [];
  }

  lemma MaxLastFirst(s: seq<int>)
    requires s != []
    ensures LastFirst(s) != [] && Max(LastFirst(s)) == Max(s)
  {
    hide Max, LastFirst;
    LastFirstMultiset(s);
    LastFirstNone(s);
    var r := LastFirst(s);
    assert Max(s) in multiset(s) && Max(r) in multiset(r);
    assert Max(s) in r && Max(r) in s;
  }

  /** The last read is the end of the file's offsets, and empty only if there are none. */
  lemma LastReadIsSuffix(codec: Codec, file: Bytes, chunk: nat) returns (before: seq<int>)
    requires 0 < chunk
    ensures FileOffsets(codec, file) == before + LastRead(codec, file, chunk)
    ensures LastRead(codec, file, chunk) == [] <==> FileOffsets(codec, file) == []
  {
    hide Offsets, Decoded, Pieces;
    var stop := StopAt(codec, file, |file|, chunk);
    if stop < 0 {
      before := [];
    } else {
      FirstAndRest(codec, file);
      RecordsBetween(codec, file, 0, stop);
      var first := Offsets(codec, Decoded(codec, [Pieces(file)[0]]));
      var raw := Pieces(file[0..stop] + Pieces(file[stop..])[0]);
      var mid := Offsets(codec, Decoded(codec, raw[1..]));
      before := first + mid;
      assert first + (mid + RecordsAfter(codec, file, stop)) == before + RecordsAfter(codec, file, stop);
    }
  }

  /** The recovered offset is above the last record's, and above every offset of the file exactly when
      a largest one starts in the last read that holds a record, as in every log with rising offsets. */
  lemma NextOffsetExact(codec: Codec, file: Bytes, chunk: nat)
    requires 0 < chunk
    ensures var offsets, next := FileOffsets(codec, file), NextOffset(codec, file, chunk);
            if offsets == [] then next == 0
            else
              && offsets[|offsets| - 1] < next && next - 1 in offsets
              && ((forall i :: 0 <= i < |offsets| ==> offsets[i] < next)
                  <==> Max(offsets) in LastRead(codec, file, chunk))
              && (Rising(offsets) ==> forall i :: 0 <= i < |offsets| ==> offsets[i] < next)
  {
    hide FileOffsets, LastRead, Max;
    var before := LastReadIsSuffix(codec, file, chunk);
    var offsets, last := FileOffsets(codec, file), LastRead(codec, file, chunk);
    if offsets != [] {
      assert offsets[|offsets| - 1] == last[|last| - 1];
      assert Max(last) in offsets;
    }
  }

  /** Whatever the chunk size, a log whose first line holds the largest offset is misread as soon as it
      holds another record: the first line is never in the same read. */
  lemma FirstLineIsMissed(codec: Codec, file: Bytes, chunk: nat, x: int)
    requires 0 < chunk && FileOffsets(codec, file) == [x] + RecordsAfter(codec, file, 0)
    requires RecordsAfter(codec, file, 0) != []
    requires forall i :: 0 <= i < |RecordsAfter(codec, file, 0)| ==> RecordsAfter(codec, file, 0)[i] < x
    ensures NextOffset(codec, file, chunk) <= x
  {
    hide FileOffsets, Max, RecordsAfter;
    assert file != [] by { NothingAfterEnd(codec, file); }
    var stop := StopAt(codec, file, |file|, chunk);
    assert stop >= 0;
    RecordsBetween(codec, file, 0, stop);
    var last := RecordsAfter(codec, file, stop);
    assert Max(last) in last;
    assert Max(last) in RecordsAfter(codec, file, 0);
  }

  /** Two processes that interleaved their appends can leave such a log: the records carry offsets 5 and
      1, and at the reader's own chunk size, as at any other, the recovered next offset 2 is not above 5. */
  lemma InterleavedLogIsMisread(codec: Codec, chunk: nat)
    requires codec == Codec(imap[[65] := "A", [66] := "B"], imap["A" := 5, "B" := 1]) && 0 < chunk
    ensures FileOffsets(codec, [65, NL, 66, NL]) == [5, 1]
    ensures NextOffset(codec, [65, NL, 66, NL], chunk) <= 5
  {
    hide Pieces, Decoded, Offsets, NextOffset;
    var file: Bytes := [65, NL, 66, NL];
    MisreadPieces();
    MisreadDecoded(codec);
    assert file[0..] == file;
    assert [[65], [66], []][1..] == [[66], []];
    FirstLineIsMissed(codec, file, chunk, 5);
  }

  lemma MisreadDecoded(codec: Codec)
    requires codec == Codec(imap[[65] := "A", [66] := "B"], imap["A" := 5, "B" := 1])
    ensures Decoded(codec, [[66], []]) == ["B"] && Decoded(codec, [[65], [66], []]) == ["A", "B"]
    ensures Offsets(codec, ["B"]) == [1] && Offsets(codec, ["A", "B"]) == [5, 1]
  {
    var e: Bytes := [];
    assert e !in codec.decode;
    assert [e][1..] == [] && [[66], e][1..] == [e] && [[65], [66], e][1..] == [[66], e];
    assert Decoded(codec, [e]) == [];
    assert Decoded(codec, [[66], e]) == ["B"] + [];
    assert ["B"][1..] == [] && ["A", "B"][1..] == ["B"];
    assert Offsets(codec, []) == [] && Offsets(codec, ["B"]) == [1] + [];
  }

  lemma MisreadPieces()
    ensures Pieces([65, NL, 66, NL]) == [[65], [66], []]
  {
    var e: Bytes := [];
    assert [NL][1..] == e && [66, NL][1..] == [NL];
    assert Pieces([NL]) == [[], []];
    assert [66] + e == [66] && [65] + e == [65];
    assert Pieces([66, NL]) == [[66], []];
    assert [NL, 66, NL][1..] == [66, NL] && [65, NL, 66, NL][1..] == [NL, 66, NL];
    assert Pieces([NL, 66, NL]) == [[], [66], []];
  }
}
