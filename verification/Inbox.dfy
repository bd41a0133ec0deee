/** The inbox read path of `events.py`: parsing, the incremental read, cursor positioning and
    one poll of a follower, over a file that does not change during the call. `Follow` adds
    the interleavings. */
module Inbox {
  import opened Common
  import opened Lines
  import opened EventsTail

  function LineIds(codec: Codec, line: Bytes): seq<Id> {
    match ParseLine(codec, line)
    case Event(id) => [id]
    case _ => []
  }

  /** The ids of the event lines, in order. */
  function EventIds(codec: Codec, lines: seq<Bytes>): seq<Id> {
    if lines == [] then [] else LineIds(codec, lines[0]) + EventIds(codec, lines[1..])
  }

  /** The index of the last non-blank line, else -1. */
  function LastNonBlank(codec: Codec, lines: seq<Bytes>): (i: int)
    ensures -1 <= i < |lines|
    ensures i >= 0 ==> !ParseLine(codec, lines[i]).Blank?
    ensures forall j :: i < j < |lines| ==> ParseLine(codec, lines[j]).Blank?
  {
    if lines == [] then -1
    else if ParseLine(codec, lines[|lines| - 1]).Blank? then LastNonBlank(codec, lines[..|lines| - 1])
    else |lines| - 1
  }

  /** `_parse_lines` does not raise: nothing invalid, and malformed only at the torn end. */
  ghost predicate Readable(codec: Codec, lines: seq<Bytes>) {
    forall i :: 0 <= i < |lines| ==>
      && !ParseLine(codec, lines[i]).Invalid?
      && (ParseLine(codec, lines[i]).Malformed? ==> i == LastNonBlank(codec, lines))
  }

  /** `_parse_lines`; `None` is the raise. */
  ghost function ParseLines(codec: Codec, lines: seq<Bytes>): Option<seq<Id>> {
    if Readable(codec, lines) then Some(EventIds(codec, lines)) else None
  }

  lemma {:induction false} EventIdsConcat(codec: Codec, a: seq<Bytes>, b: seq<Bytes>)
    ensures EventIds(codec, a + b) == EventIds(codec, a) + EventIds(codec, b)
    decreases |a|
  {
    if a == [] {
      assert a + b == b;
    } else {
      assert (a + b)[1..] == a[1..] + b;
      EventIdsConcat(codec, a[1..], b);
      Assoc(LineIds(codec, a[0]), EventIds(codec, a[1..]), EventIds(codec, b));
    }
  }

  lemma EventIdsSnoc(codec: Codec, lines: seq<Bytes>, i: nat)
    requires i < |lines|
    ensures EventIds(codec, lines[..i + 1]) == EventIds(codec, lines[..i]) + LineIds(codec, lines[i])
  {
    assert lines[..i + 1] == lines[..i] + [lines[i]];
    EventIdsConcat(codec, lines[..i], [lines[i]]);
    assert [lines[i]][1..] == [];
    assert LineIds(codec, lines[i]) + [] == LineIds(codec, lines[i]);
  }

  /** `_parse_lines` as the loop it is. */
  method ParseLinesLoop(codec: Codec, lines: seq<Bytes>) returns (r: Option<seq<Id>>)
    ensures r == ParseLines(codec, lines)
  {
    var last := LastNonBlank(codec, lines);
    var results: seq<Id> := [];
    hide EventIds, LastNonBlank;
    assert EventIds(codec, lines[..0]) == [] by { EventIdsNil(codec, lines); }
    for i := 0 to |lines|
      invariant results == EventIds(codec, lines[..i])
      invariant forall j :: 0 <= j < i ==>
        !ParseLine(codec, lines[j]).Invalid? && (ParseLine(codec, lines[j]).Malformed? ==> j == last)
    {
      EventIdsSnoc(codec, lines, i);
      match ParseLine(codec, lines[i])
      case Event(id) => results := results + [id];
      case Malformed => if i != last { return None; }
      case Invalid(_) => return None;
      case Blank =>
      case UnknownType(_) =>
    }
    assert lines[..|lines|] == lines;
    return Some(results);
  }

  lemma EventIdsNil(codec: Codec, lines: seq<Bytes>)
    ensures EventIds(codec, lines[..0]) == []
  {
  }

  /** A line whose parse raises where it stands: invalid, or malformed and not at the torn end. */
  ghost predicate RaisesAt(codec: Codec, lines: seq<Bytes>, i: nat)
    requires i < |lines|
  {
    match ParseLine(codec, lines[i])
    case Invalid(_) => true
    case Malformed => exists j :: i < j < |lines| && !ParseLine(codec, lines[j]).Blank?
    case _ => false
  }

  /** Which lines raise, which are skipped and which are delivered: the ids are those of the event
      lines, all of them, in order. */
  lemma ParseLinesMeaning(codec: Codec, lines: seq<Bytes>) returns (at: seq<int>)
    ensures ParseLines(codec, lines).None? <==> exists i: nat :: i < |lines| && RaisesAt(codec, lines, i)
    ensures match ParseLines(codec, lines)
            case None => true
            case Some(ids) =>
              && Rising(at) && |at| == |ids|
              && (forall k :: 0 <= k < |at| ==> 0 <= at[k] < |lines| && ParseLine(codec, lines[at[k]]) == Event(ids[k]))
              && (forall i :: 0 <= i < |lines| && ParseLine(codec, lines[i]).Event? ==> i in at)
  {
    RaisesExactly(codec, lines);
    at := EventsAt(codec, lines);
  }

  lemma RaisesExactly(codec: Codec, lines: seq<Bytes>)
    ensures !Readable(codec, lines) <==> exists i: nat :: i < |lines| && RaisesAt(codec, lines, i)
  {
    hide LastNonBlank;
    var last := LastNonBlank(codec, lines);
    if i: nat :| i < |lines| && RaisesAt(codec, lines, i) {
      if ParseLine(codec, lines[i]).Malformed? {
        var j :| i < j < |lines| && !ParseLine(codec, lines[j]).Blank?;
        assert j <= last;
      }
    }
    if !Readable(codec, lines) {
      var i :| 0 <= i < |lines| && (ParseLine(codec, lines[i]).Invalid?
                                    || (ParseLine(codec, lines[i]).Malformed? && i != last));
      assert RaisesAt(codec, lines, i);
    }
  }

  lemma {:induction false} EventsAt(codec: Codec, lines: seq<Bytes>) returns (at: seq<int>)
    ensures Rising(at) && |at| == |EventIds(codec, lines)|
    ensures forall k :: 0 <= k < |at| ==>
              0 <= at[k] < |lines| && ParseLine(codec, lines[at[k]]) == Event(EventIds(codec, lines)[k])
    ensures forall i :: 0 <= i < |lines| && ParseLine(codec, lines[i]).Event? ==> i in at
    decreases |lines|
  {
    if lines == [] {
      at := [];
    } else {
      var n := |lines| - 1;
      var before := EventsAt(codec, lines[..n]);
      assert lines[..n + 1] == lines;
      EventIdsSnoc(codec, lines, n);
      hide EventIds, ParseLine, Rising;
      at := before;
      if ParseLine(codec, lines[n]).Event? {
        at := before + [n];
        RisingSnoc(before, n);
        assert at[|before|] == n;
      }
      forall i | 0 <= i < |lines| && ParseLine(codec, lines[i]).Event? ensures i in at {
        if i < n {
          assert lines[..n][i] == lines[i] && i in before;
        }
      }
    }
  }

  /** The ids of the complete event lines of a file. */
  ghost function Ids(codec: Codec, content: Bytes): seq<Id> {
    EventIds(codec, Split(Complete(content)))
  }

  /** Reading up to a line boundary and then past it reads everything. */
  lemma IdsFrom(codec: Codec, content: Bytes, n: nat)
    requires n <= |content| && Terminated(content[..n])
    ensures Ids(codec, content) == Ids(codec, content[..n]) + Ids(codec, content[n..])
  {
    hide EventIds, Split, CompleteLen, Complete;
    CompleteFrom(content, n);
    CompleteOfTerminated(content[..n]);
    SplitConcat(content[..n], Complete(content[n..]));
    EventIdsConcat(codec, Split(content[..n]), Split(Complete(content[n..])));
  }

  lemma CompleteOfTerminated(b: Bytes)
    requires Terminated(b)
    ensures Complete(b) == b && CompleteLen(b) == |b|
  {
  }

  // ----- one read --------------------------------------------------------------------

  /** `(size, inode, mtime_ns)` of one `stat` or `fstat`. */
  datatype Stat = Stat(size: nat, ino: nat, mtime: int)

  /** `_InboxRead`. */
  datatype InboxRead = InboxRead(lines: seq<Bytes>, offset: nat, stat: Stat, anchor: Bytes, anchored: bool)

  const ABSENT := Stat(0, 0, 0)

  /** The bytes behind `offset` are the anchor (`_read_lines_after_offset`'s comparison). */
  predicate Anchored(content: Bytes, offset: nat, anchor: Bytes)
    requires |anchor| <= offset
  {
    |anchor| == 0 || (offset <= |content| && content[offset - |anchor|..offset] == anchor)
  }

  /** The part of a file past `offset`; a seek past the end reads nothing. */
  function Past(content: Bytes, offset: nat): Bytes {
    if offset <= |content| then content[offset..] else []
  }

  /** `(anchor + complete)[-256:]`. */
  function LastBytes(b: Bytes): Bytes {
    if |b| > ANCHOR_BYTES then b[|b| - ANCHOR_BYTES..] else b
  }

  /** `_read_lines_after_offset` on an open file: the whole lines past `offset`, or a refusal
      when the bytes behind it are not the anchor. */
  function ReadAfterOffset(stat: Stat, content: Bytes, offset: nat, anchor: Bytes): InboxRead
    requires |anchor| <= offset
  {
    if !Anchored(content, offset, anchor) then InboxRead([], offset, stat, anchor, false)
    else
      var complete := Complete(Past(content, offset));
      if complete == [] then InboxRead([], offset, stat, anchor, true)
      else InboxRead(Split(complete), offset + |complete|, stat, LastBytes(anchor + complete), true)
  }

  /** The read when the inbox does not exist (or cannot be opened). */
  function ReadAbsent(offset: nat, anchor: Bytes): InboxRead {
    InboxRead([], offset, ABSENT, anchor, true)
  }

  /** A read, byte by byte: refused exactly when the bytes behind the offset are not the anchor, with
      nothing read; otherwise the lines are the bytes from the offset to the last newline, and the new
      anchor is the last 256 bytes of the old one and those. */
  lemma ReadExactly(stat: Stat, content: Bytes, offset: nat, anchor: Bytes)
    requires |anchor| <= offset
    ensures var r := ReadAfterOffset(stat, content, offset, anchor);
            && r.stat == stat
            && (r.anchored <==> anchor == [] || (offset <= |content| && content[offset - |anchor|..offset] == anchor))
            && (r.lines == [] ==> r.offset == offset && r.anchor == anchor)
            && (!r.anchored || offset > |content| ==> r.lines == [])
            && (r.anchored && offset <= |content| ==>
                 && offset <= r.offset <= |content| && Unsplit(r.lines) == content[offset..r.offset]
                 && (forall i :: 0 <= i < |r.lines| ==> NoNL(r.lines[i])) && NoNL(content[r.offset..])
                 && (r.lines != [] ==>
                      var all := anchor + content[offset..r.offset];
                      r.anchor == all[if |all| > 256 then |all| - 256 else 0..]))
  {
    hide Split, CompleteLen, Unsplit;
    var rest := Past(content, offset);
    SplitJoins(Complete(rest));
    assert Split([]) == [] by { NoLines(); }
    assert Unsplit([]) == [] by { NoLines(); }
    if offset <= |content| {
      var n := CompleteLen(rest);
      assert content[offset..offset + n] == rest[..n];
      assert forall i :: offset + n <= i < |content| ==> content[i] == rest[i - offset];
    }
  }

  lemma NoLines()
    ensures Split([]) == [] && Unsplit([]) == []
  {
  }

  lemma LastBytesAnchor(p: Bytes, c: Bytes)
    ensures LastBytes(AnchorAt(p, |p|) + c) == AnchorAt(p + c, |p + c|)
  {
    var a := AnchorAt(p, |p|);
    var whole := p + c;
    assert whole == p[..|p| - |a|] + (a + c);
    if |a| < |p| {
      var l := LastBytes(a + c);
      assert |a| == ANCHOR_BYTES;
      assert whole[|whole| - ANCHOR_BYTES..] == (a + c)[|a + c| - ANCHOR_BYTES..];
    } else {
      assert a == p;
    }
  }

  /** A read past a prefix the file really starts with returns exactly the complete lines after
      it, and its offset and anchor again describe a prefix of the file. */
  lemma ReadAfterPrefix(codec: Codec, stat: Stat, content: Bytes, prefix: Bytes)
    requires prefix <= content && Terminated(prefix)
    ensures var r := ReadAfterOffset(stat, content, |prefix|, AnchorAt(prefix, |prefix|));
            && r.anchored && r.stat == stat
            && Complete(content) == prefix + Complete(content[|prefix|..])
            && r.offset == |Complete(content)|
            && r.anchor == AnchorAt(Complete(content), |Complete(content)|)
            && r.lines == Split(Complete(content[|prefix|..]))
            && Ids(codec, content) == Ids(codec, prefix) + EventIds(codec, r.lines)
  {
    var a := AnchorAt(prefix, |prefix|);
    var n := |prefix|;
    var rest := Complete(content[n..]);
    assert content[..n] == prefix;
    AnchorOfPrefix(content, prefix);
    CompleteFrom(content, n);
    IdsFrom(codec, content, n);
    if rest == [] {
      assert prefix + rest == prefix;
    } else {
      LastBytesAnchor(prefix, rest);
    }
  }

  lemma AnchorOfPrefix(content: Bytes, prefix: Bytes)
    requires prefix <= content
    ensures Anchored(content, |prefix|, AnchorAt(prefix, |prefix|))
  {
    var a := AnchorAt(prefix, |prefix|);
    var n := |prefix|;
    assert content[n - |a|..n] == prefix[n - |a|..n];
  }
}
