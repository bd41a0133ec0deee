/** The backward scan for an event line (`events_tail.py`).
    Blocks are read from the end of the file; `carry` keeps the partial line at the front
    of the previous block. The specification is `EndOfLast` over the complete part. */
module EventsTail {
  import opened Common
  import opened Lines

  const BLOCK_BYTES: nat := 65536
  const ANCHOR_BYTES: nat := 256

  type Id = string

  /** What a line turns out to be: blank, an unknown event type (skipped), malformed JSON
      (tolerated as the last line only), any other validation failure, or an event. A line that
      is no event may still be a JSON object with an `id`. */
  datatype Parsed =
    | Blank
    | UnknownType(raw: Option<Id>)
    | Malformed
    | Invalid(raw: Option<Id>)
    | Event(id: Id)

  /** The JSON and model decoding, as an arbitrary table; lines outside it are malformed. */
  type Codec = imap<Bytes, Parsed>

  function ParseLine(codec: Codec, line: Bytes): Parsed {
    if line in codec then codec[line] else Malformed
  }

  /** The `id` of the JSON object on the line, whether or not it is a valid event. */
  function RawId(p: Parsed): Option<Id> {
    match p
    case Event(id) => Some(id)
    case UnknownType(raw) => raw
    case Invalid(raw) => raw
    case _ => None
  }

  /** The lines that name `id` (`_is_event_line`). */
  ghost function IdLines(codec: Codec, id: Id): iset<Bytes> {
    iset l | l in codec && RawId(codec[l]) == Some(id)
  }

  predicate Occurs(b: Bytes, needle: Bytes, i: nat) {
    i + |needle| <= |b| && b[i..i + |needle|] == needle
  }

  ghost predicate Contains(b: Bytes, needle: Bytes) {
    exists i: nat :: Occurs(b, needle, i)
  }

  /** `bytes.rfind(needle, 0, hi)`. */
  function RFind(b: Bytes, needle: Bytes, hi: nat): (r: Option<nat>)
    requires hi <= |b| && needle != []
    ensures r.Some? ==> r.value + |needle| <= hi && Occurs(b, needle, r.value)
    ensures forall i: nat :: i + |needle| <= hi && (r.None? || r.value < i) ==> !Occurs(b, needle, i)
    decreases hi
  {
    if hi < |needle| then None
    else if Occurs(b, needle, hi - |needle|) then Some(hi - |needle|)
    else RFind(b, needle, hi - 1)
  }

  /** A line counts as found when the needle occurs in it and it parses as the event. */
  ghost function Hit(needle: Bytes, isEvent: iset<Bytes>): iset<Bytes> {
    iset line | line in isEvent && Contains(line, needle)
  }

  /** A needle hit lies inside one line, since the needle holds no newline. */
  lemma HitInsideLine(body: Bytes, needle: Bytes, hit: nat, lineStart: nat, lineEnd: nat)
    requires Occurs(body, needle, hit) && NoNL(needle)
    requires lineStart <= hit <= lineEnd < |body| && body[lineEnd] == NL
    ensures Contains(body[lineStart..lineEnd], needle)
  {
    var n := hit + |needle|;
    forall i | hit <= i < n ensures body[i] != NL {
      assert body[hit..n][i - hit] == needle[i - hit];
    }
    SliceOfSlice(body, lineStart, lineEnd, hit - lineStart, n - lineStart);
    assert Occurs(body[lineStart..lineEnd], needle, hit - lineStart);
  }

  lemma NotInParts(a: Bytes, b: Bytes, needle: Bytes)
    requires !Contains(a + b, needle)
    ensures !Contains(a, needle) && !Contains(b, needle)
  {
    forall i: nat | Occurs(a, needle, i) ensures Occurs(a + b, needle, i) {
      assert (a + b)[i..i + |needle|] == a[i..i + |needle|];
    }
    forall i: nat | Occurs(b, needle, i) ensures Occurs(a + b, needle, |a| + i) {
      assert (a + b)[|a| + i..|a| + i + |needle|] == b[i..i + |needle|];
    }
  }

  /** Lines of a terminated run without the needle are no hits. */
  lemma {:induction false} NoNeedleNoHit(b: Bytes, needle: Bytes, isEvent: iset<Bytes>)
    requires Terminated(b) && !Contains(b, needle)
    ensures EndOfLast(Hit(needle, isEvent), b) == 0
    decreases |b|
  {
    if b != [] {
      var x, t := Uncons(b);
      NotInParts(x + [NL], t, needle);
      NotInParts(x, [NL], needle);
      NoNeedleNoHit(t, needle, isEvent);
      EndOfLastCons(Hit(needle, isEvent), x, t);
    }
  }

  /** Past the last occurrence below `hi` there is none. */
  lemma NotAfterLast(body: Bytes, needle: Bytes, hi: nat, h: int, from: nat)
    requires hi <= |body| && h < from <= hi
    requires forall i: nat :: i + |needle| <= hi && h < i ==> !Occurs(body, needle, i)
    ensures !Contains(body[from..hi], needle)
  {
    forall i: nat | Occurs(body[from..hi], needle, i) ensures Occurs(body, needle, from + i) {
      SliceOfSlice(body, from, hi, i, i + |needle|);
    }
  }

  /** The line that holds the hit, between its neighbours. */
  lemma AroundLine(body: Bytes, lineStart: nat, lineEnd: nat, hi: nat)
    requires lineStart <= lineEnd < hi <= |body| && body[lineEnd] == NL
    ensures body[..hi] == body[..lineStart] + (body[lineStart..lineEnd] + [NL] + body[lineEnd + 1..hi])
  {
  }

  lemma LastLineStep(hit: iset<Bytes>, body: Bytes, lineStart: nat, lineEnd: nat, hi: nat)
    requires lineStart <= lineEnd < hi <= |body| && body[lineEnd] == NL
    requires Terminated(body[..lineStart]) && Terminated(body[lineEnd + 1..hi])
    requires NoNL(body[lineStart..lineEnd])
    requires EndOfLast(hit, body[lineEnd + 1..hi]) == 0
    ensures Terminated(body[..hi])
    ensures EndOfLast(hit, body[..hi]) ==
            if body[lineStart..lineEnd] in hit then lineEnd + 1 else EndOfLast(hit, body[..lineStart])
  {
    var head, line, rest := body[..lineStart], body[lineStart..lineEnd], body[lineEnd + 1..hi];
    EndOfLastCons(hit, line, rest);
    AroundLine(body, lineStart, lineEnd, hi);
    EndOfLastConcat(hit, head, line + [NL] + rest);
  }

  /** What one needle hit at `h` tells about the lines below `hi`. */
  lemma HitStep(body: Bytes, needle: Bytes, isEvent: iset<Bytes>, hi: nat, h: nat, lineStart: nat, lineEnd: nat)
    requires NoNL(needle) && hi <= |body| && lineStart <= h <= lineEnd < hi && body[hi - 1] == NL
    requires Occurs(body, needle, h)
    requires forall i: nat :: i + |needle| <= hi && h < i ==> !Occurs(body, needle, i)
    requires Terminated(body[..lineStart]) && body[lineEnd] == NL
    requires forall i :: lineStart <= i < lineEnd ==> body[i] != NL
    ensures Terminated(body[..hi])
    ensures EndOfLast(Hit(needle, isEvent), body[..hi]) ==
            if body[lineStart..lineEnd] in isEvent then lineEnd + 1
            else EndOfLast(Hit(needle, isEvent), body[..lineStart])
  {
    HitInsideLine(body, needle, h, lineStart, lineEnd);
    NotAfterLast(body, needle, hi, h, lineEnd + 1);
    NoNeedleNoHit(body[lineEnd + 1..hi], needle, isEvent);
    LastLineStep(Hit(needle, isEvent), body, lineStart, lineEnd, hi);
  }

  /** `_match_in_lines`: candidate hits from the right, each confirmed by its line; 0 is "none". */
  method MatchInLines(body: Bytes, needle: Bytes, codec: Codec, id: Id) returns (r: nat)
    requires Terminated(body)
    requires needle != [] && NoNL(needle)
    ensures r == EndOfLast(Hit(needle, IdLines(codec, id)), body)
  {
    ghost var isEvent := IdLines(codec, id);
    hide EndOfLast, FirstNL, CompleteLen, RFind;
    ghost var hit := Hit(needle, isEvent);
    var hi := |body|;
    assert body[..hi] == body;
    while true
      invariant hi <= |body| && Terminated(body[..hi])
      invariant EndOfLast(hit, body) == EndOfLast(hit, body[..hi])
      decreases hi
    {
      var found := RFind(body, needle, hi);
      if found.None? {
        assert body[0..hi] == body[..hi];
        NotAfterLast(body, needle, hi, -1, 0);
        NoNeedleNoHit(body[..hi], needle, isEvent);
        return 0;
      }
      var h := found.value;
      var lineStart := CompleteLen(body[..h]);
      var lineEnd := h + FirstNL(body[h..hi]);
      LineAround(body, hi, h);
      HitStep(body, needle, isEvent, hi, h, lineStart, lineEnd);
      if RawId(ParseLine(codec, body[lineStart..lineEnd])) == Some(id) {
        return lineEnd + 1;
      }
      hi := lineStart;
    }
  }

  /** The newlines around a hit delimit one whole line. */
  lemma LineAround(body: Bytes, hi: nat, h: nat)
    requires h < hi <= |body| && body[hi - 1] == NL
    ensures var lineStart, lineEnd := CompleteLen(body[..h]), h + FirstNL(body[h..hi]);
            && lineStart <= h <= lineEnd < hi && body[lineEnd] == NL
            && Terminated(body[..lineStart])
            && forall i :: lineStart <= i < lineEnd ==> body[i] != NL
  {
    var lineStart, lineEnd := CompleteLen(body[..h]), h + FirstNL(body[h..hi]);
    forall i | lineStart <= i < lineEnd ensures body[i] != NL {
      if i < h {
        assert body[..h][i] != NL;
      } else {
        assert body[h..hi][i - h] != NL;
      }
    }
  }

  lemma JoinCarry(file: Bytes, start: nat, pos: nat, edge: nat)
    requires start <= pos <= edge <= |file|
    ensures file[start..pos] + file[pos..edge] == file[start..edge]
    ensures edge == |file| ==> file[start..edge] == file[start..]
  {
  }

  /** Where the complete part ends, once the bytes after `start` are known. */
  lemma TornTail(file: Bytes, start: nat)
    requires start <= |file| && CompleteLen(file[start..]) > 0
    ensures CompleteLen(file) == start + CompleteLen(file[start..])
    ensures file[start..][..CompleteLen(file[start..])] == file[start..CompleteLen(file)]
    ensures Complete(file) == file[..CompleteLen(file)]
  {
    hide CompleteLen;
    var t := file[start..];
    var n := CompleteLen(t);
    assert file[start + n - 1] == t[n - 1];
    forall i | start + n <= i < |file| ensures file[i] != NL {
      assert t[i - start] != NL;
    }
    CompleteLenIs(file, start + n);
    TakeSlice(file, start, n);
  }

  lemma TakeSlice(file: Bytes, start: nat, n: nat)
    requires start + n <= |file|
    ensures file[start..][..n] == file[start..start + n]
  {
  }

  lemma NonEmptyBlock(file: Bytes, pos: nat, edge: nat, data: Bytes)
    requires pos < edge <= |file| && Terminated(file[..edge]) && data == file[pos..edge]
    ensures data != [] && Terminated(data)
  {
    assert data[edge - pos - 1] == file[..edge][edge - 1];
  }

  /** The lines of one block, once the partial line in front is held back. */
  lemma EdgeStep(hit: iset<Bytes>, file: Bytes, mid: nat, edge: nat)
    requires mid <= edge <= |file| && Terminated(file[..edge])
    requires mid == 0 || file[mid - 1] == NL
    ensures Terminated(file[..mid]) && Terminated(file[mid..edge])
    ensures EndOfLast(hit, file[..edge]) ==
            var e := EndOfLast(hit, file[mid..edge]);
            if e > 0 then mid + e else EndOfLast(hit, file[..mid])
  {
    hide EndOfLast;
    assert file[..edge] == file[..mid] + file[mid..edge];
    assert mid < edge ==> file[..edge][edge - 1] == file[mid..edge][edge - mid - 1];
    EndOfLastConcat(hit, file[..mid], file[mid..edge]);
  }

  lemma BlockStep(hit: iset<Bytes>, file: Bytes, pos: nat, split: nat, edge: nat, data: Bytes)
    requires pos + split <= edge <= |file| && Terminated(file[..edge]) && data == file[pos..edge]
    requires pos + split == 0 || (split > 0 && data[split - 1] == NL)
    ensures data[..split] == file[pos..pos + split]
    ensures Terminated(file[..pos + split]) && Terminated(data[split..])
    ensures pos > 0 ==> 0 < split
    ensures EndOfLast(hit, file[..edge]) ==
            var e := EndOfLast(hit, data[split..]);
            if e > 0 then pos + split + e else EndOfLast(hit, file[..pos + split])
  {
    hide EndOfLast;
    CutSlice(file, pos, edge, split);
    EdgeStep(hit, file, pos + split, edge);
  }

  /** The scan's loop invariant: `carry` is `file[pos..edge]`; until a newline is seen there is
      none from `pos` on, and afterwards the answer lies in the run that ends at `edge`. */
  ghost predicate Scanning(hit: iset<Bytes>, file: Bytes, pos: nat, carry: Bytes, seen: bool, edge: nat) {
    && pos <= edge <= |file| && carry == file[pos..edge]
    && (!seen ==> edge == |file| && forall i :: pos <= i < |file| ==> file[i] != NL)
    && (seen ==> Terminated(file[..edge]) && (if pos == 0 then edge == 0 else pos < edge))
    && (seen ==> EndOfLast(hit, Complete(file)) == EndOfLast(hit, file[..edge]))
  }

  /** The next block joined to the carry, cut at the last newline while none was seen. */
  ghost predicate Joined(hit: iset<Bytes>, file: Bytes, pos: nat, data: Bytes, edge: nat) {
    && pos < edge <= |file| && data == file[pos..edge]
    && Terminated(file[..edge])
    && EndOfLast(hit, Complete(file)) == EndOfLast(hit, file[..edge])
  }

  lemma JoinBlock(hit: iset<Bytes>, file: Bytes, pos: nat, carry: Bytes, seen: bool, edge: nat, start: nat)
    requires Scanning(hit, file, pos, carry, seen, edge) && start < pos
    ensures var data := file[start..pos] + carry;
            if seen then Joined(hit, file, start, data, edge)
            else
              var n := CompleteLen(data);
              if n == 0 then Scanning(hit, file, start, data, false, edge)
              else Joined(hit, file, start, data[..n], start + n)
  {
    hide EndOfLast, CompleteLen;
    JoinCarry(file, start, pos, edge);
    if !seen {
      if CompleteLen(file[start..]) == 0 {
        NoneYet(file, start);
      } else {
        TornTail(file, start);
      }
    }
  }

  lemma SplitAt(hit: iset<Bytes>, file: Bytes, pos: nat, data: Bytes, edge: nat) returns (split: nat)
    requires Joined(hit, file, pos, data, edge)
    ensures data != [] && Terminated(data) && split == if pos > 0 then FirstNL(data) + 1 else 0
    ensures pos + split <= edge <= |file| && data == file[pos..edge] && split <= |data| && (pos > 0 ==> 0 < split)
    ensures data[..split] == file[pos..pos + split]
    ensures Terminated(file[..pos + split]) && Terminated(data[split..])
    ensures EndOfLast(hit, Complete(file)) ==
            var e := EndOfLast(hit, data[split..]);
            if e > 0 then pos + split + e else EndOfLast(hit, file[..pos + split])
  {
    hide EndOfLast, CompleteLen, FirstNL, Complete;
    NonEmptyBlock(file, pos, edge, data);
    split := if pos > 0 then FirstNL(data) + 1 else 0;
    BlockStep(hit, file, pos, split, edge, data);
  }

  lemma SplitBlock(hit: iset<Bytes>, file: Bytes, pos: nat, data: Bytes, edge: nat)
    requires Joined(hit, file, pos, data, edge)
    ensures data != [] && Terminated(data)
    ensures var split := if pos > 0 then FirstNL(data) + 1 else 0;
            && split <= |data| && Terminated(data[split..])
            && var e := EndOfLast(hit, data[split..]);
               if e > 0 then EndOfLast(hit, Complete(file)) == pos + split + e
               else Scanning(hit, file, pos, data[..split], true, pos + split)
  {
    hide EndOfLast, CompleteLen, FirstNL, Complete, Terminated, Joined;
    var split := SplitAt(hit, file, pos, data, edge);
  }

  lemma ScanStart(hit: iset<Bytes>, file: Bytes)
    ensures Scanning(hit, file, |file|, [], false, |file|)
  {
  }

  lemma Scanned(hit: iset<Bytes>, file: Bytes, carry: Bytes, seen: bool, edge: nat)
    requires Scanning(hit, file, 0, carry, seen, edge)
    ensures EndOfLast(hit, Complete(file)) == 0
  {
    if !seen {
      assert CompleteLen(file) == 0;
    }
  }

  lemma InFile(hit: iset<Bytes>, file: Bytes, pos: nat, carry: Bytes, seen: bool, edge: nat)
    requires Scanning(hit, file, pos, carry, seen, edge)
    ensures pos <= |file|
  {
  }

  /** One block read, joined to the carry and cut at the last newline while none was seen. */
  method TakeBlock(file: Bytes, start: nat, pos: nat, carry: Bytes, seen: bool, ghost hit: iset<Bytes>, ghost edge: nat)
    returns (data: Bytes, seen': bool, ghost edge': nat)
    requires Scanning(hit, file, pos, carry, seen, edge) && start < pos
    ensures if seen' then Joined(hit, file, start, data, edge') else Scanning(hit, file, start, data, seen', edge')
    ensures var joined := file[start..pos] + carry;
            var n := CompleteLen(joined);
            data == (if seen || n == 0 then joined else joined[..n]) && seen' == (seen || n > 0)
  {
    hide *;
    InFile(hit, file, pos, carry, seen, edge);
    JoinBlock(hit, file, pos, carry, seen, edge, start);
    data, seen', edge' := file[start..pos] + carry, seen, edge;
    if !seen {
      var n := CompleteLen(data);
      if n > 0 {
        data, seen', edge' := data[..n], true, start + n;
      }
    }
  }

  /** `_scan_backward`: for every file and every positive block size, the offset just past
      the last complete line that is a hit (0 when there is none); the torn tail never matches. */
  method ScanBackward(file: Bytes, block: nat, needle: Bytes, codec: Codec, id: Id) returns (r: nat)
    requires 0 < block
    requires needle != [] && NoNL(needle)
    ensures r == EndOfLast(Hit(needle, IdLines(codec, id)), Complete(file))
  {
    hide *;
    ghost var hit := Hit(needle, IdLines(codec, id));
    var pos: nat, carry, seenCompleteLine := |file|, [], false;
    ghost var edge: nat := |file|;
    ScanStart(hit, file);
    while pos > 0
      invariant Scanning(hit, file, pos, carry, seenCompleteLine, edge)
      decreases pos
    {
      var start := if pos > block then pos - block else 0;
      var data;
      data, seenCompleteLine, edge := TakeBlock(file, start, pos, carry, seenCompleteLine, hit, edge);
      pos := start;
      if !seenCompleteLine {
        carry := data;
        continue;
      }
      SplitBlock(hit, file, pos, data, edge);
      var split := if pos > 0 then FirstNL(data) + 1 else 0;
      carry := data[..split];
      var found := MatchInLines(data[split..], needle, codec, id);
      if found > 0 {
        return pos + split + found;
      }
      edge := pos + split;
    }
    Scanned(hit, file, carry, seenCompleteLine, edge);
    return 0;
  }

  lemma NoneYet(file: Bytes, start: nat)
    requires start <= |file| && CompleteLen(file[start..]) == 0
    ensures forall i :: start <= i < |file| ==> file[i] != NL
  {
    forall i | start <= i < |file| ensures file[i] != NL {
      assert file[start..][i - start] != NL;
    }
  }

  /** Every event line is serialised so that it contains the needle. */
  ghost predicate Needled(needle: Bytes, isEvent: iset<Bytes>, lines: seq<Bytes>) {
    forall i :: 0 <= i < |lines| && lines[i] in isEvent ==> Contains(lines[i], needle)
  }

  lemma {:induction false} HitIsEvent(needle: Bytes, isEvent: iset<Bytes>, b: Bytes)
    requires Terminated(b) && Needled(needle, isEvent, Split(b))
    ensures EndOfLast(Hit(needle, isEvent), b) == EndOfLast(isEvent, b)
    decreases |b|
  {
    if b != [] {
      var x, t := Uncons(b);
      SplitCons(x, t);
      assert x == Split(b)[0] && Split(b)[1..] == Split(t);
      HitIsEvent(needle, isEvent, t);
      EndOfLastCons(isEvent, x, t);
      EndOfLastCons(Hit(needle, isEvent), x, t);
    }
  }

  /** The up-to-256 bytes that end at `end`. */
  function AnchorAt(file: Bytes, end: nat): (a: Bytes)
    requires end <= |file|
    ensures |a| <= end && |a| <= ANCHOR_BYTES
    ensures a == file[end - |a|..end]
  {
    file[if end > ANCHOR_BYTES then end - ANCHOR_BYTES else 0..end]
  }

  /** What `locate_after_event` returns for one open file: where reading resumes and the
      anchor before it. */
  function Located(isEvent: iset<Bytes>, file: Bytes): (r: Option<(nat, Bytes)>) {
    var e := EndOfLast(isEvent, Complete(file));
    if e == 0 then None else Some((e, AnchorAt(file, e)))
  }

  /** `locate_after_event`: behind the last complete line that names the event and contains the
      needle. Where every line that names it contains the needle, that is every such line. */
  method LocateAfterEvent(file: Bytes, needle: Bytes, codec: Codec, id: Id)
    returns (r: Option<(nat, Bytes)>)
    requires needle != [] && NoNL(needle)
    ensures r == Located(Hit(needle, IdLines(codec, id)), file)
    ensures Needled(needle, IdLines(codec, id), Split(Complete(file))) ==> r == Located(IdLines(codec, id), file)
  {
    var end := ScanBackward(file, BLOCK_BYTES, needle, codec, id);
    if Needled(needle, IdLines(codec, id), Split(Complete(file))) {
      HitIsEvent(needle, IdLines(codec, id), Complete(file));
    }
    if end == 0 {
      return None;
    }
    return Some((end, AnchorAt(file, end)));
  }
}
