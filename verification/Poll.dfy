/** One poll of a follower over a file that stays as it is during the call (`events.py`
    `_resolve_follow_start`, `_poll_follow_state`; `events_follow.py` `InboxFollower`). */
module Poll {
  import opened Common
  import opened Lines
  import opened EventsTail
  import opened Inbox
  import Prune

  /** `_FollowState`. */
  datatype FollowState = FollowState(offset: nat, seenSize: nat, seenMtime: int, ino: nat,
                                     cursor: Option<Id>, anchor: Bytes)

  function FromRead(read: InboxRead, cursor: Option<Id>): FollowState {
    FollowState(read.offset, read.stat.size, read.stat.mtime, read.stat.ino, cursor, read.anchor)
  }

  /** The index of the first occurrence of `id`, else -1. */
  function IndexOf(ids: seq<Id>, id: Id): (i: int)
    ensures -1 <= i < |ids|
    ensures i >= 0 ==> ids[i] == id
    ensures forall j :: 0 <= j < |ids| && (i < 0 || j < i) ==> ids[j] != id
  {
    if ids == [] then -1
    else if ids[0] == id then 0
    else
      var k := IndexOf(ids[1..], id);
      if k < 0 then -1 else k + 1
  }

  /** `_apply_cursor`: the events after the cursor, all of them when it is absent or missing. */
  function ApplyCursor(ids: seq<Id>, cursor: Option<Id>): seq<Id> {
    match cursor
    case None => ids
    case Some(c) => ids[IndexOf(ids, c) + 1..]
  }

  function NextCursor(ids: seq<Id>, cursor: Option<Id>): Option<Id> {
    if ids == [] then cursor else Some(ids[|ids| - 1])
  }

  datatype File = File(ino: nat, mtime: int, content: Bytes)

  function FileStat(file: Option<File>): Stat {
    match file
    case None => ABSENT
    case Some(f) => Stat(|f.content|, f.ino, f.mtime)
  }

  function ReadFile(file: Option<File>, offset: nat, anchor: Bytes): InboxRead
    requires |anchor| <= offset
  {
    match file
    case None => ReadAbsent(offset, anchor)
    case Some(f) => ReadAfterOffset(FileStat(file), f.content, offset, anchor)
  }

  /** The events a call returns and the read that positioned it. */
  datatype Resolved = Resolved(out: seq<Id>, read: InboxRead)

  ghost function LocateIn(codec: Codec, cursor: Option<Id>, file: Option<File>): Option<(nat, Bytes)> {
    if cursor.Some? && file.Some? then Located(IdLines(codec, cursor.value), file.value.content) else None
  }

  /** The slow path of `_resolve_follow_start`: one full read; `None` is a raise. */
  ghost function ResolveByFullRead(codec: Codec, cursor: Option<Id>, file: Option<File>): Option<Resolved> {
    var read := ReadFile(file, 0, []);
    match ParseLines(codec, read.lines)
    case None => None
    case Some(ids) => Some(Resolved(ApplyCursor(ids, cursor), read))
  }

  /** The fast path: read on from a located offset. */
  ghost function ResolveByLocate(codec: Codec, at: (nat, Bytes), file: Option<File>): Option<Resolved>
    requires |at.1| <= at.0
  {
    var read := ReadFile(file, at.0, at.1);
    match ParseLines(codec, read.lines)
    case None => None
    case Some(ids) => Some(Resolved(ids, read))
  }

  /** `_resolve_follow_start`. */
  ghost function ResolveFollowStart(codec: Codec, cursor: Option<Id>, file: Option<File>): Option<Resolved> {
    var at := LocateIn(codec, cursor, file);
    if at.Some? && ReadFile(file, at.value.0, at.value.1).anchored then ResolveByLocate(codec, at.value, file)
    else ResolveByFullRead(codec, cursor, file)
  }

  /** `_poll_follow_state`, with its `_reresolve_follow_state` fallbacks; `None` is a raise. */
  ghost function PollFollowState(codec: Codec, st: FollowState, file: Option<File>): Option<(seq<Id>, FollowState)>
    requires |st.anchor| <= st.offset
  {
    var stat := FileStat(file);
    if stat.ino != st.ino || stat.size < st.offset then
      Positioned(ResolveFollowStart(codec, st.cursor, file), st.cursor)
    else if stat.size == st.seenSize && stat.mtime == st.seenMtime then Some(([], st))
    else
      var read := ReadFile(file, st.offset, st.anchor);
      if !read.anchored then Positioned(ResolveFollowStart(codec, st.cursor, file), st.cursor)
      else
        match ParseLines(codec, read.lines)
        case None => None
        case Some(ids) => Some((ids, FromRead(read, NextCursor(ids, st.cursor))))
  }

  function Positioned(r: Option<Resolved>, cursor: Option<Id>): Option<(seq<Id>, FollowState)> {
    match r
    case None => None
    case Some(v) => Some((v.out, FromRead(v.read, NextCursor(v.out, cursor))))
  }

  // ----- the fast path refines the slow one --------------------------------------------

  lemma {:induction false} LastNonBlankConcat(codec: Codec, a: seq<Bytes>, b: seq<Bytes>)
    ensures LastNonBlank(codec, a + b) ==
            if LastNonBlank(codec, b) >= 0 then |a| + LastNonBlank(codec, b) else LastNonBlank(codec, a)
    decreases |b|
  {
    if b == [] {
      assert a + b == a;
    } else {
      assert (a + b)[..|a + b| - 1] == a + b[..|b| - 1];
      assert (a + b)[|a + b| - 1] == b[|b| - 1];
      LastNonBlankConcat(codec, a, b[..|b| - 1]);
    }
  }

  lemma ReadableSuffix(codec: Codec, a: seq<Bytes>, b: seq<Bytes>)
    requires Readable(codec, a + b)
    ensures Readable(codec, b)
  {
    hide LastNonBlank;
    LastNonBlankConcat(codec, a, b);
    forall i | 0 <= i < |b| ensures !ParseLine(codec, b[i]).Invalid?
      && (ParseLine(codec, b[i]).Malformed? ==> i == LastNonBlank(codec, b)) {
      assert (a + b)[|a| + i] == b[i];
    }
  }

  ghost predicate Once(ids: seq<Id>, c: Id) {
    forall i, j :: 0 <= i < |ids| && 0 <= j < |ids| && ids[i] == c && ids[j] == c ==> i == j
  }

  lemma AfterOnly(a: seq<Id>, c: Id, b: seq<Id>)
    requires Once(a + [c] + b, c)
    ensures ApplyCursor(a + [c] + b, Some(c)) == b
  {
    var ids := a + [c] + b;
    assert ids[|a|] == c;
    assert IndexOf(ids, c) == |a|;
  }

  /** Among the complete lines of the file, those that name `c` are events. */
  ghost predicate NamedByEvents(codec: Codec, c: Id, content: Bytes) {
    forall i :: 0 <= i < |Split(Complete(content))| ==> IsEventIfNamed(codec, c, Split(Complete(content))[i])
  }

  ghost predicate IsEventIfNamed(codec: Codec, c: Id, line: Bytes) {
    line in IdLines(codec, c) ==> codec[line] == Event(c)
  }

  /** The two ways to resolve a cursor agree: for every readable inbox that names the cursor at
      most once and on event lines only, the backward scan and the full read return the same events
      and leave the follower in the same state. */
  lemma FastRefinesSlow(codec: Codec, c: Id, file: File)
    requires Readable(codec, Split(Complete(file.content)))
    requires Once(Ids(codec, file.content), c) && NamedByEvents(codec, c, file.content)
    ensures var fast := Positioned(ResolveFollowStart(codec, Some(c), Some(file)), Some(c));
            fast.Some? && fast == Positioned(ResolveByFullRead(codec, Some(c), Some(file)), Some(c))
  {
    hide EventIds, Split, CompleteLen, Complete, Readable, Located, ApplyCursor, IdLines;
    var content := file.content;
    var stat := FileStat(Some(file));
    var at := LocateIn(codec, Some(c), Some(file));
    FullRead(codec, stat, content);
    if at.Some? {
      var prefix, before := LocatedAt(codec, c, content);
      ReadAfterPrefix(codec, stat, content, prefix);
      SplitConcat(prefix, Complete(content[|prefix|..]));
      ReadableSuffix(codec, Split(prefix), Split(Complete(content[|prefix|..])));
      AfterOnly(before, c, EventIds(codec, Split(Complete(content[|prefix|..]))));
    }
  }

  lemma FullRead(codec: Codec, stat: Stat, content: Bytes)
    ensures var r := ReadAfterOffset(stat, content, 0, []);
            && r.anchored && r.stat == stat && r.offset == |Complete(content)|
            && r.anchor == AnchorAt(Complete(content), |Complete(content)|)
            && r.lines == Split(Complete(content))
  {
    assert content[0..] == content;
    ReadAfterPrefix(codec, stat, content, []);
  }

  /** The located prefix: whole lines, the last of them the event's. */
  lemma LocatedAt(codec: Codec, c: Id, content: Bytes) returns (prefix: Bytes, before: seq<Id>)
    requires Located(IdLines(codec, c), content).Some?
    ensures prefix <= content && Terminated(prefix)
    ensures Located(IdLines(codec, c), content) == Some((|prefix|, AnchorAt(prefix, |prefix|)))
    ensures NamedByEvents(codec, c, content) ==> Ids(codec, prefix) == before + [c]
  {
    hide EventIds, Split, EndOfLast, CompleteLen;
    var hit := IdLines(codec, c);
    var end := EndOfLast(hit, Complete(content));
    var p, l, q := EndOfLastMeaning(hit, Complete(content));
    prefix := content[..end];
    before := Ids(codec, p);
    assert prefix == p + l + [NL] by {
      assert prefix == Complete(content)[..end];
    }
    AnchorCut(content, end);
    if NamedByEvents(codec, c, content) {
      LineInSplit(p, l, q);
      assert IsEventIfNamed(codec, c, l);
      LastEvent(codec, p, l, c);
    }
  }

  lemma AnchorCut(content: Bytes, end: nat)
    requires end <= |content|
    ensures AnchorAt(content, end) == AnchorAt(content[..end], end)
  {
  }

  lemma LineInSplit(p: Bytes, l: Bytes, q: Bytes)
    requires Terminated(p) && NoNL(l) && Terminated(q)
    ensures Terminated(p + l + [NL] + q)
    ensures |Split(p)| < |Split(p + l + [NL] + q)| && Split(p + l + [NL] + q)[|Split(p)|] == l
  {
    hide Split;
    var line := l + [NL] + q;
    assert p + l + [NL] + q == p + line;
    assert line[|line| - 1] == if q == [] then NL else q[|q| - 1];
    SplitConcat(p, line);
    SplitCons(l, q);
  }

  lemma LastEvent(codec: Codec, p: Bytes, l: Bytes, c: Id)
    requires Terminated(p) && NoNL(l) && l in codec && codec[l] == Event(c)
    ensures Ids(codec, p + l + [NL]) == Ids(codec, p) + [c]
  {
    hide EventIds, Split, CompleteLen, Complete;
    var line := l + [NL];
    Assoc(p, l, [NL]);
    assert (p + line)[..|p|] == p && (p + line)[|p|..] == line;
    IdsFrom(codec, p + line, |p|);
    OneLineIds(codec, l);
  }

  lemma OneLineIds(codec: Codec, l: Bytes)
    requires NoNL(l)
    ensures Ids(codec, l + [NL]) == LineIds(codec, l)
  {
    assert l + [NL] + [] == l + [NL];
    SplitCons(l, []);
    CompleteOfTerminated(l + [NL]);
    assert Split([]) == [] && [l] + [] == [l] && [l][1..] == [];
    assert EventIds(codec, [l]) == LineIds(codec, [l][0]) + EventIds(codec, [l][1..]);
    assert EventIds(codec, []) == [];
    assert LineIds(codec, l) + [] == LineIds(codec, l);
  }

  // ----- exactly once between rewrites ---------------------------------------------------

  /** The follower has consumed every complete line of `file`. */
  ghost predicate AtEnd(st: FollowState, file: File) {
    && st.offset == |Complete(file.content)|
    && st.anchor == AnchorAt(Complete(file.content), |Complete(file.content)|)
    && st.seenSize == |file.content| && st.ino == file.ino
  }

  /** No complete line is malformed or invalid. */
  ghost predicate Clean(codec: Codec, lines: seq<Bytes>) {
    forall i :: 0 <= i < |lines| ==> !ParseLine(codec, lines[i]).Invalid? && !ParseLine(codec, lines[i]).Malformed?
  }

  lemma CleanSuffix(codec: Codec, a: seq<Bytes>, b: seq<Bytes>)
    requires Clean(codec, a + b)
    ensures Readable(codec, b)
  {
    forall i | 0 <= i < |b| ensures !ParseLine(codec, b[i]).Invalid? && !ParseLine(codec, b[i]).Malformed? {
      assert (a + b)[|a| + i] == b[i];
    }
  }

  lemma SameIds(codec: Codec, content: Bytes)
    ensures Ids(codec, Complete(content)) == Ids(codec, content)
  {
    CompleteOfTerminated(Complete(content));
  }

  /** One poll after any append, whole or partial. */
  lemma PollGrown(codec: Codec, st: FollowState, before: File, after: File)
    requires AtEnd(st, before) && before.ino == after.ino && before.content <= after.content
    requires Clean(codec, Split(Complete(after.content)))
    ensures var r := PollFollowState(codec, st, Some(after));
            && r.Some? && AtEnd(r.value.1, after)
            && Ids(codec, after.content) == Ids(codec, before.content) + r.value.0
            && r.value.1.cursor == NextCursor(r.value.0, st.cursor)
  {
    hide EventIds, Split, CompleteLen, Complete, Clean, Readable;
    var stat := FileStat(Some(after));
    var prefix := Complete(before.content);
    SameIds(codec, before.content);
    CompleteMonotone(before.content, after.content);
    if stat.size == st.seenSize && stat.mtime == st.seenMtime {
      assert before.content == after.content;
      assert Ids(codec, before.content) + [] == Ids(codec, before.content);
    } else {
      ReadAfterPrefix(codec, stat, after.content, prefix);
      SplitConcat(prefix, Complete(after.content[|prefix|..]));
      CleanSuffix(codec, Split(prefix), Split(Complete(after.content[|prefix|..])));
    }
  }

  function Flatten(outs: seq<seq<Id>>): seq<Id> {
    if outs == [] then [] else Flatten(outs[..|outs| - 1]) + outs[|outs| - 1]
  }

  /** One generation seen at successive polls: the same inode, every content a prefix of the next. */
  ghost predicate Growing(files: seq<File>) {
    forall i :: 0 < i < |files| ==> files[i - 1].ino == files[i].ino && files[i - 1].content <= files[i].content
  }

  ghost predicate Polls(codec: Codec, files: seq<File>, states: seq<FollowState>, outs: seq<seq<Id>>) {
    && |states| == |files| == |outs| + 1
    && forall i :: 0 <= i < |outs| ==>
         && |states[i].anchor| <= states[i].offset
         && PollFollowState(codec, states[i], Some(files[i + 1])) == Some((outs[i], states[i + 1]))
  }

  lemma PollsEnds(codec: Codec, files: seq<File>, states: seq<FollowState>, outs: seq<seq<Id>>)
    requires Growing(files) && Polls(codec, files, states, outs)
    ensures |states| == |files| == |outs| + 1
    ensures var n := |outs|;
            n > 0 ==>
              && files[n - 1].ino == files[n].ino && files[n - 1].content <= files[n].content
              && |states[n - 1].anchor| <= states[n - 1].offset
              && PollFollowState(codec, states[n - 1], Some(files[n])) == Some((outs[n - 1], states[n]))
  {
    hide PollFollowState;
  }

  lemma PollsPrefix(codec: Codec, files: seq<File>, states: seq<FollowState>, outs: seq<seq<Id>>)
    requires Growing(files) && Polls(codec, files, states, outs) && outs != []
    ensures var n := |outs|;
            Growing(files[..n]) && Polls(codec, files[..n], states[..n], outs[..n - 1])
  {
    hide PollFollowState;
  }

  /** Between rewrites, for any split of the appends into partial writes, successive polls
      deliver the complete lines in file order, each exactly once. */
  lemma {:induction false} ExactlyOnce(codec: Codec, files: seq<File>, states: seq<FollowState>, outs: seq<seq<Id>>)
    requires Polls(codec, files, states, outs) && Growing(files) && AtEnd(states[0], files[0])
    requires forall i :: 0 <= i < |files| ==> Clean(codec, Split(Complete(files[i].content)))
    ensures Ids(codec, files[|outs|].content) == Ids(codec, files[0].content) + Flatten(outs)
    ensures AtEnd(states[|outs|], files[|outs|])
    decreases |outs|
  {
    hide Ids, Clean, PollFollowState, AtEnd, Polls, Growing;
    PollsEnds(codec, files, states, outs);
    var n := |outs|;
    if n == 0 {
      assert Ids(codec, files[0].content) + [] == Ids(codec, files[0].content);
    } else {
      PollsPrefix(codec, files, states, outs);
      ExactlyOnce(codec, files[..n], states[..n], outs[..n - 1]);
      PollGrown(codec, states[n - 1], files[n - 1], files[n]);
      Assoc(Ids(codec, files[0].content), Flatten(outs[..n - 1]), outs[n - 1]);
    }
  }

  /** The first poll: everything after the seed cursor, and the follower at the end. */
  lemma FirstPoll(codec: Codec, seed: Option<Id>, file: File)
    requires Readable(codec, Split(Complete(file.content)))
    requires seed.Some? ==> Once(Ids(codec, file.content), seed.value) && NamedByEvents(codec, seed.value, file.content)
    ensures var r := Positioned(ResolveFollowStart(codec, seed, Some(file)), seed);
            && r.Some? && r.value.0 == ApplyCursor(Ids(codec, file.content), seed)
            && AtEnd(r.value.1, file)
            && r.value.1.cursor == NextCursor(r.value.0, seed)
  {
    hide EventIds, Split, CompleteLen, Complete, Readable, ApplyCursor, Located;
    FullRead(codec, FileStat(Some(file)), file.content);
    if seed.Some? {
      FastRefinesSlow(codec, seed.value, file);
    }
  }

  // ----- across a prune -------------------------------------------------------------------

  /** The rewrite shows: another inode, a shorter file, or a changed stat and other bytes before the
      offset. */
  ghost predicate Shows(st: FollowState, file: File)
    requires |st.anchor| <= st.offset
  {
    || file.ino != st.ino || |file.content| < st.offset
    || ((|file.content| != st.seenSize || file.mtime != st.seenMtime)
        && file.content[st.offset - |st.anchor|..st.offset] != st.anchor)
  }

  /** The three ways of a poll, by the bytes of the file: a rewrite that shows is resolved from the cursor,
      an unchanged stat delivers nothing, and otherwise the lines after the offset are parsed, up to the
      last newline. */
  lemma PollExactly(codec: Codec, st: FollowState, file: File) returns (lines: seq<Bytes>)
    requires |st.anchor| <= st.offset
    ensures Shows(st, file) ==>
              PollFollowState(codec, st, Some(file))
              == Positioned(ResolveFollowStart(codec, st.cursor, Some(file)), st.cursor)
    ensures !Shows(st, file) && |file.content| == st.seenSize && file.mtime == st.seenMtime ==>
              PollFollowState(codec, st, Some(file)) == Some(([], st))
    ensures !Shows(st, file) && (|file.content| != st.seenSize || file.mtime != st.seenMtime) ==>
              var end := st.offset + |Unsplit(lines)|;
              && end <= |file.content| && Unsplit(lines) == file.content[st.offset..end]
              && (forall i :: 0 <= i < |lines| ==> NoNL(lines[i])) && NoNL(file.content[end..])
              && match PollFollowState(codec, st, Some(file))
                 case None => exists i: nat :: i < |lines| && RaisesAt(codec, lines, i)
                 case Some((ids, next)) =>
                   && ParseLines(codec, lines) == Some(ids)
                   && next.offset == end && next.seenSize == |file.content| && next.seenMtime == file.mtime
                   && next.ino == file.ino && next.cursor == if ids == [] then st.cursor else Some(ids[|ids| - 1])
  {
    hide ResolveFollowStart, ReadAfterOffset, ParseLines, Positioned, RaisesAt, Split, Unsplit;
    var stat := FileStat(Some(file));
    ReadExactly(stat, file.content, st.offset, st.anchor);
    lines := ReadAfterOffset(stat, file.content, st.offset, st.anchor).lines;
    var at := ParseLinesMeaning(codec, lines);
    NoLines();
  }

  /** After a `keep=N` prune the next poll returns exactly the survivors never delivered:
      with `ids[..k + 1]` delivered and the newest `n` kept, that is `ids[max(k + 1, |ids| - n)..]`. */
  lemma ReplayAfterKeep(codec: Codec, st: FollowState, ids: seq<Id>, k: nat, n: nat, file: File)
    requires Distinct(ids) && k < |ids| && st.cursor == Some(ids[k])
    requires |st.anchor| <= st.offset && Shows(st, file)
    requires Readable(codec, Split(Complete(file.content))) && NamedByEvents(codec, ids[k], file.content)
    requires Ids(codec, file.content) == Prune.PartitionByKeep(ids, n).0
    ensures var r := PollFollowState(codec, st, Some(file));
            && r.Some? && AtEnd(r.value.1, file)
            && r.value.0 == ids[if |ids| - n > k + 1 then |ids| - n else k + 1..]
  {
    hide Ids, ResolveFollowStart, Readable, ApplyCursor, AtEnd, PollFollowState, Shows, Positioned;
    KeepCursor(ids, k, n);
    FirstPoll(codec, st.cursor, file);
    var lines := PollExactly(codec, st, file);
  }

  lemma KeepCursor(ids: seq<Id>, k: nat, n: nat)
    requires Distinct(ids) && k < |ids|
    ensures var kept := Prune.PartitionByKeep(ids, n).0;
            && Once(kept, ids[k])
            && ApplyCursor(kept, Some(ids[k])) == ids[if |ids| - n > k + 1 then |ids| - n else k + 1..]
  {
    var d := if n >= |ids| then 0 else |ids| - n;
    var kept := ids[d..];
    assert kept == Prune.PartitionByKeep(ids, n).0;
    forall i | 0 <= i < |kept| && kept[i] == ids[k] ensures i == k - d {
      assert kept[i] == ids[d + i];
    }
    if d <= k {
      assert kept[k - d] == ids[k];
      assert IndexOf(kept, ids[k]) == k - d;
    }
  }

  /** A cutoff prune is not a suffix, so there the replay can repeat an event: `a` and `b` were
      delivered, a cutoff removed only `b`, and `a` is returned again. */
  lemma ReplayAfterCutoffRepeats(codec: Codec, st: FollowState, file: File, a: Prune.Event, b: Prune.Event, cutoff: int)
    requires a.id != b.id && a.createdAt >= cutoff > b.createdAt
    requires st.cursor == Some(b.id) && |st.anchor| <= st.offset && Shows(st, file)
    requires Readable(codec, Split(Complete(file.content))) && NamedByEvents(codec, b.id, file.content)
    requires Ids(codec, file.content) == [a.id]
    ensures Prune.PartitionByBefore([a, b], cutoff).0 == [a]
    ensures var r := PollFollowState(codec, st, Some(file)); r.Some? && r.value.0 == [a.id]
  {
    hide Ids, ResolveFollowStart, Readable, AtEnd, PollFollowState, Shows, Positioned;
    Prune.CutoffCanKeepEarlier(a, b, cutoff);
    assert IndexOf([a.id], b.id) == -1 && [a.id][0..] == [a.id];
    FirstPoll(codec, st.cursor, file);
    var lines := PollExactly(codec, st, file);
  }

  // ----- what a prune reads ---------------------------------------------------------------------------

  /** The prune's view of a line. */
  ghost predicate SeenAs(codec: Codec, line: Bytes, seen: Prune.Line) {
    match ParseLine(codec, line)
    case Event(id) => seen.Known? && seen.event.id == id
    case UnknownType(_) => seen.Unknown?
    case Malformed => seen.Garbled?
    case Invalid(_) => seen.Invalid?
    case Blank => false
  }

  ghost function EventNames(events: seq<Prune.Event>): seq<Id> {
    seq(|events|, i requires 0 <= i < |events| => events[i].id)
  }

  /** A prune reads the inbox as a reader does: the same inboxes raise, a torn tail standing for a last line
      that is malformed, and the events are the same. */
  lemma PruneReadsTheSame(codec: Codec, lines: seq<Bytes>, seen: seq<Prune.Line>, tail: Option<Bytes>)
    requires |lines| == |seen| && forall i :: 0 <= i < |lines| ==> SeenAs(codec, lines[i], seen[i])
    requires tail.Some? ==> ParseLine(codec, tail.value).Malformed?
    ensures var all := lines + (if tail.Some? then [tail.value] else []);
            && (Prune.Parses(seen, tail.Some?) <==> ParseLines(codec, all).Some?)
            && (ParseLines(codec, all).Some? ==> ParseLines(codec, all).value == EventNames(Prune.Events(seen)))
  {
    hide EventIds, Readable, Prune.Parses, Prune.Events, SeenAs;
    SameNames(codec, lines, seen);
    EventIdsConcat(codec, lines, if tail.Some? then [tail.value] else []);
    if tail.Some? {
      NoEvent(codec, tail.value);
    } else {
      assert lines + [] == lines;
    }
    SameRaises(codec, lines, seen, tail);
    assert EventIds(codec, lines) + [] == EventIds(codec, lines);
  }

  lemma NoEvent(codec: Codec, line: Bytes)
    requires ParseLine(codec, line).Malformed?
    ensures EventIds(codec, [line]) == []
  {
    assert [line][1..] == [] && EventIds(codec, []) == [];
  }

  /** Where a line would raise, as the prune sees it. */
  lemma SameRaises(codec: Codec, lines: seq<Bytes>, seen: seq<Prune.Line>, tail: Option<Bytes>)
    requires |lines| == |seen| && forall i :: 0 <= i < |lines| ==> SeenAs(codec, lines[i], seen[i])
    requires tail.Some? ==> ParseLine(codec, tail.value).Malformed?
    ensures Prune.Parses(seen, tail.Some?)
       <==> Readable(codec, lines + (if tail.Some? then [tail.value] else []))
  {
    hide LastNonBlank, ParseLine;
    var all := lines + (if tail.Some? then [tail.value] else []);
    forall i | 0 <= i < |all| ensures !ParseLine(codec, all[i]).Blank? {
      assert i < |lines| ==> all[i] == lines[i] && SeenAs(codec, lines[i], seen[i]);
    }
    LastIsLast(codec, all);
    forall i | 0 <= i < |lines|
      ensures all[i] == lines[i] && (ParseLine(codec, all[i]).Invalid? <==> seen[i].Invalid?)
      ensures ParseLine(codec, all[i]).Malformed? <==> seen[i].Garbled?
    {
      assert SeenAs(codec, lines[i], seen[i]);
    }
  }

  /** Without blank lines the last line is the last that is not blank. */
  lemma LastIsLast(codec: Codec, lines: seq<Bytes>)
    requires forall i :: 0 <= i < |lines| ==> !ParseLine(codec, lines[i]).Blank?
    ensures LastNonBlank(codec, lines) == |lines| - 1
  {
  }

  lemma {:induction false} SameNames(codec: Codec, lines: seq<Bytes>, seen: seq<Prune.Line>)
    requires |lines| == |seen| && forall i :: 0 <= i < |lines| ==> SeenAs(codec, lines[i], seen[i])
    ensures EventIds(codec, lines) == EventNames(Prune.Events(seen))
    decreases |lines|
  {
    if lines != [] {
      assert SeenAs(codec, lines[0], seen[0]);
      SameNames(codec, lines[1..], seen[1..]);
    }
  }

  // ----- the follower object ----------------------------------------------------------------

  /** What one poll of a follower does: the first resolves its seed, later ones continue. */
  ghost function PollOnce(codec: Codec, seed: Option<Id>, state: Option<FollowState>, file: Option<File>)
    : Option<(seq<Id>, FollowState)>
    requires state.Some? ==> |state.value.anchor| <= state.value.offset
  {
    match state
    case None => Positioned(ResolveFollowStart(codec, seed, file), seed)
    case Some(st) => PollFollowState(codec, st, file)
  }

  /** `_resolve_follow_start` run with the real scan and parse loops. */
  method ResolveStart(codec: Codec, needle: Bytes, cursor: Option<Id>, file: Option<File>)
    returns (r: Option<Resolved>)
    requires needle != [] && NoNL(needle)
    requires cursor.Some? && file.Some? ==>
               Needled(needle, IdLines(codec, cursor.value), Split(Complete(file.value.content)))
    ensures r == ResolveFollowStart(codec, cursor, file)
  {
    hide Needled, IdLines, ParseLines, ReadAfterOffset, Located;
    var at: Option<(nat, Bytes)> := None;
    if cursor.Some? && file.Some? {
      at := LocateAfterEvent(file.value.content, needle, codec, cursor.value);
    }
    if at.Some? {
      LocatedBounds(codec, cursor.value, file.value.content);
      var read := ReadFile(file, at.value.0, at.value.1);
      if read.anchored {
        var ids := ParseLinesLoop(codec, read.lines);
        return if ids.None? then None else Some(Resolved(ids.value, read));
      }
    }
    var read := ReadFile(file, 0, []);
    var ids := ParseLinesLoop(codec, read.lines);
    return if ids.None? then None else Some(Resolved(ApplyCursor(ids.value, cursor), read));
  }

  lemma LocatedBounds(codec: Codec, c: Id, content: Bytes)
    ensures var at := Located(IdLines(codec, c), content); at.Some? ==> |at.value.1| <= at.value.0
  {
  }

  /** `InboxFollower`. */
  class InboxFollower {
    const seed: Option<Id>
    var state: Option<FollowState>

    ghost predicate Valid()
      reads this
    {
      state.Some? ==> |state.value.anchor| <= state.value.offset
    }

    constructor (sinceCursor: Option<Id>)
      ensures seed == sinceCursor && state == None && Valid()
    {
      seed, state := sinceCursor, None;
    }

    function Cursor(): Option<Id>
      reads this
    {
      if state.None? then seed else state.value.cursor
    }

    /** One poll against the inbox as it is; a raise (`None`) leaves the follower unchanged. */
    method Poll(codec: Codec, needle: Bytes, file: Option<File>) returns (r: Option<seq<Id>>)
      requires Valid() && needle != [] && NoNL(needle)
      requires Cursor().Some? && file.Some? ==>
                 Needled(needle, IdLines(codec, Cursor().value), Split(Complete(file.value.content)))
      modifies this
      ensures Valid()
      ensures match PollOnce(codec, seed, old(state), file)
              case None => r == None && state == old(state)
              case Some((ids, st)) => r == Some(ids) && state == Some(st)
      ensures Cursor() == if r.None? then old(Cursor()) else NextCursor(r.value, old(Cursor()))
    {
      hide Needled, IdLines, ParseLines, ReadAfterOffset, Located, Split, Complete, ResolveFollowStart;
      ghost var before := Cursor();
      PollKeepsAnchor(codec, seed, state, file);
      var cursor := Cursor();
      if state.Some? {
        var st, stat := state.value, FileStat(file);
        if stat.ino == st.ino && st.offset <= stat.size {
          if stat.size == st.seenSize && stat.mtime == st.seenMtime {
            return Some([]);
          }
          var read := ReadFile(file, st.offset, st.anchor);
          if read.anchored {
            var ids := ParseLinesLoop(codec, read.lines);
            if ids.None? {
              return None;
            }
            state := Some(FromRead(read, NextCursor(ids.value, cursor)));
            return ids;
          }
        }
      }
      var resolved := ResolveStart(codec, needle, cursor, file);
      if resolved.None? {
        return None;
      }
      state := Some(FromRead(resolved.value.read, NextCursor(resolved.value.out, cursor)));
      return Some(resolved.value.out);
    }
  }

  /** A read never leaves an anchor longer than its offset. */
  lemma ReadKeepsAnchor(file: Option<File>, offset: nat, anchor: Bytes)
    requires |anchor| <= offset
    ensures var r := ReadFile(file, offset, anchor); |r.anchor| <= r.offset
  {
    hide Split, CompleteLen;
  }

  lemma PollKeepsAnchor(codec: Codec, seed: Option<Id>, state: Option<FollowState>, file: Option<File>)
    requires state.Some? ==> |state.value.anchor| <= state.value.offset
    ensures var r := PollOnce(codec, seed, state, file);
            r.Some? ==> |r.value.1.anchor| <= r.value.1.offset
                        && r.value.1.cursor == NextCursor(r.value.0, if state.None? then seed else state.value.cursor)
  {
    hide ParseLines, ReadAfterOffset, Located, IdLines;
    ReadKeepsAnchor(file, 0, []);
    var cursor := if state.None? then seed else state.value.cursor;
    var at := LocateIn(codec, cursor, file);
    if at.Some? {
      LocatedBounds(codec, cursor.value, file.value.content);
      ReadKeepsAnchor(file, at.value.0, at.value.1);
    }
    if state.Some? {
      ReadKeepsAnchor(file, state.value.offset, state.value.anchor);
    }
  }
}
