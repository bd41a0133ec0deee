/** A lock-free inbox follower against concurrent appends and rewrites (`events.py`
    `_poll_follow_state`, `_resolve_follow_start`, `_reresolve_follow_state`; `events_follow.py`).

    A poll is several separate system calls: a `stat`, the open and scan of a cursor lookup,
    an open with `fstat`, and a read from that descriptor. Between any two of them the
    environment may append bytes (whole lines, partial lines, garbage) or replace the file.
    A replaced file lives on for a descriptor that is already open. */
module Follow {
  import opened Common
  import opened Lines
  import opened EventsTail
  import opened Inbox
  import opened Poll

  // ----- the world -------------------------------------------------------------------

  /** Every generation of the inbox, oldest first (none: the inbox does not exist yet), and
      the order in which event ids were completed in it. */
  datatype World = World(files: seq<File>, rank: map<Id, nat>, clock: nat)

  ghost function Current(w: World): Bytes {
    if w.files == [] then [] else w.files[|w.files| - 1].content
  }

  ghost function CurrentStat(w: World): Stat {
    if w.files == [] then ABSENT
    else var f := w.files[|w.files| - 1]; Stat(|f.content|, f.ino, f.mtime)
  }

  ghost function IdSet(codec: Codec, content: Bytes): set<Id> {
    set e | e in Ids(codec, content)
  }

  /** Ids are ranked by completion, and a file lists them in that order. */
  ghost predicate Ordered(rank: map<Id, nat>, ids: seq<Id>) {
    && (forall i :: 0 <= i < |ids| ==> ids[i] in rank)
    && (forall i, j :: 0 <= i < j < |ids| ==> rank[ids[i]] < rank[ids[j]])
  }

  ghost predicate WorldInv(codec: Codec, w: World) {
    && (forall e :: e in w.rank ==> w.rank[e] < w.clock)
    && (forall k :: 0 <= k < |w.files| ==> w.files[k].ino > 0 && Ordered(w.rank, Ids(codec, w.files[k].content)))
  }

  // ----- the follower ----------------------------------------------------------------

  /** Why a read is made. `prefix` is history: the bytes before the located offset. */
  datatype Mode = Incremental | AfterLocate(prefix: Bytes) | FromStart

  /** Between two system calls of a poll. In `Opened`, `seen` is history: the content at `fstat`. */
  datatype Phase =
    | Idle
    | ToLocate
    | ToOpen(offset: nat, anchor: Bytes, mode: Mode)
    | Opened(fd: nat, stat: Stat, seen: Bytes, offset: nat, anchor: Bytes, mode: Mode)

  /** The follower and its history: what it delivered, the start cursor's rank bound `floor`,
      when its poll began, the start of its last successful poll (`synced`), the bytes it
      consumed and the content its last `fstat` described. */
  datatype Follower = Follower(st: FollowState, phase: Phase, seed: Option<Id>, floor: nat,
                               delivered: set<Id>, pollStart: nat, synced: nat,
                               consumed: Bytes, seen: Bytes)

  datatype State = State(w: World, f: Follower)

  function Resolve(cursor: Option<Id>): Phase {
    if cursor.None? then ToOpen(0, [], FromStart) else ToLocate
  }

  /** A follower that has not polled yet: its first poll resolves the seed cursor. */
  ghost predicate Init(codec: Codec, s: State) {
    && WorldInv(codec, s.w)
    && s.f.st == FollowState(0, 0, 0, 0, s.f.seed, [])
    && s.f.phase == Resolve(s.f.seed)
    && s.f.floor == (if s.f.seed.Some? && s.f.seed.value in s.w.rank then s.w.rank[s.f.seed.value] + 1 else 0)
    && s.f.delivered == {} && s.f.pollStart == s.w.clock && s.f.synced == 0
    && s.f.consumed == [] && s.f.seen == []
  }

  // ----- steps -----------------------------------------------------------------------

  datatype Step =
    | Append(bytes: Bytes, mtime: int, ino: nat)
    | Rewrite(content: Bytes, mtime: int, ino: nat)
    | Touch(mtime: int)
    | PollStat
    | Locate
    | LocateFails
    | Open
    | Read
    | ReadFails

  /** The complete lines that appending `bytes` adds. */
  ghost function NewIds(codec: Codec, content: Bytes, bytes: Bytes): seq<Id> {
    Ids(codec, (content + bytes)[CompleteLen(content)..])
  }

  ghost predicate Subseq(a: seq<Id>, b: seq<Id>)
    decreases b
  {
    a == [] || (b != [] && ((a[0] == b[0] && Subseq(a[1..], b[1..])) || Subseq(a, b[1..])))
  }

  ghost predicate CanRead(s: State) {
    s.f.phase.Opened? && |s.f.phase.anchor| <= s.f.phase.offset && s.f.phase.fd < |s.w.files|
  }

  /** The file behind the open descriptor, which a rewrite may have replaced since. */
  ghost function OpenContent(s: State): Bytes
    requires CanRead(s)
  {
    s.w.files[s.f.phase.fd].content
  }

  ghost function TheRead(s: State): InboxRead
    requires CanRead(s)
  {
    ReadAfterOffset(s.f.phase.stat, OpenContent(s), s.f.phase.offset, s.f.phase.anchor)
  }

  ghost predicate Enabled(codec: Codec, s: State, step: Step) {
    match step
    case Append(bytes, _, ino) =>
      // any bytes; a completed event line has an id never used before
      var added := NewIds(codec, Current(s.w), bytes);
      ino > 0 && |added| <= 1 && (|added| == 1 ==> added[0] !in s.w.rank && Some(added[0]) != s.f.seed)
    case Rewrite(content, _, ino) =>
      // prune: any order-preserving filter, written whole; the inode number may be reused
      ino > 0 && s.w.files != [] && Terminated(content)
      && Subseq(Ids(codec, content), Ids(codec, Current(s.w)))
    case Touch(_) => s.w.files != []
    case PollStat => s.f.phase.Idle?
    case Locate => s.f.phase.ToLocate? && s.f.st.cursor.Some?
    case LocateFails => s.f.phase.ToLocate?
    case Open => s.f.phase.ToOpen? && |s.f.phase.anchor| <= s.f.phase.offset
    case Read => CanRead(s)
    case ReadFails => s.f.phase.ToOpen? || s.f.phase.Opened?
  }

  ghost function DoAppend(codec: Codec, w: World, bytes: Bytes, mtime: int, ino: nat): World {
    var added := NewIds(codec, Current(w), bytes);
    var n := |w.files| - 1;
    World(if w.files == [] then [File(ino, mtime, bytes)]
          else w.files[n := File(w.files[n].ino, mtime, w.files[n].content + bytes)],
          if added == [] then w.rank else w.rank[added[0] := w.clock],
          if added == [] then w.clock else w.clock + 1)
  }

  /** What a poll does with a finished read; `raised` keeps the follower as it was. */
  ghost function Finish(codec: Codec, f: Follower, r: InboxRead, mode: Mode, content: Bytes, seen: Bytes,
                        ok: bool): Follower {
    if !r.anchored then
      f.(phase := if mode.Incremental? then Resolve(f.st.cursor) else ToOpen(0, [], FromStart))
    else
      match ParseLines(codec, r.lines)
      case None => f.(phase := Idle)
      case Some(ids) =>
        var out := if mode.FromStart? then ApplyCursor(ids, f.st.cursor) else ids;
        f.(st := FromRead(r, NextCursor(out, f.st.cursor)),
           phase := Idle,
           delivered := f.delivered + (set e | e in out),
           synced := if ok then f.pollStart else f.synced,
           consumed := Complete(content),
           seen := seen)
  }

  ghost function DoPollStat(s: State): Follower {
    var stat := CurrentStat(s.w);
    var st := s.f.st;
    var f := s.f.(pollStart := s.w.clock);
    if stat.ino != st.ino || stat.size < st.offset then f.(phase := Resolve(st.cursor))
    else if stat.size == st.seenSize && stat.mtime == st.seenMtime then f.(synced := s.w.clock)
    else f.(phase := ToOpen(st.offset, st.anchor, Incremental))
  }

  ghost function DoLocate(codec: Codec, s: State): Follower
    requires s.f.st.cursor.Some?
  {
    var content := Current(s.w);
    match Located(IdLines(codec, s.f.st.cursor.value), content)
    case None => s.f.(phase := ToOpen(0, [], FromStart))
    case Some((end, anchor)) => s.f.(phase := ToOpen(end, anchor, AfterLocate(content[..end])))
  }

  ghost function DoOpen(codec: Codec, s: State): Follower
    requires s.f.phase.ToOpen? && |s.f.phase.anchor| <= s.f.phase.offset
  {
    var p := s.f.phase;
    if s.w.files == [] then Finish(codec, s.f, ReadAbsent(p.offset, p.anchor), p.mode, [], [], true)
    else s.f.(phase := Opened(|s.w.files| - 1, CurrentStat(s.w), Current(s.w), p.offset, p.anchor, p.mode))
  }

  ghost function DoRead(codec: Codec, s: State): Follower
    requires CanRead(s)
  {
    Finish(codec, s.f, TheRead(s), s.f.phase.mode, OpenContent(s), s.f.phase.seen, true)
  }

  ghost function Do(codec: Codec, s: State, step: Step): State
    requires Enabled(codec, s, step)
  {
    match step
    case Append(bytes, mtime, ino) => s.(w := DoAppend(codec, s.w, bytes, mtime, ino))
    case Rewrite(content, mtime, ino) => s.(w := s.w.(files := s.w.files + [File(ino, mtime, content)]))
    case Touch(mtime) =>
      var n := |s.w.files| - 1;
      s.(w := s.w.(files := s.w.files[n := s.w.files[n].(mtime := mtime)]))
    case PollStat => s.(f := DoPollStat(s))
    case Locate => s.(f := DoLocate(codec, s))
    case LocateFails => s.(f := s.f.(phase := ToOpen(0, [], FromStart)))
    case Open => s.(f := DoOpen(codec, s))
    case Read => s.(f := DoRead(codec, s))
    case ReadFails =>
      s.(f := Finish(codec, s.f, ReadAbsent(s.f.phase.offset, s.f.phase.anchor), s.f.phase.mode, [], [], false))
  }

  // ----- the hypothesis ----------------------------------------------------------------

  /** An unchanged `(inode, size, mtime)` means unchanged bytes. */
  ghost predicate StatFaithful(s: State) {
    CurrentStat(s.w) == Stat(s.f.st.seenSize, s.f.st.ino, s.f.st.seenMtime) ==> Current(s.w) == s.f.seen
  }

  /** The bytes a read is to continue from. */
  ghost function Prefix(s: State): Bytes
    requires s.f.phase.Opened?
  {
    match s.f.phase.mode
    case Incremental => s.f.consumed
    case AfterLocate(prefix) => prefix
    case FromStart => []
  }

  /** The anchor tells the bytes before it: the file that is read, if it holds the anchor at the
      offset, starts with what the read continues from. */
  ghost predicate AnchorFaithful(s: State)
    requires CanRead(s)
  {
    var p, g := s.f.phase, OpenContent(s);
    p.offset <= |g| && g[p.offset - |p.anchor|..p.offset] == p.anchor ==> Prefix(s) <= g
  }

  /** What a step relies on. An idle poll relies on the stat, a lookup on the cursor's id standing on
      event lines only, and a read on the anchor in the one file it reads. */
  ghost predicate Trusted(codec: Codec, s: State, step: Step) {
    && (step.PollStat? && s.f.st.ino != 0 ==> StatFaithful(s))
    && (step.Locate? && s.f.st.cursor.Some? ==> NamedByEvents(codec, s.f.st.cursor.value, Current(s.w)))
    && (step.Read? && CanRead(s) ==> AnchorFaithful(s))
  }

  // ----- the invariant ---------------------------------------------------------------

  /** Delivered, or at or before the start cursor. */
  ghost predicate Covered(s: State, e: Id) {
    e in s.f.delivered || (e in s.w.rank && s.w.rank[e] < s.f.floor)
  }

  /** Everything a file lists up to the cursor is covered. */
  ghost predicate CursorCovers(codec: Codec, s: State, content: Bytes) {
    s.f.st.cursor.Some? && s.f.st.cursor.value in s.w.rank ==>
      forall e :: e in IdSet(codec, content) && e in s.w.rank && s.w.rank[e] <= s.w.rank[s.f.st.cursor.value] ==>
        Covered(s, e)
  }

  /** Everything recorded before rank `n` and still in the file is covered. */
  ghost predicate CoveredBelow(codec: Codec, s: State, content: Bytes, n: nat) {
    forall e :: e in IdSet(codec, content) && e in s.w.rank && s.w.rank[e] < n ==> Covered(s, e)
  }

  /** The recorded position: consumed whole lines, all covered, at least what `fstat` saw. */
  ghost predicate PositionInv(codec: Codec, s: State) {
    s.f.st.ino != 0 ==>
      && Terminated(s.f.consumed)
      && s.f.st.offset == |s.f.consumed|
      && s.f.st.anchor == AnchorAt(s.f.consumed, |s.f.consumed|)
      && Complete(s.f.seen) <= s.f.consumed
      && (forall e :: e in IdSet(codec, s.f.consumed) ==> Covered(s, e))
  }

  /** A located prefix ends with the cursor's own line. */
  ghost predicate ModeInv(codec: Codec, s: State, offset: nat, anchor: Bytes, mode: Mode) {
    match mode
    case FromStart => offset == 0 && anchor == []
    case Incremental => s.f.st.ino != 0 && offset == s.f.st.offset && anchor == s.f.st.anchor
    case AfterLocate(prefix) =>
      && Terminated(prefix) && offset == |prefix| && anchor == AnchorAt(prefix, |prefix|)
      && s.f.st.cursor.Some? && s.f.st.cursor.value in s.w.rank
      && (forall e :: e in IdSet(codec, prefix) ==>
            e in s.w.rank && s.w.rank[e] <= s.w.rank[s.f.st.cursor.value])
  }

  ghost predicate NoOlderMissing(codec: Codec, w: World, g: Bytes) {
    forall e, c | e in IdSet(codec, Current(w)) && c in IdSet(codec, g) && e in w.rank && c in w.rank ::
      w.rank[e] <= w.rank[c] ==> e in IdSet(codec, g)
  }

  /** An open descriptor: its file only grew since `fstat`, and no event of the current inbox
      that is older than something in it is missing from it. */
  ghost predicate OpenInv(codec: Codec, s: State) {
    s.f.phase.Opened? ==>
      && s.f.phase.fd < |s.w.files|
      && var g := s.w.files[s.f.phase.fd].content;
      && s.f.phase.stat.ino > 0
      && s.f.phase.seen <= g
      && s.f.phase.stat.size == |s.f.phase.seen|
      && CursorCovers(codec, s, g)
      && (forall e :: e in IdSet(codec, Current(s.w)) && e in s.w.rank && s.w.rank[e] < s.f.pollStart ==>
            e in IdSet(codec, g))
      && NoOlderMissing(codec, s.w, g)
  }

  ghost predicate PhaseInv(codec: Codec, s: State) {
    match s.f.phase
    case Idle => true
    case ToLocate => s.f.st.cursor.Some?
    case ToOpen(offset, anchor, mode) => ModeInv(codec, s, offset, anchor, mode)
    case Opened(_, _, _, offset, anchor, mode) => ModeInv(codec, s, offset, anchor, mode)
  }

  ghost predicate Inv(codec: Codec, s: State) {
    && WorldInv(codec, s.w)
    && s.f.synced <= s.w.clock && s.f.pollStart <= s.w.clock
    && (s.f.st.cursor.Some? ==> s.f.st.cursor.value in s.w.rank || s.f.st.cursor == s.f.seed)
    && (s.f.st.ino == 0 ==> s.f.st.seenSize == 0 && s.f.st.seenMtime == 0)
    && CursorCovers(codec, s, Current(s.w))
    && CoveredBelow(codec, s, Current(s.w), s.f.synced)
    && PositionInv(codec, s)
    && PhaseInv(codec, s)
    && OpenInv(codec, s)
  }

  lemma InitInv(codec: Codec, s: State)
    requires Init(codec, s)
    ensures Inv(codec, s)
  {
  }

  // ----- environment steps -----------------------------------------------------------

  lemma AppendIds(codec: Codec, content: Bytes, bytes: Bytes)
    ensures Ids(codec, content + bytes) == Ids(codec, content) + NewIds(codec, content, bytes)
  {
    var n := CompleteLen(content);
    assert (content + bytes)[..n] == Complete(content);
    IdsFrom(codec, content + bytes, n);
    CompleteOfTerminated(Complete(content));
  }

  lemma AppendOrdered(rank: map<Id, nat>, clock: nat, ids: seq<Id>, id: Id)
    requires Ordered(rank, ids) && id !in rank
    requires forall e :: e in rank ==> rank[e] < clock
    ensures Ordered(rank[id := clock], ids) && Ordered(rank[id := clock], ids + [id])
  {
  }

  lemma AppendOne(rank: map<Id, nat>, clock: nat, ids: seq<Id>, added: seq<Id>)
    requires Ordered(rank, ids) && |added| <= 1 && (|added| == 1 ==> added[0] !in rank)
    requires forall e :: e in rank ==> rank[e] < clock
    ensures var rank' := if added == [] then rank else rank[added[0] := clock];
            Ordered(rank', ids) && Ordered(rank', ids + added)
  {
    if added == [] {
      assert ids + added == ids;
    } else {
      AppendOrdered(rank, clock, ids, added[0]);
      assert added == [added[0]];
    }
  }

  lemma {:induction false} SubseqOrdered(rank: map<Id, nat>, a: seq<Id>, b: seq<Id>)
    requires Subseq(a, b) && Ordered(rank, b)
    ensures Ordered(rank, a)
    ensures forall e :: e in a ==> e in b
    decreases b
  {
    if a != [] {
      assert forall i :: 0 <= i < |b[1..]| ==> b[1..][i] == b[i + 1];
      assert Ordered(rank, b[1..]);
      if a[0] == b[0] && Subseq(a[1..], b[1..]) {
        SubseqOrdered(rank, a[1..], b[1..]);
        forall i | 0 <= i < |a| ensures a[i] in rank && a[i] in b {
          if i > 0 {
            assert a[i] == a[1..][i - 1];
            assert a[i] in b[1..];
          }
        }
        forall j | 0 < j < |a| ensures rank[a[0]] < rank[a[j]] {
          assert a[j] == a[1..][j - 1];
          assert a[j] in b[1..];
        }
        forall i, j | 0 <= i < j < |a| ensures rank[a[i]] < rank[a[j]] {
          if i > 0 {
            assert a[i] == a[1..][i - 1] && a[j] == a[1..][j - 1];
          }
        }
      } else {
        SubseqOrdered(rank, a, b[1..]);
      }
    }
  }

  /** How the ids of a growing file change. */
  lemma GrowIds(codec: Codec, w: World, content: Bytes, bytes: Bytes, mtime: int, ino: nat)
    requires WorldInv(codec, w) && content == Current(w)
    requires var added := NewIds(codec, content, bytes); |added| <= 1 && (|added| == 1 ==> added[0] !in w.rank)
    ensures var w' := DoAppend(codec, w, bytes, mtime, ino);
            && Current(w') == content + bytes
            && w.clock <= w'.clock
            && (forall e :: e in w.rank ==> e in w'.rank && w'.rank[e] == w.rank[e])
            && (forall e :: e in w'.rank && e !in w.rank ==> w'.rank[e] == w.clock < w'.clock)
            && IdSet(codec, content) <= IdSet(codec, content + bytes)
            && (forall e :: e in IdSet(codec, content + bytes) && e !in IdSet(codec, content) ==> e !in w.rank)
  {
    hide Ids, NewIds, CompleteLen;
    AppendIds(codec, content, bytes);
    var added := NewIds(codec, content, bytes);
    assert Current(DoAppend(codec, w, bytes, mtime, ino)) == content + bytes by {
      assert [] + bytes == bytes;
    }
  }

  lemma AppendWorld(codec: Codec, w: World, bytes: Bytes, mtime: int, ino: nat)
    requires WorldInv(codec, w) && ino > 0
    requires var added := NewIds(codec, Current(w), bytes); |added| <= 1 && (|added| == 1 ==> added[0] !in w.rank)
    ensures WorldInv(codec, DoAppend(codec, w, bytes, mtime, ino))
  {
    hide Ids, NewIds, CompleteLen;
    var w' := DoAppend(codec, w, bytes, mtime, ino);
    var added := NewIds(codec, Current(w), bytes);
    AppendIds(codec, Current(w), bytes);
    assert [] + bytes == bytes;
    EmptyIds(codec);
    forall k | 0 <= k < |w'.files| ensures Ordered(w'.rank, Ids(codec, w'.files[k].content)) {
      var before := if w.files == [] then [] else w.files[k].content;
      assert Ordered(w.rank, Ids(codec, before));
      AppendOne(w.rank, w.clock, Ids(codec, before), added);
    }
  }

  lemma EmptyIds(codec: Codec)
    ensures Ids(codec, []) == []
  {
  }

  lemma AppendOpen(codec: Codec, s: State, bytes: Bytes, mtime: int, ino: nat)
    requires Inv(codec, s) && Enabled(codec, s, Append(bytes, mtime, ino))
    ensures OpenInv(codec, Do(codec, s, Append(bytes, mtime, ino)))
  {
    hide Ids, NewIds, IdSet, PositionInv, ModeInv, CoveredBelow;
    var w' := DoAppend(codec, s.w, bytes, mtime, ino);
    GrowIds(codec, s.w, Current(s.w), bytes, mtime, ino);
    if s.f.phase.Opened? {
      var g := s.w.files[s.f.phase.fd].content;
      IdsRanked(codec, s.w, s.f.phase.fd);
    }
  }

  lemma IdsRanked(codec: Codec, w: World, k: nat)
    requires WorldInv(codec, w) && k < |w.files|
    ensures forall e :: e in IdSet(codec, w.files[k].content) ==> e in w.rank
  {
    hide Ids;
    assert Ordered(w.rank, Ids(codec, w.files[k].content));
  }

  /** The world grew: old ranks stay, a new event gets the clock. */
  ghost predicate Extends(w: World, w': World) {
    && w.clock <= w'.clock
    && (forall e :: e in w.rank ==> e in w'.rank && w'.rank[e] == w.rank[e])
    && (forall e :: e in w'.rank && e !in w.rank ==> w'.rank[e] == w.clock < w'.clock)
  }

  lemma CoveredOn(s: State, w': World)
    requires Extends(s.w, w')
    ensures forall e :: Covered(s, e) ==> Covered(s.(w := w'), e)
  {
  }

  lemma GrownPosition(codec: Codec, s: State, w': World)
    requires PositionInv(codec, s) && PhaseInv(codec, s) && Extends(s.w, w')
    ensures PositionInv(codec, s.(w := w')) && PhaseInv(codec, s.(w := w'))
  {
    hide IdSet, AnchorAt, Complete, Terminated;
    CoveredOn(s, w');
    hide Covered;
  }

  /** What the file gained was never ranked. */
  ghost predicate OnlyNew(codec: Codec, w: World, content: Bytes, content': Bytes) {
    forall e :: e in IdSet(codec, content') && e !in IdSet(codec, content) ==> e !in w.rank
  }

  /** The seed is not the event that was added. */
  ghost predicate SeedKept(s: State, w': World) {
    forall e :: e in w'.rank && e !in s.w.rank ==> Some(e) != s.f.seed
  }

  /** No cursor and no finished poll has reached the rank of what is new. */
  lemma GrownCovers(codec: Codec, s: State, w': World, content: Bytes, content': Bytes)
    requires Extends(s.w, w') && SeedKept(s, w') && s.f.synced <= s.w.clock && WorldInv(codec, s.w)
    requires s.f.st.cursor.Some? ==> s.f.st.cursor.value in s.w.rank || s.f.st.cursor == s.f.seed
    requires OnlyNew(codec, s.w, content, content')
    requires CursorCovers(codec, s, content) && CoveredBelow(codec, s, content, s.f.synced)
    ensures CursorCovers(codec, s.(w := w'), content') && CoveredBelow(codec, s.(w := w'), content', s.f.synced)
    ensures s.f.st.cursor.Some? ==> s.f.st.cursor.value in w'.rank || s.f.st.cursor == s.f.seed
  {
    hide IdSet, Ids, Ordered;
    CoveredOn(s, w');
    hide Covered;
  }

  lemma AppendGrows(codec: Codec, s: State, bytes: Bytes, mtime: int, ino: nat)
    requires WorldInv(codec, s.w) && Enabled(codec, s, Append(bytes, mtime, ino))
    ensures var w' := DoAppend(codec, s.w, bytes, mtime, ino);
            Extends(s.w, w') && SeedKept(s, w') && OnlyNew(codec, s.w, Current(s.w), Current(w'))
  {
    hide Ids, NewIds, IdSet, WorldInv;
    GrowIds(codec, s.w, Current(s.w), bytes, mtime, ino);
  }

  lemma AppendInv(codec: Codec, s: State, bytes: Bytes, mtime: int, ino: nat)
    requires Inv(codec, s) && Enabled(codec, s, Append(bytes, mtime, ino))
    ensures Inv(codec, Do(codec, s, Append(bytes, mtime, ino)))
  {
    AppendWorld(codec, s.w, bytes, mtime, ino);
    AppendGrows(codec, s, bytes, mtime, ino);
    AppendOpen(codec, s, bytes, mtime, ino);
    var w' := DoAppend(codec, s.w, bytes, mtime, ino);
    assert w'.clock >= s.w.clock;
    hide NewIds, Extends, SeedKept, OnlyNew, OpenInv, PositionInv, PhaseInv, CursorCovers, CoveredBelow, WorldInv;
    hide DoAppend, Current;
    GrownPosition(codec, s, w');
    GrownCovers(codec, s, w', Current(s.w), Current(w'));
  }

  lemma RewriteInv(codec: Codec, s: State, content: Bytes, mtime: int, ino: nat)
    requires Inv(codec, s) && Enabled(codec, s, Rewrite(content, mtime, ino))
    ensures Inv(codec, Do(codec, s, Rewrite(content, mtime, ino)))
  {
    hide Ids, Ordered, Subseq, AnchorAt, Complete, CompleteLen;
    var s' := Do(codec, s, Rewrite(content, mtime, ino));
    SubseqOrdered(s.w.rank, Ids(codec, content), Ids(codec, Current(s.w)));
    assert IdSet(codec, Current(s'.w)) <= IdSet(codec, Current(s.w));
  }

  /** The invariant looks at the bytes and inodes of files only. */
  lemma SameBytes(codec: Codec, s: State, files: seq<File>)
    requires Inv(codec, s) && |files| == |s.w.files|
    requires forall k :: 0 <= k < |files| ==>
               files[k].content == s.w.files[k].content && files[k].ino == s.w.files[k].ino
    ensures Inv(codec, s.(w := s.w.(files := files)))
  {
    hide Ids, Ordered, IdSet, Complete, CompleteLen, AnchorAt, Terminated;
    var s' := s.(w := s.w.(files := files));
    assert Current(s'.w) == Current(s.w);
    assert forall e :: Covered(s, e) <==> Covered(s', e);
  }

  lemma TouchInv(codec: Codec, s: State, mtime: int)
    requires Inv(codec, s) && Enabled(codec, s, Touch(mtime))
    ensures Inv(codec, Do(codec, s, Touch(mtime)))
  {
    hide Inv;
    SameBytes(codec, s, Do(codec, s, Touch(mtime)).w.files);
  }

  // ----- follower steps --------------------------------------------------------------

  /** The lines of a complete prefix are among the lines of the longer file. */
  lemma PrefixIds(codec: Codec, a: Bytes, b: Bytes)
    requires Complete(a) <= b
    ensures IdSet(codec, a) <= IdSet(codec, b)
  {
    hide EventIds, Split;
    var n := CompleteLen(a);
    assert b[..n] == Complete(a);
    IdsFrom(codec, b, n);
    CompleteOfTerminated(Complete(a));
  }

  lemma PollStartInv(codec: Codec, s: State)
    requires Inv(codec, s) && s.f.phase.Idle?
    ensures Inv(codec, s.(f := s.f.(pollStart := s.w.clock)))
  {
    hide WorldInv, IdSet, Complete, AnchorAt;
    var s' := s.(f := s.f.(pollStart := s.w.clock));
    assert forall e :: Covered(s, e) <==> Covered(s', e);
  }

  /** A stat that shows no change: everything in the file is covered. */
  lemma IdleStatInv(codec: Codec, s: State)
    requires Inv(codec, s) && s.f.phase.Idle? && CurrentStat(s.w) == Stat(s.f.st.seenSize, s.f.st.ino, s.f.st.seenMtime)
    requires s.f.st.ino != 0 ==> StatFaithful(s)
    ensures Inv(codec, s.(f := s.f.(synced := s.w.clock)))
  {
    hide IdSet, Complete, AnchorAt, Ordered;
    var s' := s.(f := s.f.(synced := s.w.clock));
    assert forall e :: Covered(s, e) <==> Covered(s', e);
    if s.w.files != [] {
      assert s.w.files[|s.w.files| - 1].ino > 0;
      PrefixIds(codec, s.f.seen, s.f.consumed);
    } else {
      NoIds(codec);
    }
  }

  /** A changed stat is read on from the recorded position only if there is one. */
  lemma StatPhase(codec: Codec, s: State)
    requires Inv(codec, s) && s.f.phase.Idle?
    ensures PhaseInv(codec, s.(f := DoPollStat(s)))
  {
    hide IdSet, Complete, AnchorAt, Ordered, CursorCovers, CoveredBelow;
    if s.w.files != [] {
      assert s.w.files[|s.w.files| - 1].ino > 0;
    }
  }

  lemma PollStatInv(codec: Codec, s: State)
    requires Inv(codec, s) && Trusted(codec, s, PollStat) && s.f.phase.Idle?
    ensures Inv(codec, Do(codec, s, PollStat))
  {
    hide Inv, PhaseInv, Current;
    var s1 := s.(f := s.f.(pollStart := s.w.clock));
    PollStartInv(codec, s);
    StatPhase(codec, s);
    var f := DoPollStat(s);
    if f.phase.Idle? {
      IdleStatInv(codec, s1);
    } else {
      assert f == s1.f.(phase := f.phase);
      PhaseChange(codec, s1, f.phase);
    }
  }

  lemma NoIds(codec: Codec)
    ensures IdSet(codec, []) == {}
  {
  }

  /** What the lookup finds: a prefix whose last event is the cursor's. */
  lemma LocatedPrefix(codec: Codec, rank: map<Id, nat>, content: Bytes, c: Id)
    requires Ordered(rank, Ids(codec, content))
    requires Located(IdLines(codec, c), content).Some? && NamedByEvents(codec, c, content)
    ensures var (end, anchor) := Located(IdLines(codec, c), content).value;
            && end <= |content|
            && var prefix := content[..end];
            && Terminated(prefix)
            && anchor == AnchorAt(prefix, |prefix|)
            && c in rank
            && forall e :: e in IdSet(codec, prefix) ==> e in rank && rank[e] <= rank[c]
  {
    hide Ids, Located, IdLines, Ordered, NamedByEvents;
    var prefix, before := LocatedAt(codec, c, content);
    assert content[..|prefix|] == prefix;
    IdsFrom(codec, content, |prefix|);
    UpToLast(rank, Ids(codec, prefix), Ids(codec, content[|prefix|..]), c);
  }

  lemma UpToLast(rank: map<Id, nat>, a: seq<Id>, b: seq<Id>, c: Id)
    requires Ordered(rank, a + b) && a != [] && a[|a| - 1] == c
    ensures c in rank && forall e :: e in a ==> e in rank && rank[e] <= rank[c]
  {
    var ids := a + b;
    var k := |a| - 1;
    forall e | e in a ensures e in rank && rank[e] <= rank[c] {
      var i :| 0 <= i < |a| && a[i] == e;
      assert ids[i] == e && ids[k] == c;
    }
    assert ids[k] == c;
  }

  lemma LocateInv(codec: Codec, s: State)
    requires Inv(codec, s) && Enabled(codec, s, Locate) && Trusted(codec, s, Locate)
    ensures Inv(codec, Do(codec, s, Locate))
  {
    hide Ids, IdSet, Located, IdLines, Ordered, NamedByEvents, CursorCovers, CoveredBelow, PositionInv, OpenInv;
    NoLocate(codec, s.f.st.cursor.value);
    var r := Located(IdLines(codec, s.f.st.cursor.value), Current(s.w));
    if r.Some? {
      assert s.w.files != [] && Ordered(s.w.rank, Ids(codec, s.w.files[|s.w.files| - 1].content));
      LocatedPrefix(codec, s.w.rank, Current(s.w), s.f.st.cursor.value);
    }
    PhaseChange(codec, s, Do(codec, s, Locate).f.phase);
  }

  lemma NoLocate(codec: Codec, c: Id)
    ensures Located(IdLines(codec, c), []).None?
  {
  }

  /** A read of an absent or unreadable inbox delivers nothing and forgets the file identity. */
  lemma FinishAbsent(codec: Codec, f: Follower, offset: nat, anchor: Bytes, mode: Mode, ok: bool)
    ensures Finish(codec, f, ReadAbsent(offset, anchor), mode, [], [], ok) ==
            f.(st := FollowState(offset, 0, 0, 0, f.st.cursor, anchor), phase := Idle,
               synced := if ok then f.pollStart else f.synced, consumed := [], seen := [])
  {
    assert ParseLines(codec, []) == Some([]);
    assert ApplyCursor([], f.st.cursor) == [];
    assert f.delivered + (set e | e in []) == f.delivered;
  }

  lemma OpenStepInv(codec: Codec, s: State)
    requires Inv(codec, s) && Enabled(codec, s, Open)
    ensures Inv(codec, Do(codec, s, Open))
  {
    hide Ids, IdSet, Ordered, CompleteLen, Complete, Finish;
    if s.w.files == [] {
      FinishAbsent(codec, s.f, s.f.phase.offset, s.f.phase.anchor, s.f.phase.mode, true);
      NoIds(codec);
    }
  }

  lemma ReadFailsInv(codec: Codec, s: State)
    requires Inv(codec, s) && Enabled(codec, s, ReadFails)
    ensures Inv(codec, Do(codec, s, ReadFails))
  {
    hide Inv, IdSet, Finish;
    FinishAbsent(codec, s.f, s.f.phase.offset, s.f.phase.anchor, s.f.phase.mode, false);
    Forgets(codec, s, s.f.phase.offset, s.f.phase.anchor);
  }

  /** Forgetting the file identity and position leaves what was delivered. */
  lemma Forgets(codec: Codec, s: State, offset: nat, anchor: Bytes)
    requires Inv(codec, s)
    ensures var st := FollowState(offset, 0, 0, 0, s.f.st.cursor, anchor);
            Inv(codec, s.(f := s.f.(st := st, phase := Idle, consumed := [], seen := [])))
  {
    hide WorldInv, IdSet, Complete, OpenInv, AnchorAt;
    var st := FollowState(offset, 0, 0, 0, s.f.st.cursor, anchor);
    var s' := s.(f := s.f.(st := st, phase := Idle, consumed := [], seen := []));
    assert forall e :: Covered(s, e) <==> Covered(s', e);
    NotOpen(codec, s');
  }

  lemma NotOpen(codec: Codec, s: State)
    requires !s.f.phase.Opened?
    ensures OpenInv(codec, s)
  {
  }

  // ----- the read --------------------------------------------------------------------

  /** The prefix that a read continues from is covered, and the read returns what follows it. */
  lemma ReadPrefix(codec: Codec, s: State) returns (prefix: Bytes)
    requires CanRead(s) && Inv(codec, s) && AnchorFaithful(s) && !s.f.phase.mode.FromStart?
    requires TheRead(s).anchored
    ensures prefix <= OpenContent(s) && Terminated(prefix)
    ensures s.f.phase.offset == |prefix| && s.f.phase.anchor == AnchorAt(prefix, |prefix|)
    ensures forall e :: e in IdSet(codec, prefix) ==> Covered(s, e)
  {
    hide Ids, Ordered, CompleteLen, Complete, NoOlderMissing, CoveredBelow, AnchorFaithful;
    var g := s.w.files[s.f.phase.fd].content;
    AnchoredPrefix(s);
    prefix := if s.f.phase.mode.Incremental? then s.f.consumed else s.f.phase.mode.prefix;
    assert prefix <= g;
    if s.f.phase.mode.AfterLocate? {
      PrefixOfFile(codec, prefix, g);
    }
  }

  lemma AnchoredPrefix(s: State)
    requires CanRead(s) && AnchorFaithful(s) && TheRead(s).anchored && !s.f.phase.mode.FromStart?
    requires s.f.phase.offset == |Prefix(s)| && s.f.phase.anchor == AnchorAt(Prefix(s), |Prefix(s)|)
    ensures Prefix(s) <= OpenContent(s)
  {
    hide ReadAfterOffset;
    ReadExactly(s.f.phase.stat, OpenContent(s), s.f.phase.offset, s.f.phase.anchor);
  }

  lemma PrefixOfFile(codec: Codec, prefix: Bytes, g: Bytes)
    requires prefix <= g && Terminated(prefix)
    ensures IdSet(codec, prefix) <= IdSet(codec, g)
  {
    CompleteOfTerminated(prefix);
    PrefixIds(codec, prefix, g);
  }

  /** After `_apply_cursor`, what was left out lay at or before the cursor. */
  lemma ApplyCursorRest(rank: map<Id, nat>, ids: seq<Id>, cursor: Option<Id>, e: Id)
    requires Ordered(rank, ids) && e in ids
    ensures e in ApplyCursor(ids, cursor)
            || (cursor.Some? && cursor.value in rank && e in rank && rank[e] <= rank[cursor.value])
  {
    var i :| 0 <= i < |ids| && ids[i] == e;
    if cursor.Some? {
      var k := IndexOf(ids, cursor.value);
      if k < i {
        assert ids[k + 1..][i - k - 1] == e;
      }
    }
  }

  /** The outcome of an anchored, readable read: everything in the file read is now covered. */
  lemma ReadCovers(codec: Codec, s: State, ids: seq<Id>)
    requires CanRead(s) && Inv(codec, s) && AnchorFaithful(s)
    requires TheRead(s).anchored && ParseLines(codec, TheRead(s).lines) == Some(ids)
    ensures var g := OpenContent(s);
            var f' := DoRead(codec, s);
            var out := if s.f.phase.mode.FromStart? then ApplyCursor(ids, s.f.st.cursor) else ids;
            && f' == s.f.(st := FollowState(|Complete(g)|, s.f.phase.stat.size, s.f.phase.stat.mtime,
                                            s.f.phase.stat.ino, NextCursor(out, s.f.st.cursor),
                                            AnchorAt(Complete(g), |Complete(g)|)),
                          phase := Idle, delivered := s.f.delivered + (set e | e in out),
                          synced := s.f.pollStart, consumed := Complete(g), seen := s.f.phase.seen)
            && (forall e :: e in out ==> e in IdSet(codec, g))
            && (forall e :: e in IdSet(codec, g) ==> e in out || Covered(s, e))
  {
    hide EventIds, Split, CompleteLen, Complete, LastBytes, CoveredBelow, PositionInv, AnchorFaithful;
    var p := s.f.phase;
    var g := s.w.files[p.fd].content;
    if p.mode.FromStart? {
      ReadAfterPrefix(codec, p.stat, g, []);
      EmptyIds(codec);
      assert Ids(codec, g) == ids;
      forall e | e in IdSet(codec, g) ensures e in ApplyCursor(ids, s.f.st.cursor) || Covered(s, e) {
        ApplyCursorRest(s.w.rank, ids, s.f.st.cursor, e);
      }
    } else {
      var prefix := ReadPrefix(codec, s);
      ReadAfterPrefix(codec, p.stat, g, prefix);
    }
  }

  lemma ReadInv(codec: Codec, s: State)
    requires CanRead(s) && Inv(codec, s) && AnchorFaithful(s)
    ensures Inv(codec, s.(f := DoRead(codec, s)))
  {
    hide Inv, ReadAfterOffset, ParseLines, AnchorFaithful;
    if TheRead(s).anchored && ParseLines(codec, TheRead(s).lines).Some? {
      ReadDelivers(codec, s, ParseLines(codec, TheRead(s).lines).value);
    } else {
      ReadGivesUp(codec, s);
    }
  }

  lemma ReadGivesUp(codec: Codec, s: State)
    requires CanRead(s) && Inv(codec, s)
    requires !(TheRead(s).anchored && ParseLines(codec, TheRead(s).lines).Some?)
    ensures Inv(codec, s.(f := DoRead(codec, s)))
  {
    hide Inv, Ids, IdSet, Ordered, CompleteLen, Complete, ReadAfterOffset, ParseLines, TheRead;
    var s' := s.(f := DoRead(codec, s));
    assert s'.f == s.f.(phase := s'.f.phase);
    PhaseChange(codec, s, s'.f.phase);
  }

  /** Giving up on what is in progress leaves what was established. */
  lemma PhaseChange(codec: Codec, s: State, phase: Phase)
    requires Inv(codec, s) && !phase.Opened? && PhaseInv(codec, s.(f := s.f.(phase := phase)))
    ensures Inv(codec, s.(f := s.f.(phase := phase)))
  {
    hide WorldInv, IdSet, Complete, PhaseInv, AnchorAt;
    var s' := s.(f := s.f.(phase := phase));
    assert forall e :: Covered(s, e) <==> Covered(s', e);
  }

  lemma ReadDelivers(codec: Codec, s: State, ids: seq<Id>)
    requires CanRead(s) && Inv(codec, s) && AnchorFaithful(s)
    requires TheRead(s).anchored && ParseLines(codec, TheRead(s).lines) == Some(ids)
    ensures Inv(codec, s.(f := DoRead(codec, s)))
  {
    hide Ids, IdSet, CompleteLen, Complete, Finish, ReadAfterOffset, ModeInv, ParseLines, Ordered, AnchorFaithful,
         AnchorAt;
    ReadCovers(codec, s, ids);
    var g := s.w.files[s.f.phase.fd].content;
    IdsRanked(codec, s.w, s.f.phase.fd);
    CompleteMonotone(s.f.phase.seen, g);
    CompleteOfTerminated(Complete(g));
    PrefixIds(codec, Complete(g), g);
  }

  // ----- every run -------------------------------------------------------------------

  lemma StepInv(codec: Codec, s: State, step: Step)
    requires Inv(codec, s) && Trusted(codec, s, step) && Enabled(codec, s, step)
    ensures Inv(codec, Do(codec, s, step))
  {
    hide Inv, StatFaithful, AnchorFaithful, NamedByEvents;
    match step
    case Append(bytes, mtime, ino) => AppendInv(codec, s, bytes, mtime, ino);
    case Rewrite(content, mtime, ino) => RewriteInv(codec, s, content, mtime, ino);
    case Touch(mtime) => TouchInv(codec, s, mtime);
    case PollStat => PollStatInv(codec, s);
    case Locate => LocateInv(codec, s);
    case LocateFails => LocateFailsInv(codec, s);
    case Open => OpenStepInv(codec, s);
    case Read => ReadInv(codec, s);
    case ReadFails => ReadFailsInv(codec, s);
  }

  lemma LocateFailsInv(codec: Codec, s: State)
    requires Inv(codec, s) && s.f.phase.ToLocate?
    ensures Inv(codec, Do(codec, s, LocateFails))
  {
    hide Ids, IdSet, Ordered;
  }

  /** A run: each state is the previous one after an enabled step. */
  ghost predicate Run(codec: Codec, trace: seq<State>, steps: seq<Step>) {
    && |trace| == |steps| + 1
    && Init(codec, trace[0])
    && forall i :: 0 <= i < |steps| ==>
         Enabled(codec, trace[i], steps[i]) && trace[i + 1] == Do(codec, trace[i], steps[i])
  }

  lemma {:induction false} RunInv(codec: Codec, trace: seq<State>, steps: seq<Step>, n: nat)
    requires Run(codec, trace, steps) && n < |trace|
    requires forall i :: 0 <= i < n ==> Trusted(codec, trace[i], steps[i])
    ensures Inv(codec, trace[n])
  {
    hide Inv, Init, Trusted;
    if n == 0 {
      InitInv(codec, trace[0]);
    } else {
      RunInv(codec, trace, steps, n - 1);
      StepInv(codec, trace[n - 1], steps[n - 1]);
    }
  }

  /** At-least-once. In every run whose steps may trust what they rely on, at every moment, every event
      that was recorded before the start of the follower's last successful poll and is still in
      the inbox was delivered to it or lay at or before its start cursor. */
  lemma AtLeastOnce(codec: Codec, trace: seq<State>, steps: seq<Step>, n: nat, e: Id)
    requires Run(codec, trace, steps) && n < |trace|
    requires forall i :: 0 <= i < n ==> Trusted(codec, trace[i], steps[i])
    requires var s := trace[n]; e in Ids(codec, Current(s.w))
    ensures var s := trace[n];
            && e in s.w.rank
            && (s.w.rank[e] < s.f.synced ==> Covered(s, e))
  {
    RunInv(codec, trace, steps, n);
    var s := trace[n];
    IdsRanked(codec, s.w, |s.w.files| - 1);
  }

  // ----- when nothing is rewritten, the hypothesis holds by itself ------------------------

  ghost function ModeOf(p: Phase): Mode {
    match p
    case ToOpen(_, _, mode) => mode
    case Opened(_, _, _, _, _, mode) => mode
    case _ => FromStart
  }

  ghost predicate OneGeneration(s: State) {
    && |s.w.files| <= 1
    && (s.f.st.ino != 0 ==> s.f.consumed <= Current(s.w) && s.f.seen <= Current(s.w) && s.f.st.seenSize == |s.f.seen|)
    && (ModeOf(s.f.phase).AfterLocate? ==> ModeOf(s.f.phase).prefix <= Current(s.w))
    && (s.f.phase.Opened? ==> s.f.phase.seen <= Current(s.w) && s.f.phase.stat.size == |s.f.phase.seen|)
  }

  lemma OneGenerationFaithful(codec: Codec, s: State)
    requires OneGeneration(s) && PhaseInv(codec, s)
    ensures s.f.st.ino != 0 ==> StatFaithful(s)
    ensures CanRead(s) ==> AnchorFaithful(s)
  {
    hide ReadAfterOffset, IdSet, AnchorAt;
  }

  lemma OneGenerationStep(codec: Codec, s: State, step: Step)
    requires OneGeneration(s) && Enabled(codec, s, step) && !step.Rewrite?
    ensures OneGeneration(Do(codec, s, step))
  {
    hide OneGeneration;
    match step
    case Append(_, _, _) => GrowsInside(codec, s, step);
    case Touch(_) => GrowsInside(codec, s, step);
    case Locate => LocateStaysInside(codec, s);
    case Read => ReadStaysInside(codec, s);
    case _ => OtherStaysInside(codec, s, step);
  }

  lemma GrowsInside(codec: Codec, s: State, step: Step)
    requires OneGeneration(s) && Enabled(codec, s, step) && (step.Append? || step.Touch?)
    ensures OneGeneration(Do(codec, s, step))
  {
    hide NewIds, CompleteLen;
    if step.Append? {
      assert Current(Do(codec, s, step).w) == Current(s.w) + step.bytes by { assert [] + step.bytes == step.bytes; }
    }
  }

  lemma OtherStaysInside(codec: Codec, s: State, step: Step)
    requires OneGeneration(s) && Enabled(codec, s, step)
    requires step.PollStat? || step.LocateFails? || step.Open? || step.ReadFails?
    ensures OneGeneration(Do(codec, s, step))
  {
    hide Finish;
    if step.Open? || step.ReadFails? {
      FinishAbsent(codec, s.f, s.f.phase.offset, s.f.phase.anchor, s.f.phase.mode, step.Open?);
    }
  }

  lemma ReadStaysInside(codec: Codec, s: State)
    requires CanRead(s) && OneGeneration(s)
    ensures OneGeneration(s.(f := DoRead(codec, s)))
  {
    hide ParseLines, Complete, ReadAfterOffset, ApplyCursor;
    ReadStat(s.f.phase.stat, OpenContent(s), s.f.phase.offset, s.f.phase.anchor);
    assert OpenContent(s) == Current(s.w);
  }

  lemma ReadStat(stat: Stat, content: Bytes, offset: nat, anchor: Bytes)
    requires |anchor| <= offset
    ensures ReadAfterOffset(stat, content, offset, anchor).stat == stat
  {
    hide Split, Complete;
  }

  lemma LocateStaysInside(codec: Codec, s: State)
    requires Enabled(codec, s, Locate) && OneGeneration(s)
    ensures OneGeneration(Do(codec, s, Locate))
  {
    hide EndOfLast, IdLines, CompleteLen, Complete, AnchorAt;
  }

  /** Appends alone, whole or torn, need no hypothesis about stats and anchors. */
  lemma {:induction false} AppendsAreTrusted(codec: Codec, trace: seq<State>, steps: seq<Step>, n: nat)
    requires Run(codec, trace, steps) && n < |trace| && |trace[0].w.files| <= 1
    requires forall i :: 0 <= i < |steps| ==> !steps[i].Rewrite?
    requires forall i :: 0 <= i < n && steps[i].Locate? && trace[i].f.st.cursor.Some? ==>
               NamedByEvents(codec, trace[i].f.st.cursor.value, Current(trace[i].w))
    ensures Inv(codec, trace[n]) && OneGeneration(trace[n])
    ensures n < |steps| && !steps[n].Locate? ==> Trusted(codec, trace[n], steps[n])
  {
    hide Enabled, Do, StatFaithful, AnchorFaithful, NamedByEvents;
    hide WorldInv, PositionInv, CursorCovers, PhaseInv, OpenInv;
    if n == 0 {
      InitInv(codec, trace[0]);
    } else {
      AppendsAreTrusted(codec, trace, steps, n - 1);
      StepInv(codec, trace[n - 1], steps[n - 1]);
      OneGenerationStep(codec, trace[n - 1], steps[n - 1]);
    }
    OneGenerationFaithful(codec, trace[n]);
  }

  // ----- without interference, the steps are one poll -----------------------------------

  /** `s'` is `s` after `steps`, all taken. */
  ghost predicate Leads(codec: Codec, s: State, steps: seq<Step>, s': State)
    decreases steps
  {
    if steps == [] then s' == s
    else Enabled(codec, s, steps[0]) && Leads(codec, Do(codec, s, steps[0]), steps[1..], s')
  }

  lemma {:induction false} LeadsConcat(codec: Codec, s: State, a: seq<Step>, mid: State, b: seq<Step>, s': State)
    requires Leads(codec, s, a, mid) && Leads(codec, mid, b, s')
    ensures Leads(codec, s, a + b, s')
    decreases |a|
  {
    hide Enabled, Do;
    if a == [] {
      assert a + b == b;
    } else {
      assert (a + b)[1..] == a[1..] + b;
      LeadsConcat(codec, Do(codec, s, a[0]), a[1..], mid, b, s');
    }
  }

  lemma OneStep(codec: Codec, s: State, step: Step)
    requires Enabled(codec, s, step)
    ensures Leads(codec, s, [step], Do(codec, s, step))
  {
    assert [step][1..] == [];
    assert Leads(codec, Do(codec, s, step), [], Do(codec, s, step));
  }

  ghost function CurrentFile(w: World): Option<File> {
    if w.files == [] then None else Some(w.files[|w.files| - 1])
  }

  /** Open and read, undisturbed. */
  lemma OpenThenRead(codec: Codec, s: State) returns (steps: seq<Step>, s': State)
    requires s.f.phase.ToOpen? && |s.f.phase.anchor| <= s.f.phase.offset
    ensures Leads(codec, s, steps, s')
    ensures var p := s.f.phase;
            s' == s.(f := Finish(codec, s.f, ReadFile(CurrentFile(s.w), p.offset, p.anchor), p.mode,
                                 Current(s.w), Current(s.w), true))
  {
    hide Finish, ReadAfterOffset;
    var mid := s.(f := DoOpen(codec, s));
    OneStep(codec, s, Open);
    if s.w.files == [] {
      steps, s' := [Open], mid;
    } else {
      OneStep(codec, mid, Read);
      s' := Do(codec, mid, Read);
      LeadsConcat(codec, s, [Open], mid, [Read], s');
      steps := [Open] + [Read];
      PhaseIrrelevant(codec, s.f, mid.f.phase, TheRead(mid), s.f.phase.mode, Current(s.w), Current(s.w));
    }
  }

  /** The phase a finished read started from leaves no trace. */
  lemma PhaseIrrelevant(codec: Codec, f: Follower, phase: Phase, r: InboxRead, mode: Mode, content: Bytes, seen: Bytes)
    ensures Finish(codec, f.(phase := phase), r, mode, content, seen, true)
      == Finish(codec, f, r, mode, content, seen, true)
  {
    hide ParseLines, ApplyCursor, Complete;
  }

  /** What an undisturbed poll leaves behind: its events delivered, its state, in sync. */
  ghost predicate PolledTo(s: State, s': State, out: seq<Id>, st: FollowState) {
    && s'.w == s.w && s'.f.phase.Idle? && s'.f.st == st
    && s'.f.delivered == s.f.delivered + (set e | e in out)
  }

  lemma FinishResolved(codec: Codec, s: State, r: InboxRead, mode: Mode, ids: seq<Id>)
    requires r.anchored && ParseLines(codec, r.lines) == Some(ids)
    ensures var out := if mode.FromStart? then ApplyCursor(ids, s.f.st.cursor) else ids;
            var f' := Finish(codec, s.f, r, mode, Current(s.w), Current(s.w), true);
            && PolledTo(s, s.(f := f'), out, FromRead(r, NextCursor(out, s.f.st.cursor)))
            && f'.synced == s.f.pollStart
  {
    hide ParseLines, ApplyCursor, Complete;
  }

  /** Resolving a cursor in separate steps, undisturbed, is `_resolve_follow_start`. */
  lemma QuietResolve(codec: Codec, s: State) returns (steps: seq<Step>, s': State)
    requires s.f.phase == Resolve(s.f.st.cursor)
    requires ResolveFollowStart(codec, s.f.st.cursor, CurrentFile(s.w)).Some?
    ensures Leads(codec, s, steps, s')
    ensures var r := Positioned(ResolveFollowStart(codec, s.f.st.cursor, CurrentFile(s.w)), s.f.st.cursor).value;
            PolledTo(s, s', r.0, r.1) && s'.f.synced == s.f.pollStart
  {
    hide ParseLines, ApplyCursor, Complete, ReadAfterOffset, Finish, PolledTo, Located, IdLines, Leads;
    if s.f.st.cursor.None? {
      steps, s' := OpenThenRead(codec, s);
      FromStartReads(codec, s);
    } else {
      var c := s.f.st.cursor.value;
      NoLocate(codec, c);
      LocatedBounds(codec, c, Current(s.w));
      var mid := Do(codec, s, Locate);
      OneStep(codec, s, Locate);
      var rest, s2 := OpenThenRead(codec, mid);
      LeadsConcat(codec, s, [Locate], mid, rest, s2);
      steps, s' := [Locate] + rest, s2;
      var at := LocateIn(codec, Some(c), CurrentFile(s.w));
      if at.Some? {
        LocatedAnchored(codec, c, FileStat(CurrentFile(s.w)), Current(s.w));
        var read := ReadFile(CurrentFile(s.w), at.value.0, at.value.1);
        FinishResolved(codec, mid, read, mid.f.phase.mode, ParseLines(codec, read.lines).value);
      } else {
        FromStartReads(codec, mid);
      }
      SamePoll(s, mid, s');
    }
  }

  lemma SamePoll(s: State, mid: State, s': State)
    requires mid == s.(f := s.f.(phase := mid.f.phase))
    ensures forall out, st :: PolledTo(mid, s', out, st) ==> PolledTo(s, s', out, st)
  {
  }

  lemma LocatedAnchored(codec: Codec, c: Id, stat: Stat, content: Bytes)
    requires Located(IdLines(codec, c), content).Some?
    ensures var at := Located(IdLines(codec, c), content).value;
            |at.1| <= at.0 && ReadAfterOffset(stat, content, at.0, at.1).anchored
  {
    hide Ids, Located, IdLines;
    var prefix, before := LocatedAt(codec, c, content);
    AnchorOfPrefix(content, prefix);
  }

  lemma FromStartReads(codec: Codec, s: State)
    requires ResolveByFullRead(codec, s.f.st.cursor, CurrentFile(s.w)).Some?
    ensures var read := ReadFile(CurrentFile(s.w), 0, []);
            var r := Positioned(ResolveByFullRead(codec, s.f.st.cursor, CurrentFile(s.w)), s.f.st.cursor).value;
            var f' := Finish(codec, s.f, read, FromStart, Current(s.w), Current(s.w), true);
            PolledTo(s, s.(f := f'), r.0, r.1) && f'.synced == s.f.pollStart
  {
    hide ParseLines, ApplyCursor, Complete, Finish;
    var read := ReadFile(CurrentFile(s.w), 0, []);
    FinishResolved(codec, s, read, FromStart, ParseLines(codec, read.lines).value);
  }

  /** Without interference the steps of a poll compute `PollFollowState`, and the follower is
      then in sync with everything recorded. */
  lemma QuietPoll(codec: Codec, s: State) returns (steps: seq<Step>, s': State)
    requires s.f.phase.Idle? && |s.f.st.anchor| <= s.f.st.offset
    requires PollFollowState(codec, s.f.st, CurrentFile(s.w)).Some?
    ensures Leads(codec, s, steps, s')
    ensures var r := PollFollowState(codec, s.f.st, CurrentFile(s.w)).value; PolledTo(s, s', r.0, r.1)
    ensures s'.f.synced == s.w.clock
  {
    hide ParseLines, Complete, ReadAfterOffset, Finish, ResolveFollowStart, Leads, PolledTo;
    var started := Do(codec, s, PollStat);
    OneStep(codec, s, PollStat);
    if started.f.phase.Idle? {
      steps, s' := [PollStat], started;
      Unchanged(s, s');
    } else {
      var rest, s2;
      if started.f.phase.ToOpen? && started.f.phase.mode.Incremental? {
        rest, s2 := QuietIncremental(codec, started);
      } else {
        rest, s2 := QuietResolve(codec, started);
      }
      LeadsConcat(codec, s, [PollStat], started, rest, s2);
      steps, s' := [PollStat] + rest, s2;
      SamePollStart(s, started, s');
    }
  }

  lemma Unchanged(s: State, s': State)
    requires s'.w == s.w && s'.f.phase.Idle? && s'.f.st == s.f.st && s'.f.delivered == s.f.delivered
    ensures PolledTo(s, s', [], s.f.st)
  {
    assert s.f.delivered + (set e | e in []) == s.f.delivered;
  }

  lemma SamePollStart(s: State, started: State, s': State)
    requires started.w == s.w && started.f.delivered == s.f.delivered
    ensures forall out, st :: PolledTo(started, s', out, st) ==> PolledTo(s, s', out, st)
  {
  }

  lemma QuietIncremental(codec: Codec, s: State) returns (steps: seq<Step>, s': State)
    requires s.f.phase == ToOpen(s.f.st.offset, s.f.st.anchor, Incremental) && |s.f.st.anchor| <= s.f.st.offset
    requires var read := ReadFile(CurrentFile(s.w), s.f.st.offset, s.f.st.anchor);
             if read.anchored then ParseLines(codec, read.lines).Some?
             else ResolveFollowStart(codec, s.f.st.cursor, CurrentFile(s.w)).Some?
    ensures Leads(codec, s, steps, s') && s'.f.synced == s.f.pollStart
    ensures var read := ReadFile(CurrentFile(s.w), s.f.st.offset, s.f.st.anchor);
            if read.anchored then
              var ids := ParseLines(codec, read.lines).value;
              PolledTo(s, s', ids, FromRead(read, NextCursor(ids, s.f.st.cursor)))
            else
              var r := Positioned(ResolveFollowStart(codec, s.f.st.cursor, CurrentFile(s.w)), s.f.st.cursor).value;
              PolledTo(s, s', r.0, r.1)
  {
    hide ParseLines, Complete, ReadAfterOffset, ResolveFollowStart, Leads, PolledTo, ApplyCursor;
    var read := ReadFile(CurrentFile(s.w), s.f.st.offset, s.f.st.anchor);
    steps, s' := OpenThenRead(codec, s);
    if read.anchored {
      FinishResolved(codec, s, read, Incremental, ParseLines(codec, read.lines).value);
    } else {
      var mid := s';
      var rest, s2 := QuietResolve(codec, mid);
      LeadsConcat(codec, s, steps, mid, rest, s2);
      steps, s' := steps + rest, s2;
      SamePoll(s, mid, s');
    }
  }
}
