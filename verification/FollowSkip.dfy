/** Why a follower has to trust its anchor: a read compares neither the inode nor the size of the file
    it opened with what the poll saw before, so a rewrite between the two that happens to hold the
    same 256 bytes at the same offset is read on as if it were the old file. */
module FollowSkip {
  import opened Common
  import opened Lines
  import opened EventsTail
  import opened Inbox
  import opened Poll
  import opened Follow

  /** An anchored read that continues from an offset leaves an event of the file uncovered exactly
      when one before that offset is neither covered nor read again. */
  lemma ReadExact(codec: Codec, s: State, ids: seq<Id>)
    requires CanRead(s) && Inv(codec, s) && !s.f.phase.mode.FromStart?
    requires TheRead(s).anchored && ParseLines(codec, TheRead(s).lines) == Some(ids)
    ensures s.f.phase.offset <= |OpenContent(s)|
    ensures var g := OpenContent(s);
            (forall e :: e in IdSet(codec, g) ==> e in ids || Covered(s, e)) <==>
            (forall e :: e in IdSet(codec, g[..s.f.phase.offset]) ==> e in ids || Covered(s, e))
  {
    hide Ids, Split, CompleteLen, Complete, EventIds, CoveredBelow, CursorCovers, OpenInv;
    var p, g := s.f.phase, OpenContent(s);
    AnchorEnds(codec, s);
    var prefix := g[..p.offset];
    ReadBehind(codec, p.stat, g, p.offset, p.anchor);
    IdsFrom(codec, g, p.offset);
  }

  /** The anchor of a position ends a line, so the bytes before the offset are whole lines. */
  lemma AnchorEnds(codec: Codec, s: State)
    requires CanRead(s) && Inv(codec, s) && !s.f.phase.mode.FromStart? && TheRead(s).anchored
    ensures s.f.phase.offset <= |OpenContent(s)| && Terminated(OpenContent(s)[..s.f.phase.offset])
  {
    hide Inv, Complete, Split, AnchorAt;
    Continues(codec, s);
    AnchorTerminated(OpenContent(s), Prefix(s));
  }

  lemma Continues(codec: Codec, s: State)
    requires CanRead(s) && Inv(codec, s) && !s.f.phase.mode.FromStart?
    ensures var p, prefix := s.f.phase, Prefix(s);
            Terminated(prefix) && p.offset == |prefix| && p.anchor == AnchorAt(prefix, |prefix|)
  {
    hide Complete, IdSet, WorldInv, CoveredBelow, CursorCovers, OpenInv, AnchorAt;
  }

  lemma AnchorTerminated(g: Bytes, prefix: Bytes)
    requires Terminated(prefix) && Anchored(g, |prefix|, AnchorAt(prefix, |prefix|))
    ensures |prefix| <= |g| && Terminated(g[..|prefix|])
  {
    var n, a := |prefix|, AnchorAt(prefix, |prefix|);
    if n > 0 {
      assert |a| > 0 && a[|a| - 1] == prefix[n - 1];
      assert g[n - |a|..n][|a| - 1] == g[n - 1];
    }
  }

  lemma ReadBehind(codec: Codec, stat: Stat, g: Bytes, offset: nat, anchor: Bytes)
    requires |anchor| <= offset <= |g| && Anchored(g, offset, anchor)
    ensures EventIds(codec, ReadAfterOffset(stat, g, offset, anchor).lines) == Ids(codec, g[offset..])
  {
    hide CompleteLen;
  }

  // ----- the skipping run --------------------------------------------------------------------------

  ghost predicate EventLine(codec: Codec, line: Bytes, id: Id) {
    NoNL(line) && line in codec && codec[line] == Event(id)
  }

  /** Four events whose lines make two pairs of the same length and the same last 256 bytes. */
  datatype Pairs = Pairs(codec: Codec, x1: Bytes, x2: Bytes, x3: Bytes, x4: Bytes, a: Id, b: Id, c: Id, d: Id) {
    ghost function Old(): Bytes { x1 + [NL] + (x2 + [NL]) }
    ghost function Fresh(): Bytes { x3 + [NL] + (x4 + [NL]) }

    ghost predicate Collide() {
      && EventLine(codec, x1, a) && EventLine(codec, x2, b) && EventLine(codec, x3, c) && EventLine(codec, x4, d)
      && Distinct([a, b, c, d])
      && |Old()| == |Fresh()| && AnchorAt(Old(), |Old()|) == AnchorAt(Fresh(), |Fresh()|)
    }
  }

  lemma LineIds2(codec: Codec, x: Bytes, y: Bytes, a: Id, b: Id)
    requires EventLine(codec, x, a) && EventLine(codec, y, b)
    ensures var file := x + [NL] + (y + [NL]);
            && Terminated(file) && Ids(codec, file) == [a, b] && ParseLines(codec, Split(file)) == Some([a, b])
            && Complete(file) == file
  {
    hide Split, CompleteLen, EventIds;
    var first, second := x + [NL], y + [NL];
    var file := first + second;
    assert file[..|first|] == first && file[|first|..] == second;
    IdsFrom(codec, file, |first|);
    OneLineIds(codec, x);
    OneLineIds(codec, y);
    CompleteOfTerminated(file);
    SplitCons(x, second);
    assert second + [] == second;
    SplitCons(y, []);
    assert x + [NL] + second == file;
    assert Split(file) == [x] + ([y] + Split([]));
    assert Split([]) == [] by { SplitNone(); }
    assert Split(file) == [x, y];
  }

  lemma SplitNone()
    ensures Split([]) == []
  {
  }

  /** A run that has reached `s`. */
  ghost predicate Reaches(codec: Codec, trace: seq<State>, steps: seq<Step>, s: State) {
    Run(codec, trace, steps) && trace[|steps|] == s
  }

  lemma Extend(codec: Codec, trace: seq<State>, steps: seq<Step>, s: State, step: Step, s': State)
    returns (trace': seq<State>, steps': seq<Step>)
    requires Reaches(codec, trace, steps, s) && Enabled(codec, s, step) && Do(codec, s, step) == s'
    ensures Reaches(codec, trace', steps', s') && trace' == trace + [s'] && steps' == steps + [step]
    ensures |trace'| == |steps'| + 1
  {
    hide Init, Enabled, Do;
    trace', steps' := trace + [s'], steps + [step];
  }

  // The states of the run: read the old pair, append, stat, append, rewrite, open, read, stat.

  ghost function Line(x: Bytes): Bytes { x + [NL] }

  ghost function World0(p: Pairs): World {
    World([File(1, 0, p.Old())], map[p.a := 0, p.b := 1], 2)
  }

  ghost function World1(p: Pairs): World {
    World([File(1, 1, p.Old() + Line(p.x3))], map[p.a := 0, p.b := 1, p.c := 2], 3)
  }

  ghost function World2(p: Pairs): World {
    World([File(1, 2, p.Old() + Line(p.x3) + Line(p.x4))], map[p.a := 0, p.b := 1, p.c := 2, p.d := 3], 4)
  }

  ghost function World3(p: Pairs): World {
    World(World2(p).files + [File(2, 3, p.Fresh())], World2(p).rank, 4)
  }

  ghost function Anchor(p: Pairs): Bytes {
    AnchorAt(p.Old(), |p.Old()|)
  }

  ghost function Start(): Follower {
    Follower(FollowState(0, 0, 0, 0, None, []), ToOpen(0, [], FromStart), None, 0, {}, 2, 0, [], [])
  }

  /** Caught up with the old pair. */
  ghost function Caught(p: Pairs): Follower {
    var st := FollowState(|p.Old()|, |p.Old()|, 0, 1, Some(p.b), Anchor(p));
    Follower(st, Idle, None, 0, {p.a, p.b}, 2, 2, p.Old(), p.Old())
  }

  /** After the stat that saw the third event. */
  ghost function Looking(p: Pairs): Follower {
    Caught(p).(pollStart := 3, phase := ToOpen(|p.Old()|, Anchor(p), Incremental))
  }

  /** After the read of the rewritten file. */
  ghost function Fooled(p: Pairs): Follower {
    var st := FollowState(|p.Old()|, |p.Old()|, 3, 2, Some(p.b), Anchor(p));
    Follower(st, Idle, None, 0, {p.a, p.b}, 3, 3, p.Fresh(), p.Fresh())
  }

  lemma StartsOn(codec: Codec, old0: Bytes, a: Id, b: Id)
    requires Ids(codec, old0) == [a, b] && a != b
    ensures Init(codec, State(World([File(1, 0, old0)], map[a := 0, b := 1], 2), Start()))
  {
    hide Ids;
  }

  lemma Begins(p: Pairs)
    requires p.Collide()
    ensures Init(p.codec, State(World0(p), Start()))
  {
    hide Ids, AnchorAt, Init, Terminated, ParseLines, Complete;
    LineIds2(p.codec, p.x1, p.x2, p.a, p.b);
    Differ(p);
    StartsOn(p.codec, p.Old(), p.a, p.b);
  }

  lemma CatchesUp(p: Pairs) returns (mid: State)
    requires p.Collide()
    ensures Enabled(p.codec, State(World0(p), Start()), Open) && Do(p.codec, State(World0(p), Start()), Open) == mid
    ensures Enabled(p.codec, mid, Read) && Do(p.codec, mid, Read) == State(World0(p), Caught(p))
    ensures Trusted(p.codec, State(World0(p), Start()), Open) && Trusted(p.codec, mid, Read)
  {
    hide ParseLines, Split, AnchorAt, Ids, AnchorFaithful, ApplyCursor, NextCursor, ReadAfterOffset;
    var old0 := p.Old();
    LineIds2(p.codec, p.x1, p.x2, p.a, p.b);
    mid := Do(p.codec, State(World0(p), Start()), Open);
    assert AnchorFaithful(mid) by { FromStartFaithful(mid); }
    FullRead(p.codec, Stat(|old0|, 1, 0), old0);
    ApplyNone([p.a, p.b]);
    assert {} + {p.a, p.b} == {p.a, p.b};
  }

  lemma FromStartFaithful(s: State)
    requires CanRead(s) && s.f.phase.mode.FromStart?
    ensures AnchorFaithful(s)
  {
  }

  lemma ApplyNone(ids: seq<Id>)
    requires |ids| == 2
    ensures ApplyCursor(ids, None) == ids && NextCursor(ids, None) == Some(ids[1])
    ensures (set e | e in ids) == {ids[0], ids[1]}
  {
  }

  lemma LineAppended(codec: Codec, content: Bytes, x: Bytes, id: Id)
    requires Terminated(content) && EventLine(codec, x, id)
    ensures NewIds(codec, content, Line(x)) == [id] && Terminated(content + Line(x))
    ensures Ids(codec, content + Line(x)) == Ids(codec, content) + [id]
  {
    hide Split, CompleteLen, EventIds, Ids;
    CompleteOfTerminated(content);
    assert (content + Line(x))[|content|..] == Line(x);
    OneLineIds(codec, x);
    AppendIds(codec, content, Line(x));
  }

  lemma Differ(p: Pairs)
    requires p.Collide()
    ensures p.a != p.b && p.a != p.c && p.a != p.d && p.b != p.c && p.b != p.d && p.c != p.d
  {
    var ids := [p.a, p.b, p.c, p.d];
    assert ids[0] != ids[1] && ids[0] != ids[2] && ids[0] != ids[3] && ids[1] != ids[2] && ids[1] != ids[3];
    assert ids[2] != ids[3];
  }

  /** A whole line appended to a terminated inbox of one generation. */
  lemma AppendTo(codec: Codec, file: File, rank: map<Id, nat>, clock: nat, f: Follower, x: Bytes, id: Id, mtime: int)
    requires Terminated(file.content) && EventLine(codec, x, id) && id !in rank && f.seed.None?
    ensures var s, step := State(World([file], rank, clock), f), Append(Line(x), mtime, 1);
            && Enabled(codec, s, step)
            && Do(codec, s, step) ==
               State(World([File(file.ino, mtime, file.content + Line(x))], rank[id := clock], clock + 1), f)
  {
    hide NewIds, Line;
    LineAppended(codec, file.content, x, id);
    var w := World([file], rank, clock);
    var file' := File(file.ino, mtime, file.content + Line(x));
    assert [file][0 := file'] == [file'];
  }

  lemma FirstAppend(p: Pairs)
    requires p.Collide()
    ensures Enabled(p.codec, State(World0(p), Caught(p)), Append(Line(p.x3), 1, 1))
    ensures Do(p.codec, State(World0(p), Caught(p)), Append(Line(p.x3), 1, 1)) == State(World1(p), Caught(p))
  {
    hide Enabled, Do, AnchorAt, Line, Ids;
    LineIds2(p.codec, p.x1, p.x2, p.a, p.b);
    Differ(p);
    AppendTo(p.codec, File(1, 0, p.Old()), World0(p).rank, 2, Caught(p), p.x3, p.c, 1);
    assert World0(p).rank[p.c := 2] == World1(p).rank;
  }

  lemma SeesIt(p: Pairs)
    requires p.Collide()
    ensures Enabled(p.codec, State(World1(p), Caught(p)), PollStat)
    ensures Do(p.codec, State(World1(p), Caught(p)), PollStat) == State(World1(p), Looking(p))
    ensures Trusted(p.codec, State(World1(p), Caught(p)), PollStat)
  {
    hide AnchorAt;
    assert |p.Old() + Line(p.x3)| > |p.Old()|;
  }

  lemma SecondAppend(p: Pairs)
    requires p.Collide()
    ensures Enabled(p.codec, State(World1(p), Looking(p)), Append(Line(p.x4), 2, 1))
    ensures Do(p.codec, State(World1(p), Looking(p)), Append(Line(p.x4), 2, 1)) == State(World2(p), Looking(p))
  {
    hide Enabled, Do, AnchorAt, Line, Ids;
    LineIds2(p.codec, p.x1, p.x2, p.a, p.b);
    LineAppended(p.codec, p.Old(), p.x3, p.c);
    Differ(p);
    AppendTo(p.codec, File(1, 1, p.Old() + Line(p.x3)), World1(p).rank, 3, Looking(p), p.x4, p.d, 2);
    assert World1(p).rank[p.d := 3] == World2(p).rank;
  }

  /** The four lines as one file. */
  lemma FourIds(p: Pairs)
    requires p.Collide()
    ensures Ids(p.codec, p.Old() + Line(p.x3) + Line(p.x4)) == [p.a, p.b, p.c, p.d]
    ensures Terminated(p.Fresh()) && Ids(p.codec, p.Fresh()) == [p.c, p.d]
  {
    hide Ids, AnchorAt, Terminated, Line;
    LineIds2(p.codec, p.x1, p.x2, p.a, p.b);
    LineIds2(p.codec, p.x3, p.x4, p.c, p.d);
    LineAppended(p.codec, p.Old(), p.x3, p.c);
    LineAppended(p.codec, p.Old() + Line(p.x3), p.x4, p.d);
    assert [p.a, p.b] + [p.c] + [p.d] == [p.a, p.b, p.c, p.d];
  }

  lemma Rewritten(p: Pairs)
    requires p.Collide()
    ensures Enabled(p.codec, State(World2(p), Looking(p)), Rewrite(p.Fresh(), 3, 2))
    ensures Do(p.codec, State(World2(p), Looking(p)), Rewrite(p.Fresh(), 3, 2)) == State(World3(p), Looking(p))
  {
    FourIds(p);
    LaterHalf(p.a, p.b, p.c, p.d);
    hide Ids, AnchorAt, Subseq, Terminated, Line, Looking, EventLine;
  }

  lemma LaterHalf(a: Id, b: Id, c: Id, d: Id)
    ensures Subseq([c, d], [a, b, c, d])
  {
    assert [c, d][1..] == [d] && [d][1..] == [];
    assert [a, b, c, d][1..] == [b, c, d] && [b, c, d][1..] == [c, d];
    assert Subseq([], []) && Subseq([d], [d]) && Subseq([c, d], [c, d]) && Subseq([c, d], [b, c, d]);
  }

  lemma IsFooled(p: Pairs) returns (mid: State)
    requires p.Collide()
    ensures Enabled(p.codec, State(World3(p), Looking(p)), Open)
    ensures Do(p.codec, State(World3(p), Looking(p)), Open) == mid
    ensures Enabled(p.codec, mid, Read) && Do(p.codec, mid, Read) == State(World3(p), Fooled(p))
    ensures CanRead(mid) && mid.f.phase.stat.ino != mid.f.st.ino && TheRead(mid).anchored
    ensures !Trusted(p.codec, mid, Read)
  {
    hide ParseLines, AnchorAt, Ids, Split, AnchorFaithful;
    var late := p.Fresh();
    LineIds2(p.codec, p.x3, p.x4, p.c, p.d);
    mid := Do(p.codec, State(World3(p), Looking(p)), Open);
    AnchorOfPrefix(late, late);
    assert !AnchorFaithful(mid) by { NotFaithful(p, mid); }
    assert late[|late|..] == [];
    ParsesNone(p.codec);
    Unlike(p);
    assert {p.a, p.b} + (set e | e in []) == {p.a, p.b};
  }

  lemma NotFaithful(p: Pairs, mid: State)
    requires p.Collide() && CanRead(mid) && OpenContent(mid) == p.Fresh() && Prefix(mid) == p.Old()
    requires mid.f.phase.offset == |p.Old()| && mid.f.phase.anchor == Anchor(p)
    ensures !AnchorFaithful(mid)
  {
    hide Ids;
    Unlike(p);
  }

  lemma ParsesNone(codec: Codec)
    ensures ParseLines(codec, []) == Some([]) && Complete([]) == []
  {
  }

  /** The two pairs are different bytes: they name different events. */
  lemma Unlike(p: Pairs)
    requires p.Collide()
    ensures !(p.Old() <= p.Fresh())
  {
    hide AnchorAt, Ids;
    LineIds2(p.codec, p.x1, p.x2, p.a, p.b);
    LineIds2(p.codec, p.x3, p.x4, p.c, p.d);
    Differ(p);
    assert [p.a, p.b][0] != [p.c, p.d][0];
    assert p.Old() <= p.Fresh() ==> p.Old() == p.Fresh();
  }

  lemma StaysIdle(p: Pairs)
    requires p.Collide()
    ensures Enabled(p.codec, State(World3(p), Fooled(p)), PollStat)
    ensures Do(p.codec, State(World3(p), Fooled(p)), PollStat)
      == State(World3(p), Fooled(p).(pollStart := 4, synced := 4))
    ensures Trusted(p.codec, State(World3(p), Fooled(p)), PollStat)
  {
    hide AnchorAt;
  }

  /** Only a stat, a lookup and a read rely on anything. */
  lemma NothingToTrust(codec: Codec, s: State, step: Step)
    requires !step.PollStat? && !step.Locate? && !step.Read?
    ensures Trusted(codec, s, step)
  {
  }

  lemma BothMissed(p: Pairs)
    requires p.Collide()
    ensures var s := State(World3(p), Fooled(p).(pollStart := 4, synced := 4));
            && Ids(p.codec, Current(s.w)) == [p.c, p.d]
            && p.c in s.w.rank && p.d in s.w.rank && s.w.rank[p.c] == 2 && s.w.rank[p.d] == 3
            && !Covered(s, p.c) && !Covered(s, p.d)
  {
    hide Ids, AnchorAt;
    LineIds2(p.codec, p.x3, p.x4, p.c, p.d);
    Differ(p);
  }

  /** A run in which two events are lost for good. Every stat is faithful, the rewrite has a new inode,
      and all steps but one read are trusted; that read finds the anchor in the new file. The polls
      after it are idle, both events are in the inbox, and neither was delivered. */
  lemma SkippingRun(p: Pairs) returns (trace: seq<State>, steps: seq<Step>)
    requires p.Collide()
    ensures Run(p.codec, trace, steps) && |steps| == 9 && steps[7] == Read && steps[8] == PollStat
    ensures forall i :: 0 <= i < 9 && i != 7 ==> Trusted(p.codec, trace[i], steps[i])
    ensures CanRead(trace[7]) && trace[7].f.phase.stat.ino != trace[7].f.st.ino && TheRead(trace[7]).anchored
    ensures var s := trace[9];
            && s.f.phase.Idle? && s.f.synced == s.w.clock
            && Ids(p.codec, Current(s.w)) == [p.c, p.d]
            && p.c in s.w.rank && p.d in s.w.rank && s.w.rank[p.c] < s.f.synced && s.w.rank[p.d] < s.f.synced
            && !Covered(s, p.c) && !Covered(s, p.d)
  {
    hide Run, Enabled, Do, Trusted, Ids, AnchorAt, Covered, CanRead, TheRead, Caught, Looking, Fooled, World0,
         World1, World2, World3;
    var s0 := State(World0(p), Start());
    Begins(p);
    OneState(p.codec, s0);
    var read0 := CatchesUp(p);
    FirstAppend(p);
    SeesIt(p);
    SecondAppend(p);
    Rewritten(p);
    var read1 := IsFooled(p);
    StaysIdle(p);
    BothMissed(p);
    var s2, s3, s4 := State(World0(p), Caught(p)), State(World1(p), Caught(p)), State(World1(p), Looking(p));
    var s5, s6, s8 := State(World2(p), Looking(p)), State(World3(p), Looking(p)), State(World3(p), Fooled(p));
    var append3, append4, rewrite := Append(Line(p.x3), 1, 1), Append(Line(p.x4), 2, 1), Rewrite(p.Fresh(), 3, 2);
    NothingToTrust(p.codec, s0, Open);
    NothingToTrust(p.codec, s2, append3);
    NothingToTrust(p.codec, s4, append4);
    NothingToTrust(p.codec, s5, rewrite);
    NothingToTrust(p.codec, s6, Open);
    trace, steps := Extend(p.codec, [s0], [], s0, Open, read0);
    trace, steps := Extend(p.codec, trace, steps, read0, Read, s2);
    trace, steps := Extend(p.codec, trace, steps, s2, append3, s3);
    trace, steps := Extend(p.codec, trace, steps, s3, PollStat, s4);
    trace, steps := Extend(p.codec, trace, steps, s4, append4, s5);
    trace, steps := Extend(p.codec, trace, steps, s5, rewrite, s6);
    trace, steps := Extend(p.codec, trace, steps, s6, Open, read1);
    trace, steps := Extend(p.codec, trace, steps, read1, Read, s8);
    var last := State(World3(p), Fooled(p).(pollStart := 4, synced := 4));
    trace, steps := Extend(p.codec, trace, steps, s8, PollStat, last);
    Final(p);
  }

  lemma Final(p: Pairs)
    ensures var s := State(World3(p), Fooled(p).(pollStart := 4, synced := 4));
            s.f.phase.Idle? && s.f.synced == s.w.clock == 4
  {
  }

  lemma OneState(codec: Codec, s: State)
    requires Init(codec, s)
    ensures Reaches(codec, [s], [], s)
  {
  }

  ghost function Padding(n: nat): (b: Bytes)
    ensures |b| == n && NoNL(b)
  {
    if n == 0 then [] else [65] + Padding(n - 1)
  }

  ghost function Padded(digit: byte): Bytes { [digit] + Padding(255) }

  lemma PaddedPair(x: byte, y: byte)
    ensures var file := Padded(x) + [NL] + (Padded(y) + [NL]);
            |file| == 514 && AnchorAt(file, |file|) == Padding(255) + [NL]
  {
    hide Padding;
    var file := Padded(x) + [NL] + (Padded(y) + [NL]);
    assert file == Padded(x) + [NL] + [y] + (Padding(255) + [NL]);
  }

  /** Such lines exist: they differ in the first of 256 bytes only. */
  lemma CollisionExists() returns (p: Pairs)
    ensures p.Collide()
  {
    hide AnchorAt, Padding;
    var codec: Codec := imap[Padded(49) := Event("1"), Padded(50) := Event("2"),
                             Padded(51) := Event("3"), Padded(52) := Event("4")];
    p := Pairs(codec, Padded(49), Padded(50), Padded(51), Padded(52), "1", "2", "3", "4");
    PaddedPair(49, 50);
    PaddedPair(51, 52);
    assert Padded(49)[0] == 49 && Padded(50)[0] == 50 && Padded(51)[0] == 51 && Padded(52)[0] == 52;
  }
}
