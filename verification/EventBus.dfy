/** The channel event bus (`event_bus.py`): concurrent broadcasters, subscribers that replay
    from a cursor, and two locks. A step is what one thread does inside one critical section,
    or one queue put; threads interleave between steps in every order. */
module EventBus {
  import opened Common
  import Lines
  import ReverseRead

  type Offset = nat
  type SubId = nat

  /** An entry of a subscriber queue, by where it came from. */
  datatype Item = Replayed(offset: Offset) | Live(offset: Offset)

  /** A broadcast in flight: logged but not yet past the subscriber snapshot, or putting. */
  datatype Cast = Appended | Fanning(rest: seq<SubId>)

  /** The thread inside `subscribe_with_cursor`, which holds `file_lock` throughout. */
  datatype Subbing =
    | Free
    | Locked(q: SubId, cursor: nat)
    | Registered(q: SubId)
    | Replaying(q: SubId, rest: seq<Offset>)

  /** History of a registration: the client's cursor, what the log held, and the broadcasts
      that were between their append and their subscriber snapshot. */
  datatype Reg = Reg(cursor: nat, known: set<Offset>, racing: set<Offset>)

  /** `snapped` is history: the subscribers each finished snapshot saw. */
  datatype Bus = Bus(log: seq<Offset>, next: nat, cursors: map<string, nat>, subscribers: seq<SubId>,
                     queues: map<SubId, seq<Item>>, casts: map<Offset, Cast>, subbing: Subbing,
                     regs: map<SubId, Reg>, snapped: map<Offset, set<SubId>>)

  function Members(s: seq<nat>): set<nat> {
    set x | x in s
  }

  /** `read_events_from_offset_locked`, in file order. */
  function Backlog(log: seq<Offset>, from: nat): seq<Offset> {
    if log == [] then []
    else (if log[0] >= from then [log[0]] else []) + Backlog(log[1..], from)
  }

  function Remove(subs: seq<SubId>, q: SubId): seq<SubId> {
    if subs == [] then [] else if subs[0] == q then subs[1..] else [subs[0]] + Remove(subs[1..], q)
  }

  datatype Step =
    | Append
    | Snapshot(o: Offset)
    | Put(o: Offset)
    | Finish(o: Offset)
    | Lock(client: string, q: SubId)
    | Register
    | ReadBacklog
    | PutReplay
    | Unlock
    | Ack(client: string, offset: nat)
    | Unsubscribe(q: SubId)

  predicate Enabled(b: Bus, step: Step) {
    match step
    case Append => b.subbing.Free?
    case Snapshot(o) => o in b.casts && b.casts[o].Appended?
    case Put(o) => o in b.casts && b.casts[o].Fanning? && b.casts[o].rest != [] && b.casts[o].rest[0] in b.queues
    case Finish(o) => o in b.casts && b.casts[o] == Fanning([])
    case Lock(_, q) => b.subbing.Free? && q !in b.regs
    case Register => b.subbing.Locked?
    case ReadBacklog => b.subbing.Registered? && b.subbing.q in b.regs
    case PutReplay => b.subbing.Replaying? && b.subbing.rest != [] && b.subbing.q in b.queues
    case Unlock => b.subbing.Replaying? && b.subbing.rest == []
    case Ack(_, _) => b.subbing.Free?
    case Unsubscribe(q) => true
  }

  function Racing(b: Bus): set<Offset> {
    set o | o in b.casts && b.casts[o].Appended?
  }

  function Do(b: Bus, step: Step): Bus
    requires Enabled(b, step)
  {
    match step
    case Append => b.(log := b.log + [b.next], next := b.next + 1, casts := b.casts[b.next := Appended])
    case Snapshot(o) =>
      b.(casts := b.casts[o := Fanning(b.subscribers)], snapped := b.snapped[o := Members(b.subscribers)])
    case Put(o) =>
      var rest := b.casts[o].rest;
      b.(queues := b.queues[rest[0] := b.queues[rest[0]] + [Live(o)]], casts := b.casts[o := Fanning(rest[1..])])
    case Finish(o) => b.(casts := b.casts - {o})
    case Lock(client, q) => b.(subbing := Locked(q, if client in b.cursors then b.cursors[client] else 0))
    case Register =>
      var q := b.subbing.q;
      b.(subscribers := b.subscribers + [q], queues := b.queues[q := []],
         regs := b.regs[q := Reg(b.subbing.cursor, Members(b.log), Racing(b))], subbing := Registered(q))
    case ReadBacklog =>
      b.(subbing := Replaying(b.subbing.q, Backlog(b.log, b.regs[b.subbing.q].cursor)))
    case PutReplay =>
      var q, rest := b.subbing.q, b.subbing.rest;
      b.(queues := b.queues[q := b.queues[q] + [Replayed(rest[0])]], subbing := Replaying(q, rest[1..]))
    case Unlock => b.(subbing := Free)
    case Ack(client, offset) => b.(cursors := b.cursors[client := offset])
    case Unsubscribe(q) => b.(subscribers := Remove(b.subscribers, q))
  }

  // ----- the invariant -------------------------------------------------------------------

  /** The fan-out of `o` reaches `q`: its snapshot came after the registration of `q`. */
  ghost predicate FannedTo(reg: Reg, o: Offset) {
    o in reg.racing || o !in reg.known
  }

  ghost function One(b: bool): nat {
    if b then 1 else 0
  }

  /** Fan-out puts of `o` to `q` still to be made. */
  ghost function PendingLive(casts: map<Offset, Cast>, q: SubId, o: Offset): nat {
    if o in casts && casts[o].Fanning? then multiset(casts[o].rest)[q] else 0
  }

  ghost predicate Replays(reg: Reg, o: Offset) {
    o in reg.known && o >= reg.cursor
  }

  /** Replay puts of `o` to `q` still to be made. */
  ghost function PendingReplay(subbing: Subbing, reg: Reg, q: SubId, o: Offset): nat {
    match subbing
    case Registered(p) => One(p == q && Replays(reg, o))
    case Replaying(p, rest) => if p == q then multiset(rest)[o] else 0
    case _ => 0
  }

  /** Offsets are unique and below the next one; an event is past its snapshot or a broadcast
      still has to take it. */
  ghost predicate LogInv(log: seq<Offset>, next: nat, casts: map<Offset, Cast>, snapped: map<Offset, set<SubId>>) {
    && Distinct(log)
    && (forall o :: o in Members(log) ==> o < next)
    && (forall o :: o in casts ==> o in Members(log))
    && (forall o :: o in Members(log) <==> o in snapped || (o in casts && casts[o].Appended?))
    && (forall o :: o in casts && casts[o].Appended? ==> o !in snapped)
    && (forall o :: o in casts && casts[o].Fanning? ==> o in snapped)
  }

  ghost predicate SubInv(log: seq<Offset>, subscribers: seq<SubId>, queues: map<SubId, seq<Item>>,
                         regs: map<SubId, Reg>, subbing: Subbing) {
    && Distinct(subscribers)
    && regs.Keys == queues.Keys
    && Members(subscribers) <= regs.Keys
    && (match subbing
        case Free => true
        case Locked(q, _) => q !in regs
        case Registered(q) => q in regs && regs[q].known == Members(log)
        case Replaying(q, _) => q in regs)
  }

  /** Each fan-out put is made or outstanding, once per subscriber its snapshot saw. */
  ghost predicate LiveInv(queues: map<SubId, seq<Item>>, casts: map<Offset, Cast>, snapped: map<Offset, set<SubId>>) {
    && (forall q, o | q in queues && o in snapped ::
          multiset(queues[q])[Live(o)] + PendingLive(casts, q, o) == One(q in snapped[o]))
    && (forall q, o: Offset | q in queues && o !in snapped :: multiset(queues[q])[Live(o)] == 0)
    && (forall o | o in snapped :: snapped[o] <= queues.Keys)
    && (forall o | o in casts && casts[o].Fanning? :: Members(casts[o].rest) <= queues.Keys)
  }

  /** A snapshot saw a subscriber iff it came after the registration. */
  ghost predicate SnapInv(log: seq<Offset>, subscribers: seq<SubId>, regs: map<SubId, Reg>,
                          snapped: map<Offset, set<SubId>>) {
    && (forall q, o | q in Members(subscribers) && q in regs && o in snapped ::
          q in snapped[o] <==> FannedTo(regs[q], o))
    && (forall q, o | q in regs && o in Members(log) && o !in snapped :: FannedTo(regs[q], o))
    && (forall q | q in regs :: regs[q].known <= Members(log))
  }

  /** Each replay put is made or outstanding, once per logged event from the cursor on. */
  ghost predicate ReplayInv(queues: map<SubId, seq<Item>>, regs: map<SubId, Reg>, subbing: Subbing) {
    forall q, o: Offset | q in queues && q in regs ::
      multiset(queues[q])[Replayed(o)] + PendingReplay(subbing, regs[q], q, o) == One(Replays(regs[q], o))
  }

  ghost predicate Inv(b: Bus) {
    && SubInv(b.log, b.subscribers, b.queues, b.regs, b.subbing)
    && LogInv(b.log, b.next, b.casts, b.snapped)
    && LiveInv(b.queues, b.casts, b.snapped)
    && SnapInv(b.log, b.subscribers, b.regs, b.snapped)
    && ReplayInv(b.queues, b.regs, b.subbing)
  }

  /** A bus just started over an existing log, whose offsets are distinct and below `next`. */
  ghost predicate Init(b: Bus) {
    && Distinct(b.log) && (forall o :: o in Members(b.log) ==> o < b.next)
    && b.subscribers == [] && b.queues == map[] && b.regs == map[] && b.casts == map[]
    && b.subbing.Free? && b.snapped == map o | o in Members(b.log) :: {}
  }

  lemma InitInv(b: Bus)
    requires Init(b)
    ensures Inv(b)
  {
  }

  // ----- every step keeps it ---------------------------------------------------------------

  lemma AppendLog(b: Bus)
    requires LogInv(b.log, b.next, b.casts, b.snapped)
    ensures LogInv(b.log + [b.next], b.next + 1, b.casts[b.next := Appended], b.snapped)
    ensures Members(b.log + [b.next]) == Members(b.log) + {b.next} && b.next !in Members(b.log)
    ensures b.next !in b.casts && b.next !in b.snapped
  {
    var log' := b.log + [b.next];
    assert Members(log') == Members(b.log) + {b.next};
    assert b.next !in Members(b.log);
    forall i, j | 0 <= i < j < |log'| ensures log'[i] != log'[j] {
      assert log'[i] in Members(b.log);
    }
  }

  lemma AppendInv(b: Bus)
    requires Inv(b) && b.subbing.Free?
    ensures Inv(Do(b, Append))
  {
    hide LogInv, Members, Distinct;
    AppendLog(b);
  }

  lemma {:induction false} DistinctCount(s: seq<nat>, x: nat)
    requires Distinct(s)
    ensures multiset(s)[x] == One(x in Members(s))
    decreases |s|
  {
    if s != [] {
      var t := s[..|s| - 1];
      assert s == t + [s[|s| - 1]];
      DistinctCount(t, x);
    }
  }

  lemma SnapshotLive(b: Bus, o: Offset)
    requires Inv(b) && o in b.casts && b.casts[o].Appended?
    ensures var b' := Do(b, Snapshot(o)); LiveInv(b'.queues, b'.casts, b'.snapped)
  {
    hide Members, Distinct, SnapInv, ReplayInv;
    forall q ensures multiset(b.subscribers)[q] == One(q in Members(b.subscribers)) {
      DistinctCount(b.subscribers, q);
    }
  }

  lemma SnapshotInv(b: Bus, o: Offset)
    requires Inv(b) && o in b.casts && b.casts[o].Appended?
    ensures Inv(Do(b, Snapshot(o)))
  {
    hide Members, Distinct, LiveInv, ReplayInv, SubInv;
    SnapshotLive(b, o);
  }

  lemma PutLive(queues: map<SubId, seq<Item>>, casts: map<Offset, Cast>, snapped: map<Offset, set<SubId>>, o: Offset)
    requires LiveInv(queues, casts, snapped) && o in casts && o in snapped
    requires casts[o].Fanning? && casts[o].rest != [] && casts[o].rest[0] in queues
    ensures var rest := casts[o].rest;
            LiveInv(queues[rest[0] := queues[rest[0]] + [Live(o)]], casts[o := Fanning(rest[1..])], snapped)
  {
    hide Members, PendingLive, One;
    var rest := casts[o].rest;
    var r := rest[0];
    var queues', casts' := queues[r := queues[r] + [Live(o)]], casts[o := Fanning(rest[1..])];
    MembersTail(rest);
    assert queues'.Keys == queues.Keys;
    forall q, p: Offset | q in queues
      ensures multiset(queues'[q])[Live(p)] == multiset(queues[q])[Live(p)] + One(q == r && p == o)
      ensures PendingLive(casts, q, p) == PendingLive(casts', q, p) + One(q == r && p == o)
    {
      PutPending(queues, casts, o, q, p);
    }
    OneIs();
  }

  lemma OneIs()
    ensures One(true) == 1 && One(false) == 0
  {
  }

  lemma PutPending(queues: map<SubId, seq<Item>>, casts: map<Offset, Cast>, o: Offset, q: SubId, p: Offset)
    requires o in casts && casts[o].Fanning? && casts[o].rest != [] && casts[o].rest[0] in queues && q in queues
    ensures var rest := casts[o].rest;
            var queues' := queues[rest[0] := queues[rest[0]] + [Live(o)]];
            && multiset(queues'[q])[Live(p)] == multiset(queues[q])[Live(p)] + One(q == rest[0] && p == o)
            && PendingLive(casts, q, p)
               == PendingLive(casts[o := Fanning(rest[1..])], q, p) + One(q == rest[0] && p == o)
  {
    PutCount(queues[casts[o].rest[0]], Live(o), Live(p));
    TailCount(casts[o].rest, q);
  }

  lemma PutCount(s: seq<Item>, x: Item, y: Item)
    ensures multiset(s + [x])[y] == multiset(s)[y] + One(x == y)
  {
  }

  lemma TailCount(rest: seq<nat>, x: nat)
    requires rest != []
    ensures multiset(rest)[x] == multiset(rest[1..])[x] + One(x == rest[0])
  {
    assert rest == [rest[0]] + rest[1..];
  }

  lemma MembersTail(s: seq<nat>)
    requires s != []
    ensures Members(s[1..]) <= Members(s) && s[0] in Members(s)
  {
  }

  lemma PutLog(b: Bus, o: Offset, cast: Cast)
    requires LogInv(b.log, b.next, b.casts, b.snapped) && o in b.casts && b.casts[o].Fanning? && cast.Fanning?
    ensures LogInv(b.log, b.next, b.casts[o := cast], b.snapped)
    ensures LogInv(b.log, b.next, b.casts - {o}, b.snapped)
  {
    hide Members, Distinct;
  }

  lemma PutLiveKeepsReplay(b: Bus, o: Offset)
    requires ReplayInv(b.queues, b.regs, b.subbing) && Enabled(b, Put(o))
    ensures var b' := Do(b, Put(o)); ReplayInv(b'.queues, b'.regs, b'.subbing)
  {
    hide PendingReplay;
    var r := b.casts[o].rest[0];
    forall p: Offset ensures multiset(b.queues[r] + [Live(o)])[Replayed(p)] == multiset(b.queues[r])[Replayed(p)] {
      PutCount(b.queues[r], Live(o), Replayed(p));
    }
  }

  lemma FanningSnapped(b: Bus, o: Offset)
    requires LogInv(b.log, b.next, b.casts, b.snapped) && o in b.casts && b.casts[o].Fanning?
    ensures o in b.snapped
  {
  }

  lemma PutInv(b: Bus, o: Offset)
    requires Inv(b) && Enabled(b, Put(o))
    ensures Inv(Do(b, Put(o)))
  {
    hide Members, Distinct, SnapInv, LiveInv, LogInv, ReplayInv;
    PutLiveKeepsReplay(b, o);
    FanningSnapped(b, o);
    PutLive(b.queues, b.casts, b.snapped, o);
    PutLog(b, o, Fanning(b.casts[o].rest[1..]));
  }

  lemma FinishInv(b: Bus, o: Offset)
    requires Inv(b) && Enabled(b, Finish(o))
    ensures Inv(Do(b, Finish(o)))
  {
    hide Members, Distinct, SnapInv, LogInv, ReplayInv, SubInv;
    PutLog(b, o, Fanning([]));
  }

  lemma RegisterInv(b: Bus)
    requires Inv(b) && b.subbing.Locked?
    ensures Inv(Do(b, Register))
  {
    hide Distinct, LogInv, LiveInv, SnapInv, ReplayInv, SubInv;
    RegisterSub(b);
    RegisterLive(b);
    RegisterSnap(b);
    RegisterReplay(b);
  }

  lemma RegisterSub(b: Bus)
    requires Inv(b) && b.subbing.Locked?
    ensures var b' := Do(b, Register); SubInv(b'.log, b'.subscribers, b'.queues, b'.regs, b'.subbing)
    ensures b.subbing.q !in b.regs && b.subbing.q !in Members(b.subscribers) && b.regs.Keys == b.queues.Keys
    ensures Members(Do(b, Register).subscribers) == Members(b.subscribers) + {b.subbing.q}
  {
    hide LogInv, LiveInv, SnapInv, ReplayInv;
    var q := b.subbing.q;
    var subs := b.subscribers + [q];
    assert Members(subs) == Members(b.subscribers) + {q};
    forall i, j | 0 <= i < j < |subs| ensures subs[i] != subs[j] {
      assert subs[i] in Members(b.subscribers);
    }
  }

  lemma RegisterLive(b: Bus)
    requires Inv(b) && b.subbing.Locked?
    ensures var b' := Do(b, Register); LiveInv(b'.queues, b'.casts, b'.snapped)
  {
    hide LogInv, SnapInv, ReplayInv, Members, Distinct;
    var q := b.subbing.q;
    assert q !in b.queues;
    forall o | o in b.snapped ensures PendingLive(b.casts, q, o) == 0 {
      if o in b.casts && b.casts[o].Fanning? {
        InMembers(b.casts[o].rest, q);
      }
    }
  }

  lemma InMembers(s: seq<nat>, x: nat)
    ensures x in s <==> x in Members(s)
  {
  }

  lemma RegisterSnap(b: Bus)
    requires Inv(b) && b.subbing.Locked?
    ensures var b' := Do(b, Register); SnapInv(b'.log, b'.subscribers, b'.regs, b'.snapped)
  {
    RegisterSub(b);
    hide LiveInv, ReplayInv, Members, Distinct, SubInv;
    var q := b.subbing.q;
    var b' := Do(b, Register);
    forall o | o in b.snapped ensures !FannedTo(b'.regs[q], o) && q !in b.snapped[o] {
      SnappedKnown(b, o);
    }
  }

  lemma SnappedKnown(b: Bus, o: Offset)
    requires Inv(b) && o in b.snapped
    ensures o in Members(b.log) && o !in Racing(b) && b.snapped[o] <= b.regs.Keys
  {
    hide ReplayInv, SnapInv, Members, Distinct;
  }

  lemma RegisterReplay(b: Bus)
    requires Inv(b) && b.subbing.Locked?
    ensures var b' := Do(b, Register); ReplayInv(b'.queues, b'.regs, b'.subbing)
  {
    hide LiveInv, SnapInv, LogInv, Members, Distinct, Racing;
  }

  lemma {:induction false} BacklogCount(log: seq<Offset>, from: nat, o: Offset)
    requires Distinct(log)
    ensures multiset(Backlog(log, from))[o] == One(o in Members(log) && o >= from)
    decreases |log|
  {
    if log != [] {
      assert log == [log[0]] + log[1..];
      BacklogCount(log[1..], from, o);
    }
  }

  lemma ReadBacklogInv(b: Bus)
    requires Inv(b) && Enabled(b, ReadBacklog)
    ensures Inv(Do(b, ReadBacklog))
  {
    hide LiveInv, SnapInv, Members, Backlog, Distinct;
    var reg := b.regs[b.subbing.q];
    forall o: Offset ensures multiset(Backlog(b.log, reg.cursor))[o] == One(Replays(reg, o)) {
      BacklogCount(b.log, reg.cursor, o);
    }
  }

  lemma PutReplayInv(b: Bus)
    requires Inv(b) && Enabled(b, PutReplay)
    ensures Inv(Do(b, PutReplay))
  {
    hide SnapInv, Members, Distinct, LogInv, LiveInv, ReplayInv;
    PutReplayLive(b);
    PutReplayCounts(b);
  }

  lemma PutReplayLive(b: Bus)
    requires Inv(b) && Enabled(b, PutReplay)
    ensures var b' := Do(b, PutReplay); LiveInv(b'.queues, b'.casts, b'.snapped)
  {
    hide SnapInv, Members, Distinct, LogInv, ReplayInv, SubInv, PendingLive;
    var q, rest := b.subbing.q, b.subbing.rest;
    forall p: Offset ensures multiset(b.queues[q] + [Replayed(rest[0])])[Live(p)] == multiset(b.queues[q])[Live(p)] {
      PutCount(b.queues[q], Replayed(rest[0]), Live(p));
    }
    assert Do(b, PutReplay).queues.Keys == b.queues.Keys;
  }

  lemma PutReplayCounts(b: Bus)
    requires Inv(b) && Enabled(b, PutReplay)
    ensures var b' := Do(b, PutReplay); ReplayInv(b'.queues, b'.regs, b'.subbing)
  {
    hide SnapInv, Members, Distinct, LogInv, LiveInv, SubInv;
    var q, rest := b.subbing.q, b.subbing.rest;
    forall p: Offset
      ensures multiset(b.queues[q] + [Replayed(rest[0])])[Replayed(p)]
        == multiset(b.queues[q])[Replayed(p)] + One(p == rest[0])
      ensures multiset(rest)[p] == multiset(rest[1..])[p] + One(p == rest[0])
    {
      PutCount(b.queues[q], Replayed(rest[0]), Replayed(p));
      TailCount(rest, p);
    }
  }

  lemma UnlockInv(b: Bus)
    requires Inv(b) && Enabled(b, Unlock)
    ensures Inv(Do(b, Unlock))
  {
    hide SnapInv, Members, Distinct, LogInv, LiveInv;

  }

  lemma {:induction false} RemoveKeeps(subs: seq<SubId>, q: SubId)
    requires Distinct(subs)
    ensures Distinct(Remove(subs, q))
    ensures Members(Remove(subs, q)) == Members(subs) - {q}
    decreases |subs|
  {
    if subs != [] {
      var t := subs[1..];
      assert Members(subs) == {subs[0]} + Members(t) by { assert subs == [subs[0]] + t; }
      assert subs[0] !in Members(t);
      if subs[0] != q {
        RemoveKeeps(t, q);
        ConsDistinct(subs[0], Remove(t, q));
      }
    }
  }

  lemma ConsDistinct(x: nat, s: seq<nat>)
    requires Distinct(s) && x !in Members(s)
    ensures Distinct([x] + s) && Members([x] + s) == {x} + Members(s)
  {
    var r := [x] + s;
    forall i, j | 0 <= i < j < |r| ensures r[i] != r[j] {
      assert r[j] == s[j - 1] && r[j] in Members(s);
    }
  }

  lemma UnsubscribeInv(b: Bus, q: SubId)
    requires Inv(b)
    ensures Inv(Do(b, Unsubscribe(q)))
  {
    hide Members, Distinct, LogInv, LiveInv, ReplayInv, Remove;
    RemoveKeeps(b.subscribers, q);
  }

  lemma StepInv(b: Bus, step: Step)
    requires Inv(b) && Enabled(b, step)
    ensures Inv(Do(b, step))
  {
    hide Inv;
    match step
    case Append => AppendInv(b);
    case Snapshot(o) => SnapshotInv(b, o);
    case Put(o) => PutInv(b, o);
    case Finish(o) => FinishInv(b, o);
    case Lock(client, q) => LockInv(b, step);
    case Register => RegisterInv(b);
    case ReadBacklog => ReadBacklogInv(b);
    case PutReplay => PutReplayInv(b);
    case Unlock => UnlockInv(b);
    case Ack(client, offset) => LockInv(b, step);
    case Unsubscribe(q) => UnsubscribeInv(b, q);
  }

  lemma LockInv(b: Bus, step: Step)
    requires Inv(b) && Enabled(b, step) && (step.Lock? || step.Ack?)
    ensures Inv(Do(b, step))
  {
    hide Members, Distinct, LogInv, LiveInv, SnapInv;
  }

  /** A run from a started bus, in any interleaving. */
  ghost predicate Run(trace: seq<Bus>, steps: seq<Step>) {
    && |trace| == |steps| + 1 && Init(trace[0])
    && forall i :: 0 <= i < |steps| ==> Enabled(trace[i], steps[i]) && trace[i + 1] == Do(trace[i], steps[i])
  }

  lemma {:induction false} RunInv(trace: seq<Bus>, steps: seq<Step>, n: nat)
    requires Run(trace, steps) && n < |trace|
    ensures Inv(trace[n])
  {
    hide Inv, Init, Enabled, Do;
    if n == 0 {
      InitInv(trace[0]);
    } else {
      RunInv(trace, steps, n - 1);
      StepInv(trace[n - 1], steps[n - 1]);
    }
  }

  // ----- delivery ----------------------------------------------------------------------------

  /** How often the event reached the queue, by replay or by fan-out. */
  ghost function Deliveries(queue: seq<Item>, o: Offset): nat {
    multiset(queue)[Replayed(o)] + multiset(queue)[Live(o)]
  }

  /** No broadcast and no subscription is under way. */
  ghost predicate Quiet(b: Bus) {
    b.casts == map[] && b.subbing.Free?
  }

  /** Delivery, exactly: in every run, once nothing is in flight, a registered subscriber has
      got a logged event from the cursor on at least once and at most twice, and twice exactly
      when the event's broadcast stood between its append and its subscriber snapshot when the
      subscriber registered. */
  lemma Delivery(trace: seq<Bus>, steps: seq<Step>, n: nat, q: SubId, o: Offset)
    requires Run(trace, steps) && n < |trace|
    requires var b := trace[n]; Quiet(b) && q in b.subscribers && o in b.log
    ensures var b := trace[n];
            && q in b.queues && q in b.regs
            && var d := Deliveries(b.queues[q], o);
            && (o >= b.regs[q].cursor ==> 1 <= d <= 2)
            && (d == 2 <==> o >= b.regs[q].cursor && o in b.regs[q].racing && o in b.regs[q].known)
            && (d == 0 <==> o < b.regs[q].cursor && o in b.regs[q].known && o !in b.regs[q].racing)
  {
    RunInv(trace, steps, n);
    var b := trace[n];
    InMembers(b.subscribers, q);
    InMembers(b.log, o);
    hide Members, Distinct;
    assert o in b.snapped;
    assert PendingLive(b.casts, q, o) == 0 && PendingReplay(b.subbing, b.regs[q], q, o) == 0;
  }

  /** At no moment of any run does a queue hold an event more than twice. */
  lemma AtMostTwice(trace: seq<Bus>, steps: seq<Step>, n: nat, q: SubId, o: Offset)
    requires Run(trace, steps) && n < |trace| && q in trace[n].queues
    ensures Deliveries(trace[n].queues[q], o) <= 2
  {
    RunInv(trace, steps, n);
    hide Members, Distinct, SnapInv, LogInv;
    var b := trace[n];
    assert q in b.regs;
    assert o in b.snapped || o !in b.snapped;
  }

  /** The racing set is what its name says: the events a registration saw logged whose
      broadcast had not taken its subscriber snapshot. */
  lemma RacingMeaning(b: Bus, o: Offset)
    requires Inv(b) && Enabled(b, Register)
    ensures var reg := Do(b, Register).regs[b.subbing.q];
            && (o in reg.racing <==> o in b.casts && b.casts[o].Appended?)
            && reg.racing <= reg.known
            && (o in reg.known <==> o in b.log)
  {
    hide Distinct, LiveInv, SnapInv, ReplayInv, SubInv;
    InMembers(b.log, o);
  }

  // ----- the order of the replay ---------------------------------------------------------------

  ghost predicate AtLeast(o: Offset, cursor: nat) {
    o >= cursor
  }

  ghost function From(cursor: nat): iset<Offset> {
    iset o: Offset | AtLeast(o, cursor)
  }

  /** The backlog is the log with the offsets below the cursor left out. */
  lemma {:induction false} BacklogKeeps(log: seq<Offset>, from: nat)
    ensures Backlog(log, from) == Keep(log, From(from))
    decreases |log|
  {
    if log != [] {
      BacklogKeeps(log[1..], from);
    }
  }

  /** By position: the replay is the log at rising positions, which are those of the offsets from the
      cursor on; over a rising log it rises. */
  lemma BacklogInOrder(log: seq<Offset>, from: nat) returns (at: seq<int>)
    ensures var replay := Backlog(log, from);
            && Rising(at) && |at| == |replay|
            && (forall i :: 0 <= i < |at| ==> 0 <= at[i] < |log| && log[at[i]] == replay[i] && replay[i] >= from)
            && (forall k :: 0 <= k < |log| && log[k] >= from ==> k in at)
            && (Rising(log) ==> Rising(replay))
  {
    BacklogKeeps(log, from);
    hide Backlog, Keep;
    at := KeepAt(log, From(from));
  }

  /** What a registration is to replay. */
  ghost function Due(reg: Reg): iset<Offset> {
    iset o: Offset | Replays(reg, o)
  }

  ghost function ReplayedIn(queue: seq<Item>): seq<Offset> {
    if queue == [] then []
    else
      var n := |queue| - 1;
      ReplayedIn(queue[..n]) + if queue[n].Replayed? then [queue[n].offset] else []
  }

  /** The replay of `q` still to be put. */
  ghost function Outstanding(b: Bus, q: SubId): seq<Offset>
    requires q in b.regs
  {
    match b.subbing
    case Registered(p) => if p == q then Keep(b.log, Due(b.regs[q])) else []
    case Replaying(p, rest) => if p == q then rest else []
    case _ => []
  }

  ghost predicate InOrder(b: Bus, q: SubId)
    requires q in b.queues && q in b.regs
  {
    ReplayedIn(b.queues[q]) + Outstanding(b, q) == Keep(b.log, Due(b.regs[q]))
  }

  ghost predicate OrderInv(b: Bus) {
    forall q :: q in b.queues && q in b.regs ==> InOrder(b, q)
  }

  lemma ReplayedSnoc(queue: seq<Item>, item: Item)
    ensures ReplayedIn(queue + [item]) == ReplayedIn(queue) + if item.Replayed? then [item.offset] else []
  {
    assert (queue + [item])[..|queue|] == queue;
  }

  /** A later event is not due to an earlier registration. */
  lemma AppendOrder(b: Bus)
    requires Inv(b) && OrderInv(b) && Enabled(b, Append)
    ensures OrderInv(Do(b, Append))
  {
    hide Keep, ReplayedIn, Members, Distinct, LiveInv, ReplayInv;
    AppendLog(b);
    var b' := Do(b, Append);
    forall q | q in b'.queues && q in b'.regs ensures InOrder(b', q) {
      KeepConcat(b.log, [b.next], Due(b.regs[q]));
      KeepOne(b.next, Due(b.regs[q]));
      assert InOrder(b, q);
    }
  }

  lemma ReadBacklogOrder(b: Bus)
    requires Inv(b) && OrderInv(b) && Enabled(b, ReadBacklog)
    ensures OrderInv(Do(b, ReadBacklog))
  {
    hide Keep, ReplayedIn, Distinct, LiveInv, ReplayInv, SnapInv, LogInv, Backlog;
    var p := b.subbing.q;
    var reg := b.regs[p];
    BacklogKeeps(b.log, reg.cursor);
    forall i | 0 <= i < |b.log| ensures b.log[i] in From(reg.cursor) <==> b.log[i] in Due(reg) {
      assert b.log[i] in Members(b.log);
    }
    KeepSame(b.log, From(reg.cursor), Due(reg));
    var b' := Do(b, ReadBacklog);
    forall q | q in b'.queues && q in b'.regs ensures InOrder(b', q) {
      assert InOrder(b, q);
    }
  }

  lemma PutOrder(b: Bus, step: Step)
    requires Inv(b) && OrderInv(b) && Enabled(b, step) && (step.Put? || step.PutReplay?)
    ensures OrderInv(Do(b, step))
  {
    hide Keep, ReplayedIn, Inv;
    var b' := Do(b, step);
    forall q | q in b'.queues && q in b'.regs ensures InOrder(b', q) {
      assert InOrder(b, q);
      var item := if step.Put? then Live(step.o) else Replayed(b.subbing.rest[0]);
      ReplayedSnoc(b.queues[q], item);
      if step.PutReplay? && q == b.subbing.q {
        var done, rest := ReplayedIn(b.queues[q]), b.subbing.rest;
        assert done + rest == (done + [rest[0]]) + rest[1..];
      } else {
        assert ReplayedIn(b.queues[q]) + [] == ReplayedIn(b.queues[q]);
      }
    }
  }

  lemma RegisterOrder(b: Bus)
    requires Inv(b) && OrderInv(b) && Enabled(b, Register)
    ensures OrderInv(Do(b, Register))
  {
    hide Keep, Members, Racing, Inv;
    var b', p := Do(b, Register), b.subbing.q;
    forall q | q in b'.queues && q in b'.regs ensures InOrder(b', q) {
      if q == p {
        var due := Keep(b.log, Due(b'.regs[q]));
        assert [] + due == due;
      } else {
        assert InOrder(b, q);
      }
    }
  }

  lemma StepOrder(b: Bus, step: Step)
    requires Inv(b) && OrderInv(b) && Enabled(b, step)
    ensures OrderInv(Do(b, step))
  {
    hide Inv, OrderInv;
    match step
    case Append => AppendOrder(b);
    case Register => RegisterOrder(b);
    case ReadBacklog => ReadBacklogOrder(b);
    case Put(_) => PutOrder(b, step);
    case PutReplay => PutOrder(b, step);
    case Unlock => UnlockOrder(b);
    case _ => SameOrder(b, Do(b, step));
  }

  /** The order is about the log, the queues, the registrations and the subscription under way. */
  lemma SameOrder(b: Bus, b': Bus)
    requires OrderInv(b) && b'.log == b.log && b'.queues == b.queues && b'.regs == b.regs
    requires b'.subbing == b.subbing || (b.subbing.Free? && b'.subbing.Locked?)
    ensures OrderInv(b')
  {
    hide Keep, ReplayedIn;
    forall q | q in b'.queues && q in b'.regs ensures InOrder(b', q) {
      assert InOrder(b, q);
    }
  }

  lemma UnlockOrder(b: Bus)
    requires OrderInv(b) && Enabled(b, Unlock)
    ensures OrderInv(Do(b, Unlock))
  {
    hide Keep, ReplayedIn;
    var b' := Do(b, Unlock);
    forall q | q in b'.queues && q in b'.regs ensures InOrder(b', q) {
      assert InOrder(b, q);
    }
  }

  lemma {:induction false} RunOrder(trace: seq<Bus>, steps: seq<Step>, n: nat)
    requires Run(trace, steps) && n < |trace|
    ensures OrderInv(trace[n])
  {
    hide Inv, Enabled, Do, OrderInv;
    if n == 0 {
      assert OrderInv(trace[0]) by { NoQueues(trace[0]); }
    } else {
      RunInv(trace, steps, n - 1);
      RunOrder(trace, steps, n - 1);
      StepOrder(trace[n - 1], steps[n - 1]);
    }
  }

  lemma NoQueues(b: Bus)
    requires b.queues == map[]
    ensures OrderInv(b)
  {
  }

  lemma {:induction false} ReplayedPlace(queue: seq<Item>, i: nat, j: nat) returns (x: nat, y: nat)
    requires i <= j < |queue| && queue[i].Replayed? && queue[j].Replayed?
    ensures y < |ReplayedIn(queue)| && (if i == j then x == y else x < y)
    ensures ReplayedIn(queue)[x] == queue[i].offset && ReplayedIn(queue)[y] == queue[j].offset
    decreases |queue|
  {
    var n := |queue| - 1;
    if j < n {
      x, y := ReplayedPlace(queue[..n], i, j);
    } else {
      y := |ReplayedIn(queue)| - 1;
      if i == j {
        x := y;
      } else {
        var z;
        x, z := ReplayedPlace(queue[..n], i, i);
      }
    }
  }

  /** In every run, at every moment, what a queue got by replay stands in log order, and only offsets
      from the registration's cursor on. */
  lemma ReplayInLogOrder(trace: seq<Bus>, steps: seq<Step>, n: nat, q: SubId, i: nat, j: nat) returns (a: nat, b: nat)
    requires Run(trace, steps) && n < |trace| && q in trace[n].queues
    requires var queue := trace[n].queues[q]; i < j < |queue| && queue[i].Replayed? && queue[j].Replayed?
    ensures var s, queue := trace[n], trace[n].queues[q];
            && a < b < |s.log| && s.log[a] == queue[i].offset && s.log[b] == queue[j].offset
            && q in s.regs && queue[i].offset >= s.regs[q].cursor && queue[j].offset >= s.regs[q].cursor
  {
    RunInv(trace, steps, n);
    RunOrder(trace, steps, n);
    hide Run, Keep, ReplayedIn, LogInv, LiveInv, SnapInv, ReplayInv, Members, Distinct;
    var s := trace[n];
    assert InOrder(s, q);
    var x, y := ReplayedPlace(s.queues[q], i, j);
    var kept := Keep(s.log, Due(s.regs[q]));
    assert kept[x] == s.queues[q][i].offset && kept[y] == s.queues[q][j].offset;
    var at := KeepAt(s.log, Due(s.regs[q]));
    a, b := at[x], at[y];
  }

  lemma StepGrows(b: Bus, step: Step, q: SubId)
    requires Inv(b) && Enabled(b, step) && q in b.queues
    ensures q in Do(b, step).queues && b.queues[q] <= Do(b, step).queues[q]
  {
    hide LogInv, LiveInv, SnapInv, ReplayInv, Members, Distinct, Backlog, Racing;
  }

  /** A queue only ever gets more at its end. */
  lemma {:induction false} QueuesGrow(trace: seq<Bus>, steps: seq<Step>, i: nat, n: nat, q: SubId)
    requires Run(trace, steps) && i <= n < |trace| && q in trace[i].queues
    ensures q in trace[n].queues && trace[i].queues[q] <= trace[n].queues[q]
    decreases n
  {
    hide Inv, Enabled, Do, Init;
    if i < n {
      QueuesGrow(trace, steps, i, n - 1, q);
      RunInv(trace, steps, n - 1);
      assert Enabled(trace[n - 1], steps[n - 1]) && trace[n - 1 + 1] == Do(trace[n - 1], steps[n - 1]);
      StepGrows(trace[n - 1], steps[n - 1], q);
    }
  }

  // ----- whose cursor ----------------------------------------------------------------------------

  /** The offset `client` acked last before step `n`, else what it started with. */
  ghost predicate LastAcked(trace: seq<Bus>, steps: seq<Step>, n: nat, client: string, cursor: nat)
    requires n <= |steps| && |trace| > 0
  {
    || (exists k :: 0 <= k < n && steps[k] == Ack(client, cursor) && NoAck(steps, k + 1, n, client))
    || (NoAck(steps, 0, n, client)
        && cursor == if client in trace[0].cursors then trace[0].cursors[client] else 0)
  }

  ghost predicate NoAck(steps: seq<Step>, lo: nat, hi: nat, client: string)
    requires hi <= |steps|
  {
    forall k :: lo <= k < hi ==> !(steps[k].Ack? && steps[k].client == client)
  }

  ghost function CursorOf(b: Bus, client: string): nat {
    if client in b.cursors then b.cursors[client] else 0
  }

  /** Only an ack of the client moves its cursor. */
  lemma CursorStep(b: Bus, step: Step, client: string)
    requires Enabled(b, step)
    ensures CursorOf(Do(b, step), client)
      == if step.Ack? && step.client == client then step.offset else CursorOf(b, client)
  {
  }

  lemma {:induction false} CursorIsLastAcked(trace: seq<Bus>, steps: seq<Step>, n: nat, client: string)
    requires Run(trace, steps) && n <= |steps|
    ensures LastAcked(trace, steps, n, client, CursorOf(trace[n], client))
    decreases n
  {
    hide Init, Inv, Do, Enabled;
    if n > 0 {
      CursorIsLastAcked(trace, steps, n - 1, client);
      var step, cursor := steps[n - 1], CursorOf(trace[n - 1], client);
      assert Enabled(trace[n - 1], step) && trace[n - 1 + 1] == Do(trace[n - 1], step);
      CursorStep(trace[n - 1], step, client);
      hide CursorOf;
      if step.Ack? && step.client == client {
        assert steps[n - 1] == Ack(client, CursorOf(trace[n], client)) && NoAck(steps, n, n, client);
      } else if k :| 0 <= k < n - 1 && steps[k] == Ack(client, cursor) && NoAck(steps, k + 1, n - 1, client) {
        assert NoAck(steps, k + 1, n, client);
      } else {
        assert NoAck(steps, 0, n, client);
      }
    }
  }

  ghost predicate HasCursor(b: Bus, q: SubId, cursor: nat) {
    if q in b.regs then b.regs[q].cursor == cursor else b.subbing == Locked(q, cursor)
  }

  lemma LockTakesCursor(b: Bus, client: string, q: SubId)
    requires Enabled(b, Lock(client, q))
    ensures HasCursor(Do(b, Lock(client, q)), q, CursorOf(b, client))
  {
  }

  lemma StepKeepsCursor(b: Bus, step: Step, q: SubId, cursor: nat)
    requires SubInv(b.log, b.subscribers, b.queues, b.regs, b.subbing) && Enabled(b, step) && HasCursor(b, q, cursor)
    ensures HasCursor(Do(b, step), q, cursor)
  {
    hide Distinct, Members, Racing, Backlog;
  }

  /** A subscription under way, and a registration ever after, has the cursor it took at the lock. */
  lemma {:induction false} CursorKept(trace: seq<Bus>, steps: seq<Step>, i: nat, n: nat, client: string, q: SubId)
    requires Run(trace, steps) && i < n <= |steps| && steps[i] == Lock(client, q)
    ensures HasCursor(trace[n], q, CursorOf(trace[i], client))
    decreases n
  {
    hide Init, HasCursor, Enabled, Do, LogInv, LiveInv, SnapInv, ReplayInv, SubInv, CursorOf;
    assert Enabled(trace[n - 1], steps[n - 1]) && trace[n - 1 + 1] == Do(trace[n - 1], steps[n - 1]);
    if n == i + 1 {
      LockTakesCursor(trace[i], client, q);
    } else {
      CursorKept(trace, steps, i, n - 1, client, q);
      RunInv(trace, steps, n - 1);
      StepKeepsCursor(trace[n - 1], steps[n - 1], q, CursorOf(trace[i], client));
    }
  }

  /** In every run a registration replays from the offset its client acked last before it subscribed. */
  lemma ReplaysFromLastAck(trace: seq<Bus>, steps: seq<Step>, i: nat, n: nat, client: string, q: SubId)
    requires Run(trace, steps) && i < n <= |steps| && steps[i] == Lock(client, q) && q in trace[n].regs
    ensures LastAcked(trace, steps, i, client, trace[n].regs[q].cursor)
  {
    hide Run, LastAcked;
    CursorIsLastAcked(trace, steps, i, client);
    CursorKept(trace, steps, i, n, client, q);
  }

  // ----- restarts ----------------------------------------------------------------------------

  /** A log that rises at the start of a run rises throughout it. */
  lemma {:induction false} LogRises(trace: seq<Bus>, steps: seq<Step>, n: nat)
    requires Run(trace, steps) && n < |trace| && Rising(trace[0].log)
    ensures Rising(trace[n].log)
  {
    hide Init, Inv, Enabled, Do, Rising;
    if n > 0 {
      LogRises(trace, steps, n - 1);
      RunInv(trace, steps, n - 1);
      NextAboveLog(trace[n - 1]);
      assert Enabled(trace[n - 1], steps[n - 1]) && trace[n - 1 + 1] == Do(trace[n - 1], steps[n - 1]);
      StepLog(trace[n - 1], steps[n - 1]);
      RisesOn(trace[n - 1].log, trace[n - 1].next);
    }
  }

  lemma StepLog(b: Bus, step: Step)
    requires Enabled(b, step)
    ensures Do(b, step).log == if step.Append? then b.log + [b.next] else b.log
  {
  }

  lemma RisesOn(log: seq<Offset>, next: nat)
    requires Rising(log) && forall i :: 0 <= i < |log| ==> log[i] < next
    ensures Rising(log + [next])
  {
  }

  lemma NextAboveLog(b: Bus)
    requires Inv(b)
    ensures forall i :: 0 <= i < |b.log| ==> b.log[i] < b.next
  {
    hide SubInv, LiveInv, SnapInv, ReplayInv, Distinct;
    forall i | 0 <= i < |b.log| ensures b.log[i] < b.next {
      assert b.log[i] in Members(b.log);
    }
  }

  /** A restart over the log of any run, with a next offset above all of it, is a bus start again. */
  lemma RestartIsAStart(trace: seq<Bus>, steps: seq<Step>, n: nat, next: nat, cursors: map<string, nat>)
    requires Run(trace, steps) && n < |trace| && Rising(trace[0].log)
    requires forall i :: 0 <= i < |trace[n].log| ==> trace[n].log[i] < next
    ensures var log := trace[n].log;
            Init(Bus(log, next, cursors, [], map[], map[], Free, map[], map o | o in Members(log) :: {}))
  {
    LogRises(trace, steps, n);
    hide Run, Inv;
  }

  /** Offsets stay unique across restarts: over the log file of any run that started with rising
      offsets, the offset the reverse read recovers, at any chunk size, makes a bus start again. */
  lemma RestartFromFile(trace: seq<Bus>, steps: seq<Step>, n: nat, codec: ReverseRead.Codec, file: Lines.Bytes,
                        chunk: nat, cursors: map<string, nat>)
    requires Run(trace, steps) && n < |trace| && Rising(trace[0].log)
    requires 0 < chunk && ReverseRead.FileOffsets(codec, file) == trace[n].log
    ensures var log, next := trace[n].log, ReverseRead.NextOffset(codec, file, chunk);
            && next >= 0 && Rising(log)
            && Init(Bus(log, next, cursors, [], map[], map[], Free, map[], map o | o in Members(log) :: {}))
  {
    hide Run, Init, ReverseRead.NextOffset, ReverseRead.FileOffsets;
    LogRises(trace, steps, n);
    ReverseRead.NextOffsetExact(codec, file, chunk);
    RestartIsAStart(trace, steps, n, ReverseRead.NextOffset(codec, file, chunk), cursors);
  }

  /** The "never duplicated" of the subscribe documentation does not hold: a broadcast appends,
      a client subscribes and replays, and only then does the broadcast take its snapshot. */
  lemma DuplicateRun(client: string, q: SubId) returns (trace: seq<Bus>, steps: seq<Step>)
    ensures Run(trace, steps) && |trace| == 10
    ensures Quiet(trace[9]) && trace[9].subscribers == [q] && trace[9].log == [0]
    ensures q in trace[9].queues && trace[9].queues[q] == [Replayed(0), Live(0)]
    ensures Deliveries(trace[9].queues[q], 0) == 2
  {
    var b0 := Bus([], 0, map[], [], map[], map[], Free, map[], map[]);
    var b1 := b0.(log := [0], next := 1, casts := map[0 := Appended]);
    var b2 := b1.(subbing := Locked(q, 0));
    var reg := Reg(0, {0}, {0});
    var b3 := b2.(subscribers := [q], queues := map[q := []], regs := map[q := reg], subbing := Registered(q));
    var b4 := b3.(subbing := Replaying(q, [0]));
    var b5 := b4.(queues := map[q := [Replayed(0)]], subbing := Replaying(q, []));
    var b6 := b5.(subbing := Free);
    var b7 := b6.(casts := map[0 := Fanning([q])], snapped := map[0 := {q}]);
    var b8 := b7.(queues := map[q := [Replayed(0), Live(0)]], casts := map[0 := Fanning([])]);
    var b9 := b8.(casts := map[]);
    DuplicateStart(b0, b1, b2, b3, client, q, reg);
    DuplicateReplay(b3, b4, b5, b6, q);
    DuplicateFanOut(b6, b7, b8, b9, q);
    hide *;
    trace, steps := StartRun(b0);
    trace, steps := Extend(trace, steps, Append, b1);
    trace, steps := Extend(trace, steps, Lock(client, q), b2);
    trace, steps := Extend(trace, steps, Register, b3);
    trace, steps := Extend(trace, steps, ReadBacklog, b4);
    trace, steps := Extend(trace, steps, PutReplay, b5);
    trace, steps := Extend(trace, steps, Unlock, b6);
    trace, steps := Extend(trace, steps, Snapshot(0), b7);
    trace, steps := Extend(trace, steps, Put(0), b8);
    trace, steps := Extend(trace, steps, Finish(0), b9);
    BothOnce(b9);
  }

  lemma BothOnce(b: Bus)
    requires b.casts == map[] && b.subbing == Free
    ensures Quiet(b) && Deliveries([Replayed(0), Live(0)], 0) == 2
  {
    assert multiset([Replayed(0), Live(0)]) == multiset{Replayed(0), Live(0)};
  }

  lemma StartRun(b: Bus) returns (trace: seq<Bus>, steps: seq<Step>)
    requires b == Bus([], 0, map[], [], map[], map[], Free, map[], map[])
    ensures Run(trace, steps) && |trace| == 1 && trace[0] == b
  {
    trace, steps := [b], [];
  }

  lemma Extend(trace: seq<Bus>, steps: seq<Step>, step: Step, b: Bus) returns (trace': seq<Bus>, steps': seq<Step>)
    requires Run(trace, steps) && |trace| > 0
    requires Enabled(trace[|trace| - 1], step) && b == Do(trace[|trace| - 1], step)
    ensures Run(trace', steps') && |trace'| == |trace| + 1 && trace'[|trace|] == b
  {
    hide Init, Enabled, Do;
    trace', steps' := trace + [b], steps + [step];
  }

  lemma DuplicateStart(b0: Bus, b1: Bus, b2: Bus, b3: Bus, client: string, q: SubId, reg: Reg)
    requires b0 == Bus([], 0, map[], [], map[], map[], Free, map[], map[]) && reg == Reg(0, {0}, {0})
    requires b1 == b0.(log := [0], next := 1, casts := map[0 := Appended]) && b2 == b1.(subbing := Locked(q, 0))
    requires b3 == b2.(subscribers := [q], queues := map[q := []], regs := map[q := reg], subbing := Registered(q))
    ensures Enabled(b0, Append) && b1 == Do(b0, Append)
    ensures Enabled(b1, Lock(client, q)) && b2 == Do(b1, Lock(client, q))
    ensures Enabled(b2, Register) && b3 == Do(b2, Register)
  {
    assert Members([0]) == {0} && Racing(b2) == {0};
  }

  lemma DuplicateReplay(b3: Bus, b4: Bus, b5: Bus, b6: Bus, q: SubId)
    requires b3.log == [0] && b3.subbing == Registered(q)
    requires b3.regs == map[q := Reg(0, {0}, {0})] && b3.queues == map[q := []]
    requires b4 == b3.(subbing := Replaying(q, [0]))
    requires b5 == b4.(queues := map[q := [Replayed(0)]], subbing := Replaying(q, [])) && b6 == b5.(subbing := Free)
    ensures Enabled(b3, ReadBacklog) && b4 == Do(b3, ReadBacklog)
    ensures Enabled(b4, PutReplay) && b5 == Do(b4, PutReplay)
    ensures Enabled(b5, Unlock) && b6 == Do(b5, Unlock)
  {
    assert [0][1..] == [] && Backlog([], 0) == [];
    assert Backlog([0], 0) == [0];
    assert [] + [Replayed(0)] == [Replayed(0)];
    assert b4.queues[q := [] + [Replayed(0)]] == map[q := [Replayed(0)]];
  }

  lemma DuplicateFanOut(b6: Bus, b7: Bus, b8: Bus, b9: Bus, q: SubId)
    requires b6.casts == map[0 := Appended] && b6.snapped == map[]
    requires b6.subscribers == [q] && b6.queues == map[q := [Replayed(0)]]
    requires b7 == b6.(casts := map[0 := Fanning([q])], snapped := map[0 := {q}])
    requires b8 == b7.(queues := map[q := [Replayed(0), Live(0)]], casts := map[0 := Fanning([])])
    requires b9 == b8.(casts := map[])
    ensures Enabled(b6, Snapshot(0)) && b7 == Do(b6, Snapshot(0))
    ensures Enabled(b7, Put(0)) && b8 == Do(b7, Put(0))
    ensures Enabled(b8, Finish(0)) && b9 == Do(b8, Finish(0))
  {
    assert Members([q]) == {q} && [q][1..] == [];
    assert [Replayed(0)] + [Live(0)] == [Replayed(0), Live(0)];
    assert b8.casts - {0} == map[];
  }

  // ----- the object, one thread at a time -----------------------------------------------------

  class ChannelBus {
    var log: seq<Offset>
    var next: nat
    var cursors: map<string, nat>
    var subscribers: seq<SubId>
    var queues: map<SubId, seq<Item>>

    ghost predicate Valid()
      reads this
    {
      && Distinct(log) && (forall o :: o in Members(log) ==> o < next)
      && Distinct(subscribers) && Members(subscribers) <= queues.Keys
    }

    /** What the client's next subscribe replays. */
    function Replay(client: string): seq<Offset>
      reads this
    {
      Backlog(log, if client in cursors then cursors[client] else 0)
    }

    /** `broadcast` without interference: one log record, one put per subscriber. */
    method Broadcast()
      requires Valid()
      modifies this
      ensures Valid()
      ensures log == old(log) + [old(next)] && next == old(next) + 1
      ensures subscribers == old(subscribers) && cursors == old(cursors) && queues.Keys == old(queues.Keys)
      ensures forall q :: q in queues ==>
        queues[q] == if q in Members(subscribers) then old(queues)[q] + [Live(old(next))] else old(queues)[q]
    {
      var o := next;
      AppendLogged(log, next);
      log, next := log + [next], next + 1;
      var subs := subscribers;
      hide Members, Distinct;
      for i := 0 to |subs|
        invariant subscribers == subs == old(subscribers) && queues.Keys == old(queues.Keys)
        invariant log == old(log) + [o] && next == o + 1 && cursors == old(cursors)
        invariant forall q :: q in queues ==>
          queues[q] == if q in Members(subs[..i]) then old(queues)[q] + [Live(o)] else old(queues)[q]
      {
        NextMember(subs, i);
        queues := queues[subs[i] := queues[subs[i]] + [Live(o)]];
      }
      assert subs[..|subs|] == subs;
    }

    /** `subscribe_with_cursor` without interference: the queue starts with the log from the cursor on,
        at the positions `at`. */
    method SubscribeWithCursor(client: string, q: SubId) returns (ghost at: seq<int>)
      requires Valid() && q !in queues
      modifies this
      ensures Valid()
      ensures log == old(log) && next == old(next) && cursors == old(cursors)
      ensures subscribers == old(subscribers) + [q] && queues.Keys == old(queues.Keys) + {q}
      ensures forall p :: p in old(queues) ==> queues[p] == old(queues)[p]
      ensures var cursor := if client in cursors then cursors[client] else 0;
              && Rising(at) && |at| == |queues[q]|
              && (forall i :: 0 <= i < |at| ==>
                   0 <= at[i] < |log| && queues[q][i] == Replayed(log[at[i]]) && log[at[i]] >= cursor)
              && (forall k :: 0 <= k < |log| && log[k] >= cursor ==> k in at)
      ensures |queues[q]| == |Replay(client)|
      ensures forall i :: 0 <= i < |queues[q]| ==> queues[q][i] == Replayed(Replay(client)[i])
    {
      hide Rising, Backlog;
      var cursor := if client in cursors then cursors[client] else 0;
      at := BacklogInOrder(log, cursor);
      NewSubscriber(subscribers, q);
      subscribers, queues := subscribers + [q], queues[q := []];
      var missed := Backlog(log, cursor);
      hide Members, Distinct;
      for i := 0 to |missed|
        invariant queues.Keys == old(queues.Keys) + {q}
        invariant forall p :: p in old(queues) ==> queues[p] == old(queues)[p]
        invariant |queues[q]| == i && forall k :: 0 <= k < i ==> queues[q][k] == Replayed(missed[k])
        invariant subscribers == old(subscribers) + [q]
        invariant log == old(log) && next == old(next) && cursors == old(cursors)
      {
        queues := queues[q := queues[q] + [Replayed(missed[i])]];
      }
    }

    /** `ack_offset`. The next subscribe of the client replays exactly what is logged from the acked
        offset on, also when that lies behind an earlier ack; no other client is affected. */
    method Ack(client: string, offset: nat)
      modifies this`cursors
      ensures forall o :: o in Replay(client) <==> o in log && o >= offset
      ensures forall c :: c != client ==> Replay(c) == old(Replay(c))
      ensures cursors.Keys == old(cursors.Keys) + {client}
    {
      cursors := cursors[client := offset];
      BacklogHolds(log, offset);
    }

    /** `unsubscribe`. */
    method Unsubscribe(q: SubId)
      requires Valid()
      modifies this`subscribers
      ensures Valid() && Members(subscribers) == Members(old(subscribers)) - {q}
      ensures subscribers == Keep(old(subscribers), Others(q))
    {
      RemoveKeeps(subscribers, q);
      RemoveIsKeep(subscribers, q);
      subscribers := Remove(subscribers, q);
    }
  }

  ghost predicate IsOther(p: SubId, q: SubId) {
    p != q
  }

  ghost function Others(q: SubId): iset<SubId> {
    iset p: SubId | IsOther(p, q)
  }

  lemma {:induction false} RemoveIsKeep(subs: seq<SubId>, q: SubId)
    requires Distinct(subs)
    ensures Remove(subs, q) == Keep(subs, Others(q))
    decreases |subs|
  {
    if subs != [] {
      if subs[0] == q {
        assert forall i :: 0 <= i < |subs[1..]| ==> subs[1..][i] == subs[i + 1] && subs[i + 1] != q;
        KeepAll(subs[1..], Others(q));
      } else {
        RemoveIsKeep(subs[1..], q);
      }
    }
  }

  lemma {:induction false} BacklogHolds(log: seq<Offset>, from: nat)
    ensures forall o :: o in Backlog(log, from) <==> o in log && o >= from
    decreases |log|
  {
    if log != [] {
      BacklogHolds(log[1..], from);
    }
  }

  lemma AppendLogged(log: seq<Offset>, next: nat)
    requires Distinct(log) && forall o :: o in Members(log) ==> o < next
    ensures Distinct(log + [next]) && forall o :: o in Members(log + [next]) ==> o < next + 1
  {
    var log' := log + [next];
    forall i, j | 0 <= i < j < |log'| ensures log'[i] != log'[j] {
      assert log'[i] in Members(log);
    }
    forall o | o in Members(log') ensures o < next + 1 {
      assert o in Members(log) || o == next;
    }
  }

  lemma NextMember(subs: seq<SubId>, i: nat)
    requires Distinct(subs) && i < |subs|
    ensures Members(subs[..i + 1]) == Members(subs[..i]) + {subs[i]}
    ensures subs[i] !in Members(subs[..i]) && subs[i] in Members(subs)
  {
    assert subs[..i + 1] == subs[..i] + [subs[i]];
  }

  lemma NewSubscriber(subs: seq<SubId>, q: SubId)
    requires Distinct(subs) && q !in Members(subs)
    ensures Distinct(subs + [q]) && Members(subs + [q]) == Members(subs) + {q}
  {
    var subs' := subs + [q];
    forall i, j | 0 <= i < j < |subs'| ensures subs'[i] != subs'[j] {
      assert subs'[i] in Members(subs);
    }
  }
}
