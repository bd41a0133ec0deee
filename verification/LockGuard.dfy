/** The lock-discipline guard (`_lock_guard.py`): what it checks, what every reachable held stack
    looks like, and which deadlocks that leaves possible. */
module LockGuard {

  datatype Rank = SESSIONS | STATE | LEAF {
    function Order(): nat {
      match this case SESSIONS => 0 case STATE => 1 case LEAF => 2
    }
  }

  datatype HeldLock = HeldLock(name: string, path: string, rank: Rank)

  datatype Verdict = Allowed | Reentered | UnderLeaf(leaf: string) | OutOfOrder(higher: string)

  /** `_check_reentry`. */
  predicate Reenters(lock: HeldLock, held: seq<HeldLock>) {
    exists i :: 0 <= i < |held| && held[i].path == lock.path
  }

  predicate HasLeaf(held: seq<HeldLock>) {
    exists i :: 0 <= i < |held| && held[i].rank == LEAF
  }

  predicate HasHigher(lock: HeldLock, held: seq<HeldLock>) {
    exists i :: 0 <= i < |held| && held[i].rank.Order() > lock.rank.Order()
  }

  /** Sessions, then state, then leaf. */
  ghost predicate Above(a: HeldLock, b: HeldLock) {
    || (a.rank == LEAF && b.rank != LEAF)
    || (a.rank == STATE && b.rank == SESSIONS)
  }

  /** `_order_message`: is it `None`. */
  predicate InOrder(lock: HeldLock, held: seq<HeldLock>) {
    !HasLeaf(held) && !HasHigher(lock, held)
  }

  /** The per-thread stack and the two checks made before a lock is pushed. */
  class ThreadState {
    var stack: seq<HeldLock>

    constructor ()
      ensures stack == []
    {
      stack := [];
    }

    /** The first leaf held, else the first lock of greater rank (`_order_message`). */
    method OrderMessage(lock: HeldLock) returns (verdict: Verdict)
      ensures verdict.Allowed? <==> InOrder(lock, stack)
      ensures verdict.UnderLeaf? <==> HasLeaf(stack)
      ensures !verdict.Reentered?
      ensures verdict.UnderLeaf? ==>
                exists i :: 0 <= i < |stack| && verdict.leaf == stack[i].name && stack[i].rank == LEAF
                         && forall k :: 0 <= k < i ==> stack[k].rank != LEAF
      ensures verdict.OutOfOrder? ==>
                exists i :: 0 <= i < |stack| && verdict.higher == stack[i].name && Above(stack[i], lock)
                         && forall k :: 0 <= k < i ==> !Above(stack[k], lock)
    {
      for i := 0 to |stack|
        invariant forall k :: 0 <= k < i ==> stack[k].rank != LEAF
      {
        if stack[i].rank == LEAF {
          return UnderLeaf(stack[i].name);
        }
      }
      for i := 0 to |stack|
        invariant forall k :: 0 <= k < i ==> stack[k].rank.Order() <= lock.rank.Order()
      {
        if stack[i].rank.Order() > lock.rank.Order() {
          return OutOfOrder(stack[i].name);
        }
      }
      return Allowed;
    }

    /** The entry half of `lock_guard`. Re-entry is always refused, an order violation only when
        enforcement is on; a refusal pushes nothing. */
    method Enter(lock: HeldLock, enforce: bool) returns (verdict: Verdict)
      modifies this
      ensures verdict.Reentered? <==> Reenters(lock, old(stack))
      ensures verdict.Allowed? <==> !Reenters(lock, old(stack)) && (enforce ==> InOrder(lock, old(stack)))
      ensures stack == if verdict.Allowed? then old(stack) + [lock] else old(stack)
      ensures enforce && verdict.Allowed? && Disciplined(old(stack)) ==> Disciplined(stack)
    {
      for i := 0 to |stack|
        invariant forall k :: 0 <= k < i ==> stack[k].path != lock.path
      {
        if stack[i].path == lock.path {
          return Reentered;
        }
      }
      verdict := OrderMessage(lock);
      if !verdict.Allowed? && enforce {
        return;
      }
      if enforce && Disciplined(stack) {
        PushDisciplined(stack, lock);
      }
      stack := stack + [lock];
      verdict := Allowed;
    }

    /** The exit half: `stack.remove`, the first equal lock. */
    method Exit(lock: HeldLock)
      requires lock in stack
      modifies this
      ensures exists i :: 0 <= i < |old(stack)| && old(stack)[i] == lock && stack == Without(old(stack), i)
                       && (forall k :: 0 <= k < i ==> old(stack)[k] != lock)
      ensures Disciplined(old(stack)) ==> Disciplined(stack)
    {
      var i := 0;
      while stack[i] != lock
        invariant i < |stack| && lock in stack && forall k :: 0 <= k < i ==> stack[k] != lock
        decreases |stack| - i
      {
        i := i + 1;
      }
      if Disciplined(stack) {
        WithoutDisciplined(stack, i);
      }
      stack := stack[..i] + stack[i + 1..];
    }
  }

  function Without(held: seq<HeldLock>, i: nat): seq<HeldLock>
    requires i < |held|
  {
    held[..i] + held[i + 1..]
  }

  /** Distinct paths, non-decreasing rank, a leaf only on top. */
  predicate Disciplined(held: seq<HeldLock>) {
    && (forall i, j :: 0 <= i < j < |held| ==> held[i].path != held[j].path)
    && (forall i, j :: 0 <= i < j < |held| ==> held[i].rank.Order() <= held[j].rank.Order())
    && (forall i :: 0 <= i < |held| - 1 ==> held[i].rank != LEAF)
  }

  lemma PushDisciplined(held: seq<HeldLock>, lock: HeldLock)
    requires Disciplined(held) && !Reenters(lock, held) && InOrder(lock, held)
    ensures Disciplined(held + [lock])
  {
  }

  /** The guard lets a lock through exactly when the stack stays disciplined with it. */
  lemma AllowedExactly(held: seq<HeldLock>, lock: HeldLock)
    requires Disciplined(held)
    ensures !Reenters(lock, held) && InOrder(lock, held) <==> Disciplined(held + [lock])
  {
    if Disciplined(held + [lock]) {
      var more := held + [lock];
      forall i | 0 <= i < |held|
        ensures held[i].path != lock.path && held[i].rank != LEAF && held[i].rank.Order() <= lock.rank.Order()
      {
        assert more[i] == held[i] && more[|held|] == lock;
      }
    } else if !Reenters(lock, held) && InOrder(lock, held) {
      PushDisciplined(held, lock);
    }
  }

  lemma WithoutDisciplined(held: seq<HeldLock>, i: nat)
    requires i < |held| && Disciplined(held)
    ensures Disciplined(Without(held, i))
  {
    var less := Without(held, i);
    forall a, b | 0 <= a < b < |less|
      ensures less[a].path != less[b].path && less[a].rank.Order() <= less[b].rank.Order() && less[a].rank != LEAF
    {
      var a', b' := if a < i then a else a + 1, if b < i then b else b + 1;
      assert less[a] == held[a'] && less[b] == held[b'];
    }
    forall a | 0 <= a < |less| - 1 ensures less[a].rank != LEAF {
      assert less[a].path != less[a + 1].path;
    }
  }

  /** On a disciplined stack the order check looks at the innermost lock only. */
  lemma OnlyTopMatters(held: seq<HeldLock>, lock: HeldLock)
    requires Disciplined(held) && held != []
    ensures var top := held[|held| - 1];
            InOrder(lock, held) <==> top.rank != LEAF && top.rank.Order() <= lock.rank.Order()
  {
    var n := |held| - 1;
    assert HasLeaf(held) <==> held[n].rank == LEAF;
    assert HasHigher(lock, held) <==> held[n].rank.Order() > lock.rank.Order();
  }

  // ----- threads and locks -----------------------------------------------------------------------

  /** A guarded lock is pushed before it is taken and popped after it is given back. */
  datatype Status = Waiting | Held | Dropped

  datatype Entry = Entry(lock: HeldLock, status: Status)

  type Stack = seq<Entry>

  /** Every thread's stack; threads are numbered. */
  type System = imap<nat, Stack>

  ghost predicate Total(s: System) {
    forall t: nat :: t in s
  }

  ghost function Locks(stack: Stack): seq<HeldLock> {
    seq(|stack|, i requires 0 <= i < |stack| => stack[i].lock)
  }

  ghost predicate Blocked(stack: Stack) {
    exists i :: 0 <= i < |stack| && stack[i].status == Waiting
  }

  /** The thread has the path's `flock`. */
  ghost predicate Owns(stack: Stack, path: string) {
    exists i :: 0 <= i < |stack| && stack[i].status == Held && stack[i].lock.path == path
  }

  datatype Step =
    | Request(t: nat, lock: HeldLock)  // the guard lets the lock through and pushes it
    | Grant(t: nat)                    // `flock` returns
    | Drop(t: nat, i: nat)             // the file is closed
    | Pop(t: nat, i: nat)              // the guard removes the entry, also after an aborted wait

  ghost predicate CanStep(s: System, e: Step, enforce: bool)
    requires Total(s)
  {
    var stack := s[e.t];
    match e
    case Request(_, lock) =>
      !Blocked(stack) && !Reenters(lock, Locks(stack)) && (enforce ==> InOrder(lock, Locks(stack)))
    case Grant(_) =>
      && stack != [] && stack[|stack| - 1].status == Waiting
      && forall u: nat :: !Owns(s[u], stack[|stack| - 1].lock.path)
    case Drop(_, i) => !Blocked(stack) && i < |stack| && stack[i].status == Held
    case Pop(_, i) => i < |stack| && (stack[i].status == Waiting || (stack[i].status == Dropped && !Blocked(stack)))
  }

  ghost function After(s: System, e: Step, enforce: bool): System
    requires Total(s) && CanStep(s, e, enforce)
  {
    var stack := s[e.t];
    s[e.t := match e
             case Request(_, lock) => stack + [Entry(lock, Waiting)]
             case Grant(_) => stack[|stack| - 1 := stack[|stack| - 1].(status := Held)]
             case Drop(_, i) => stack[i := stack[i].(status := Dropped)]
             case Pop(_, i) => stack[..i] + stack[i + 1..]]
  }

  ghost predicate Thread(t: nat) { true }

  ghost function Idle(): System {
    imap t: nat | Thread(t) :: []
  }

  ghost predicate Next(s: System, e: Step, s': System, enforce: bool) {
    Total(s) && CanStep(s, e, enforce) && s' == After(s, e, enforce)
  }

  /** The systems a run goes through, from all threads idle. */
  ghost predicate Run(states: seq<System>, steps: seq<Step>, enforce: bool) {
    && |states| == |steps| + 1 && states[0] == Idle()
    && forall i :: 0 <= i < |steps| ==> Next(states[i], steps[i], states[i + 1], enforce)
  }

  /** Paths distinct on every stack, only the innermost entry waiting; with enforcement, disciplined. */
  ghost predicate StackInv(stack: Stack, enforce: bool) {
    && (forall i, j :: 0 <= i < j < |stack| ==> stack[i].lock.path != stack[j].lock.path)
    && (forall i :: 0 <= i < |stack| - 1 ==> stack[i].status != Waiting)
    && (enforce ==> Disciplined(Locks(stack)))
  }

  ghost predicate Inv(s: System, enforce: bool) {
    && Total(s)
    && (forall t: nat :: StackInv(s[t], enforce))
    && (forall t: nat, u: nat, p: string :: t != u ==> !(Owns(s[t], p) && Owns(s[u], p)))
  }

  lemma RequestInv(stack: Stack, lock: HeldLock, enforce: bool)
    requires StackInv(stack, enforce) && !Blocked(stack) && !Reenters(lock, Locks(stack))
    requires enforce ==> InOrder(lock, Locks(stack))
    ensures StackInv(stack + [Entry(lock, Waiting)], enforce)
    ensures forall p :: Owns(stack + [Entry(lock, Waiting)], p) ==> Owns(stack, p)
  {
    hide InOrder, Disciplined;
    var more := stack + [Entry(lock, Waiting)];
    assert Locks(more) == Locks(stack) + [lock];
    forall i | 0 <= i < |stack| ensures stack[i].lock.path != lock.path {
      assert Locks(stack)[i] == stack[i].lock;
    }
    if enforce {
      PushDisciplined(Locks(stack), lock);
    }
    forall p | Owns(more, p) ensures Owns(stack, p) {
      var i :| 0 <= i < |more| && more[i].status == Held && more[i].lock.path == p;
      assert stack[i] == more[i];
    }
  }

  lemma PopInv(stack: Stack, i: nat, enforce: bool)
    requires StackInv(stack, enforce) && i < |stack|
    ensures StackInv(stack[..i] + stack[i + 1..], enforce)
    ensures forall p :: Owns(stack[..i] + stack[i + 1..], p) ==> Owns(stack, p)
  {
    hide Disciplined;
    var less := stack[..i] + stack[i + 1..];
    assert Locks(less) == Without(Locks(stack), i);
    if enforce {
      WithoutDisciplined(Locks(stack), i);
    }
    forall a, b | 0 <= a < b < |less| ensures less[a].lock.path != less[b].lock.path && less[a].status != Waiting {
      var a', b' := if a < i then a else a + 1, if b < i then b else b + 1;
      assert less[a] == stack[a'] && less[b] == stack[b'];
    }
    forall a | 0 <= a < |less| - 1 ensures less[a].status != Waiting {
      assert less[a].lock.path != less[a + 1].lock.path;
    }
    forall p | Owns(less, p) ensures Owns(stack, p) {
      var k :| 0 <= k < |less| && less[k].status == Held && less[k].lock.path == p;
      assert stack[if k < i then k else k + 1] == less[k];
    }
  }

  lemma StatusInv(stack: Stack, i: nat, status: Status, enforce: bool)
    requires StackInv(stack, enforce) && i < |stack| && status != Waiting
    ensures StackInv(stack[i := stack[i].(status := status)], enforce)
    ensures forall p :: Owns(stack[i := stack[i].(status := status)], p) ==>
              Owns(stack, p) || (status == Held && p == stack[i].lock.path)
  {
    hide Disciplined;
    var now := stack[i := stack[i].(status := status)];
    assert Locks(now) == Locks(stack);
    forall p | Owns(now, p) && !(status == Held && p == stack[i].lock.path) ensures Owns(stack, p) {
      var k :| 0 <= k < |now| && now[k].status == Held && now[k].lock.path == p;
      assert k != i && stack[k] == now[k];
    }
  }

  lemma StepInv(s: System, e: Step, enforce: bool)
    requires Inv(s, enforce) && CanStep(s, e, enforce)
    ensures Inv(After(s, e, enforce), enforce)
  {
    hide StackInv, Owns, Blocked, Reenters, InOrder, Locks;
    var stack := s[e.t];
    assert StackInv(stack, enforce);
    var s' := After(s, e, enforce);
    match e
    case Request(_, lock) => RequestInv(stack, lock, enforce);
    case Grant(_) => StatusInv(stack, |stack| - 1, Held, enforce);
    case Drop(_, i) => StatusInv(stack, i, Dropped, enforce);
    case Pop(_, i) => PopInv(stack, i, enforce);
    forall t: nat, u: nat, p: string | t != u && Owns(s'[t], p) ensures !Owns(s'[u], p) {
      assert !(Owns(s[t], p) && Owns(s[u], p));
    }
  }

  lemma {:induction false} RunInv(states: seq<System>, steps: seq<Step>, enforce: bool, i: nat)
    requires Run(states, steps, enforce) && i < |states|
    ensures Inv(states[i], enforce)
    decreases i
  {
    hide CanStep, After, StackInv, Inv;
    if i == 0 {
      IdleInv(enforce);
    } else {
      RunInv(states, steps, enforce, i - 1);
      assert Next(states[i - 1], steps[i - 1], states[i - 1 + 1], enforce);
      StepInv(states[i - 1], steps[i - 1], enforce);
    }
  }

  lemma IdleInv(enforce: bool)
    ensures Inv(Idle(), enforce)
  {
  }

  // ----- deadlocks -------------------------------------------------------------------------------

  ghost predicate Waits(stack: Stack) {
    stack != [] && stack[|stack| - 1].status == Waiting
  }

  /** The lock a blocked thread waits for. */
  ghost function Wanted(stack: Stack): HeldLock
    requires Waits(stack)
  {
    stack[|stack| - 1].lock
  }

  ghost predicate WaitsFor(s: System, a: nat, b: nat)
    requires Total(s)
  {
    Waits(s[a]) && Owns(s[b], Wanted(s[a]).path)
  }

  /** Threads each waiting for the next, and the last for the first. */
  ghost predicate Cycle(s: System, threads: seq<nat>)
    requires Total(s)
  {
    && threads != []
    && (forall i :: 0 <= i < |threads| - 1 ==> WaitsFor(s, threads[i], threads[i + 1]))
    && WaitsFor(s, threads[|threads| - 1], threads[0])
  }

  /** Every lock file has one rank, and there is one sessions lock. */
  ghost predicate Lawful(lock: HeldLock, ranks: imap<string, Rank>, sessions: string) {
    && lock.path in ranks && ranks[lock.path] == lock.rank
    && (lock.rank == SESSIONS ==> lock.path == sessions)
  }

  ghost predicate LawfulSteps(steps: seq<Step>, ranks: imap<string, Rank>, sessions: string) {
    forall i :: 0 <= i < |steps| && steps[i].Request? ==> Lawful(steps[i].lock, ranks, sessions)
  }

  ghost predicate LawfulStack(stack: Stack, ranks: imap<string, Rank>, sessions: string) {
    forall i :: 0 <= i < |stack| ==> Lawful(stack[i].lock, ranks, sessions)
  }

  ghost predicate LawfulSystem(s: System, ranks: imap<string, Rank>, sessions: string) {
    Total(s) && forall t: nat :: LawfulStack(s[t], ranks, sessions)
  }

  lemma {:induction false} RunLawful(states: seq<System>, steps: seq<Step>, enforce: bool, i: nat,
                                     ranks: imap<string, Rank>, sessions: string)
    requires Run(states, steps, enforce) && LawfulSteps(steps, ranks, sessions) && i < |states|
    ensures LawfulSystem(states[i], ranks, sessions)
    decreases i
  {
    hide Lawful, Blocked, Reenters, InOrder, Owns;
    if i > 0 {
      RunLawful(states, steps, enforce, i - 1, ranks, sessions);
      assert Next(states[i - 1], steps[i - 1], states[i - 1 + 1], enforce);
      var e, s := steps[i - 1], states[i - 1];
      assert LawfulStack(s[e.t], ranks, sessions);
      assert LawfulStack(states[i][e.t], ranks, sessions);
    }
  }

  /** A thread that waits and is waited for: the lock it holds for the other one ranks no higher
      than the one it wants, is no leaf, and is another lock. */
  lemma Link(s: System, a: nat, b: nat, ranks: imap<string, Rank>, sessions: string)
    requires Inv(s, true) && LawfulSystem(s, ranks, sessions) && WaitsFor(s, a, b) && Waits(s[b])
    ensures var x, y := Wanted(s[a]), Wanted(s[b]);
            x.rank.Order() <= y.rank.Order() && x.rank != LEAF && x.path != y.path
  {
    var x, y, stack := Wanted(s[a]), Wanted(s[b]), s[b];
    assert StackInv(stack, true) && LawfulStack(stack, ranks, sessions) && LawfulStack(s[a], ranks, sessions);
    var j :| 0 <= j < |stack| && stack[j].status == Held && stack[j].lock.path == x.path;
    var n := |stack| - 1;
    assert j < n;
    assert Lawful(x, ranks, sessions) && Lawful(stack[j].lock, ranks, sessions);
    assert Locks(stack)[j] == stack[j].lock && Locks(stack)[n] == y;
  }

  ghost predicate Round(s: System, threads: seq<nat>, ranks: imap<string, Rank>, sessions: string) {
    Inv(s, true) && LawfulSystem(s, ranks, sessions) && Cycle(s, threads)
  }

  lemma AllWait(s: System, threads: seq<nat>, k: nat)
    requires Total(s) && Cycle(s, threads) && k < |threads|
    ensures Waits(s[threads[k]])
  {
    if k < |threads| - 1 {
      assert WaitsFor(s, threads[k], threads[k + 1]);
    }
  }

  /** Ranks do not fall along the cycle. */
  lemma {:induction false} RanksRise(s: System, threads: seq<nat>, ranks: imap<string, Rank>, sessions: string,
                                     i: nat, k: nat)
    requires Round(s, threads, ranks, sessions) && i <= k < |threads|
    ensures Waits(s[threads[i]]) && Waits(s[threads[k]])
    ensures Wanted(s[threads[i]]).rank.Order() <= Wanted(s[threads[k]]).rank.Order()
    decreases k - i
  {
    hide StackInv, LawfulStack, Owns;
    AllWait(s, threads, i);
    AllWait(s, threads, k);
    if i < k {
      AllWait(s, threads, i + 1);
      assert WaitsFor(s, threads[i], threads[i + 1]);
      Link(s, threads[i], threads[i + 1], ranks, sessions);
      RanksRise(s, threads, ranks, sessions, i + 1, k);
    }
  }

  /** In a cycle every lock waited for has rank STATE. */
  lemma RoundIsState(s: System, threads: seq<nat>, ranks: imap<string, Rank>, sessions: string, k: nat)
    requires Round(s, threads, ranks, sessions) && k < |threads|
    ensures Waits(s[threads[k]]) && Wanted(s[threads[k]]).rank == STATE
  {
    hide StackInv, LawfulStack, Owns;
    var n := |threads| - 1;
    AllWait(s, threads, k);
    AllWait(s, threads, 0);
    AllWait(s, threads, n);
    RanksRise(s, threads, ranks, sessions, 0, k);
    RanksRise(s, threads, ranks, sessions, k, n);
    Link(s, threads[n], threads[0], ranks, sessions);
    var next := if k < n then k + 1 else 0;
    AllWait(s, threads, next);
    assert k < n ==> WaitsFor(s, threads[k], threads[k + 1]);
    Link(s, threads[k], threads[next], ranks, sessions);
    RanksRise(s, threads, ranks, sessions, 0, next);
    RanksRise(s, threads, ranks, sessions, next, n);
    WantedLawful(s, threads[k], ranks, sessions);
    WantedLawful(s, threads[next], ranks, sessions);
  }

  lemma WantedLawful(s: System, t: nat, ranks: imap<string, Rank>, sessions: string)
    requires LawfulSystem(s, ranks, sessions) && Waits(s[t])
    ensures Wanted(s[t]).rank == SESSIONS ==> Wanted(s[t]).path == sessions
  {
    assert LawfulStack(s[t], ranks, sessions);
  }

  /** Deadlock confinement: with the order enforced, in every state of every run a cycle of waiting
      threads is made of STATE locks only. */
  lemma CyclesAreState(states: seq<System>, steps: seq<Step>, i: nat, threads: seq<nat>, ranks: imap<string, Rank>,
                       sessions: string, k: nat)
    requires Run(states, steps, true) && LawfulSteps(steps, ranks, sessions) && i < |states|
    requires Total(states[i]) && Cycle(states[i], threads) && k < |threads|
    ensures Waits(states[i][threads[k]]) && Wanted(states[i][threads[k]]).rank == STATE
  {
    hide Inv, LawfulSystem, Cycle, Run;
    RunInv(states, steps, true, i);
    RunLawful(states, steps, true, i, ranks, sessions);
    RoundIsState(states[i], threads, ranks, sessions, k);
  }

  /** Hence none at all while no thread has two STATE locks on its stack. */
  lemma NoCycleWithSingleStates(states: seq<System>, steps: seq<Step>, i: nat, threads: seq<nat>,
                                ranks: imap<string, Rank>, sessions: string)
    requires Run(states, steps, true) && LawfulSteps(steps, ranks, sessions) && i < |states| && Total(states[i])
    requires forall t: nat, a, b :: 0 <= a < b < |states[i][t]| ==>
               !(states[i][t][a].lock.rank == STATE && states[i][t][b].lock.rank == STATE)
    ensures !Cycle(states[i], threads)
  {
    var s := states[i];
    if Cycle(s, threads) {
      hide Run, LawfulSteps;
      var n := |threads| - 1;
      CyclesAreState(states, steps, i, threads, ranks, sessions, 0);
      CyclesAreState(states, steps, i, threads, ranks, sessions, n);
      RunInv(states, steps, true, i);
      RunLawful(states, steps, true, i, ranks, sessions);
      HeldState(s, threads[n], threads[0], ranks, sessions);
      assert false;
    }
  }

  lemma HeldState(s: System, a: nat, b: nat, ranks: imap<string, Rank>, sessions: string)
    requires Inv(s, true) && LawfulSystem(s, ranks, sessions) && WaitsFor(s, a, b) && Waits(s[b])
    requires Wanted(s[a]).rank == STATE && Wanted(s[b]).rank == STATE
    ensures exists j, k :: 0 <= j < k < |s[b]| && s[b][j].lock.rank == STATE && s[b][k].lock.rank == STATE
  {
    var stack := s[b];
    assert StackInv(stack, true) && LawfulStack(stack, ranks, sessions) && LawfulStack(s[a], ranks, sessions);
    var j :| 0 <= j < |stack| && stack[j].status == Held && stack[j].lock.path == Wanted(s[a]).path;
    assert Lawful(Wanted(s[a]), ranks, sessions) && Lawful(stack[j].lock, ranks, sessions);
    assert stack[j].lock.rank == STATE && stack[|stack| - 1].lock.rank == STATE && j < |stack| - 1;
  }

  /** With or without enforcement no thread ever waits for itself. */
  lemma NeverWaitsForItself(states: seq<System>, steps: seq<Step>, enforce: bool, i: nat, t: nat)
    requires Run(states, steps, enforce) && i < |states|
    ensures Total(states[i]) && !WaitsFor(states[i], t, t)
  {
    hide Run;
    RunInv(states, steps, enforce, i);
    assert StackInv(states[i][t], enforce);
  }

  // ----- the cycles that remain --------------------------------------------------------------------

  /** The system in which only threads 0 and 1 hold anything. */
  ghost function Pair(a: Stack, b: Stack): System {
    Idle()[0 := a][1 := b]
  }

  ghost predicate Reaches(states: seq<System>, steps: seq<Step>, enforce: bool, s: System) {
    Run(states, steps, enforce) && states[|states| - 1] == s
  }

  lemma Extend(states: seq<System>, steps: seq<Step>, enforce: bool, s: System, e: Step, s': System)
    returns (states': seq<System>, steps': seq<Step>)
    requires Reaches(states, steps, enforce, s) && Next(s, e, s', enforce)
    ensures Reaches(states', steps', enforce, s') && steps' == steps + [e]
  {
    hide Next;
    states', steps' := states + [s'], steps + [e];
    forall i | 0 <= i < |steps'| ensures Next(states'[i], steps'[i], states'[i + 1], enforce) {
      if i < |steps| {
        assert Next(states[i], steps[i], states[i + 1], enforce);
      }
    }
  }

  /** Thread 0 or 1 takes a step on its own stack. */
  lemma FirstMoves(a: Stack, b: Stack, e: Step, enforce: bool, a': Stack)
    requires e.t == 0 && CanStep(Pair(a, b), e, enforce) && After(Pair(a, b), e, enforce)[0] == a'
    ensures Next(Pair(a, b), e, Pair(a', b), enforce)
  {
    assert After(Pair(a, b), e, enforce) == Pair(a', b);
  }

  lemma SecondMoves(a: Stack, b: Stack, e: Step, enforce: bool, b': Stack)
    requires e.t == 1 && CanStep(Pair(a, b), e, enforce) && After(Pair(a, b), e, enforce)[1] == b'
    ensures Next(Pair(a, b), e, Pair(a, b'), enforce)
  {
    assert After(Pair(a, b), e, enforce) == Pair(a, b');
  }

  /** Two locks taken in opposite orders deadlock: under enforcement when both have the same rank
      below LEAF, without enforcement whatever their ranks. The run asks for these two locks only, so
      two STATE locks make it a lawful one. */
  lemma CycleReachable(x: HeldLock, y: HeldLock, enforce: bool)
    returns (states: seq<System>, steps: seq<Step>)
    requires x.path != y.path && (enforce ==> x.rank == y.rank && x.rank != LEAF)
    ensures Run(states, steps, enforce)
    ensures var s := states[|states| - 1]; Total(s) && Cycle(s, [0, 1]) && Wanted(s[0]) == y && Wanted(s[1]) == x
    ensures forall ranks, sessions ::
              Lawful(x, ranks, sessions) && Lawful(y, ranks, sessions) ==> LawfulSteps(steps, ranks, sessions)
  {
    hide Next, Run;
    var x0, x1, y0, y1 := Entry(x, Waiting), Entry(x, Held), Entry(y, Waiting), Entry(y, Held);
    states, steps := Start(enforce);
    Asks(x, y, enforce);
    Takes(x, y, enforce);
    Crosses(x, y, enforce);
    states, steps := Extend(states, steps, enforce, Pair([], []), Request(0, x), Pair([x0], []));
    states, steps := Extend(states, steps, enforce, Pair([x0], []), Grant(0), Pair([x1], []));
    states, steps := Extend(states, steps, enforce, Pair([x1], []), Request(1, y), Pair([x1], [y0]));
    states, steps := Extend(states, steps, enforce, Pair([x1], [y0]), Grant(1), Pair([x1], [y1]));
    states, steps := Extend(states, steps, enforce, Pair([x1], [y1]), Request(0, y), Pair([x1, y0], [y1]));
    states, steps := Extend(states, steps, enforce, Pair([x1, y0], [y1]), Request(1, x), Pair([x1, y0], [y1, x0]));
    var s := Pair([x1, y0], [y1, x0]);
    assert s[0] == [x1, y0] && s[1] == [y1, x0];
    assert s[0][0] == x1 && s[1][0] == y1;
    assert Owns(s[0], x.path) && Owns(s[1], y.path);
    assert steps == [Request(0, x), Grant(0), Request(1, y), Grant(1), Request(0, y), Request(1, x)];
  }

  /** The confinement is tight: a lawful run under enforcement ends in a cycle of two STATE locks. */
  lemma StateCycleReachable(a: string, b: string) returns (states: seq<System>, steps: seq<Step>)
    requires a != b
    ensures Run(states, steps, true) && (exists ranks, sessions :: LawfulSteps(steps, ranks, sessions))
    ensures var s := states[|states| - 1];
            Total(s) && Cycle(s, [0, 1]) && Wanted(s[0]).rank == Wanted(s[1]).rank == STATE
  {
    hide Run, Cycle, LawfulSteps;
    var x, y := HeldLock("x", a, STATE), HeldLock("y", b, STATE);
    states, steps := CycleReachable(x, y, true);
    var ranks := imap[a := STATE, b := STATE];
    assert Lawful(x, ranks, "") && Lawful(y, ranks, "");
    assert LawfulSteps(steps, ranks, "");
  }

  lemma Start(enforce: bool) returns (states: seq<System>, steps: seq<Step>)
    ensures Reaches(states, steps, enforce, Pair([], [])) && steps == []
  {
    states, steps := [Idle()], [];
    assert Idle() == Pair([], []);
  }

  lemma Asks(x: HeldLock, y: HeldLock, enforce: bool)
    ensures Next(Pair([], []), Request(0, x), Pair([Entry(x, Waiting)], []), enforce)
    ensures Next(Pair([Entry(x, Held)], []), Request(1, y), Pair([Entry(x, Held)], [Entry(y, Waiting)]), enforce)
  {
    FirstMoves([], [], Request(0, x), enforce, [Entry(x, Waiting)]);
    SecondMoves([Entry(x, Held)], [], Request(1, y), enforce, [Entry(y, Waiting)]);
  }

  lemma Takes(x: HeldLock, y: HeldLock, enforce: bool)
    requires x.path != y.path
    ensures Next(Pair([Entry(x, Waiting)], []), Grant(0), Pair([Entry(x, Held)], []), enforce)
    ensures Next(Pair([Entry(x, Held)], [Entry(y, Waiting)]), Grant(1),
                 Pair([Entry(x, Held)], [Entry(y, Held)]), enforce)
  {
    FirstMoves([Entry(x, Waiting)], [], Grant(0), enforce, [Entry(x, Held)]);
    SecondMoves([Entry(x, Held)], [Entry(y, Waiting)], Grant(1), enforce, [Entry(y, Held)]);
  }

  lemma Crosses(x: HeldLock, y: HeldLock, enforce: bool)
    requires x.path != y.path && (enforce ==> x.rank == y.rank && x.rank != LEAF)
    ensures Next(Pair([Entry(x, Held)], [Entry(y, Held)]), Request(0, y),
                 Pair([Entry(x, Held), Entry(y, Waiting)], [Entry(y, Held)]), enforce)
    ensures Next(Pair([Entry(x, Held), Entry(y, Waiting)], [Entry(y, Held)]), Request(1, x),
                 Pair([Entry(x, Held), Entry(y, Waiting)], [Entry(y, Held), Entry(x, Waiting)]), enforce)
  {
    var a, b := [Entry(x, Held)], [Entry(y, Held)];
    assert Locks(a) == [x] && Locks(b) == [y];
    FirstMoves(a, b, Request(0, y), enforce, [Entry(x, Held), Entry(y, Waiting)]);
    SecondMoves([Entry(x, Held), Entry(y, Waiting)], b, Request(1, x), enforce, [Entry(y, Held), Entry(x, Waiting)]);
  }
}
