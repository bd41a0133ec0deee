/** The write-ahead marker of the legacy recovery (`codex_legacy_recovery.py` and its model). */
module Recovery {
  import opened Common

  datatype Disposition = Requeued | Parked | Failed | AlreadyHandled | WriterLive

  /** One entry of a marker list, for one session. */
  datatype Row<+T> = Row(id: string, info: T)

  datatype OutcomeInfo = OutcomeInfo(client: string, ticket: string, disposition: Disposition)
  datatype UnresolvedInfo = UnresolvedInfo(client: string, ticket: string, reason: string)
  datatype PendingInfo = PendingInfo(client: string, ticket: string)

  type Outcome = Row<OutcomeInfo>
  type Unresolved = Row<UnresolvedInfo>
  type Pending = Row<PendingInfo>

  datatype Counts = Counts(scanned: nat, requeued: nat, parked: nat, failed: nat, alreadyHandled: nat, writerLive: nat)

  datatype Marker = Marker(covered: seq<string>, completed: bool, counts: Counts,
                           unresolved: seq<Unresolved>, outcomes: seq<Outcome>, pending: seq<Pending>)

  const EMPTY := Marker([], false, Counts(0, 0, 0, 0, 0, 0), [], [], [])

  predicate LeavesUnresolved(d: Disposition) {
    d == Failed || d == WriterLive
  }

  // ----- lists keyed by session --------------------------------------------------------------------

  function Without<T>(rows: seq<Row<T>>, id: string): seq<Row<T>> {
    if rows == [] then [] else (if rows[0].id == id then [] else [rows[0]]) + Without(rows[1..], id)
  }

  predicate HasId<T>(rows: seq<Row<T>>, id: string) {
    exists i :: 0 <= i < |rows| && rows[i].id == id
  }

  predicate Unique<T>(rows: seq<Row<T>>) {
    forall i, j :: 0 <= i < j < |rows| ==> rows[i].id != rows[j].id
  }

  lemma {:induction false} WithoutAre<T>(rows: seq<Row<T>>, id: string)
    ensures forall r :: r in Without(rows, id) <==> r in rows && r.id != id
    ensures forall i :: 0 <= i < |Without(rows, id)| ==> Without(rows, id)[i] in rows && Without(rows, id)[i].id != id
  {
    if rows != [] {
      WithoutAre(rows[1..], id);
    }
  }

  lemma {:induction false} WithoutUnique<T>(rows: seq<Row<T>>, id: string)
    requires Unique(rows)
    ensures Unique(Without(rows, id))
  {
    if rows != [] {
      WithoutUnique(rows[1..], id);
      WithoutAre(rows[1..], id);
      var rest := Without(rows[1..], id);
      forall j | 0 <= j < |rest| ensures rest[j].id != rows[0].id {
        var r := rest[j];
        var k :| 0 <= k < |rows[1..]| && rows[1..][k] == r;
        assert rows[k + 1] == r;
      }
    }
  }

  lemma WithoutIds<T>(rows: seq<Row<T>>, id: string)
    ensures forall other :: HasId(Without(rows, id), other) <==> other != id && HasId(rows, other)
  {
    WithoutAre(rows, id);
    var less := Without(rows, id);
    forall other ensures HasId(less, other) <==> other != id && HasId(rows, other) {
      if HasId(less, other) {
        var i :| 0 <= i < |less| && less[i].id == other;
        assert less[i] in less;
        assert less[i] in rows;
      }
      if other != id && HasId(rows, other) {
        var i :| 0 <= i < |rows| && rows[i].id == other;
        assert rows[i] in less;
      }
    }
  }

  lemma SnocIds<T>(rows: seq<Row<T>>, row: Row<T>)
    ensures forall id :: HasId(rows + [row], id) <==> id == row.id || HasId(rows, id)
    ensures Unique(rows) && !HasId(rows, row.id) ==> Unique(rows + [row])
  {
    var more := rows + [row];
    forall id ensures HasId(more, id) <==> id == row.id || HasId(rows, id) {
      if HasId(rows, id) {
        var i :| 0 <= i < |rows| && rows[i].id == id;
        assert more[i].id == id;
      }
      assert more[|rows|].id == row.id;
      if HasId(more, id) && id != row.id {
        var i :| 0 <= i < |more| && more[i].id == id;
        assert rows[i].id == id;
      }
    }
  }

  // ----- the marker ----------------------------------------------------------------------------------

  function Tally(outcomes: seq<Outcome>, d: Disposition): nat {
    if outcomes == [] then 0 else (if outcomes[0].info.disposition == d then 1 else 0) + Tally(outcomes[1..], d)
  }

  /** `_recompute_counts`. */
  function CountsOf(outcomes: seq<Outcome>): Counts {
    Counts(|outcomes|, Tally(outcomes, Requeued), Tally(outcomes, Parked), Tally(outcomes, Failed),
           Tally(outcomes, AlreadyHandled), Tally(outcomes, WriterLive))
  }

  function Recomputed(m: Marker): Marker {
    m.(counts := CountsOf(m.outcomes))
  }

  /** The `unresolved` entries are those of the outcomes that leave their session unresolved. */
  predicate UnresolvedMatches(unresolved: seq<Unresolved>, outcomes: seq<Outcome>) {
    && (forall u :: u in unresolved ==> exists o :: o in outcomes && Matching(u, o))
    && (forall o :: o in outcomes && LeavesUnresolved(o.info.disposition) ==> HasId(unresolved, o.id))
  }

  predicate Matching(u: Unresolved, o: Outcome) {
    && u.id == o.id && LeavesUnresolved(o.info.disposition)
    && u.info.client == o.info.client && u.info.ticket == o.info.ticket
  }

  predicate Disjoint(pending: seq<Pending>, outcomes: seq<Outcome>) {
    forall i :: 0 <= i < |pending| ==> !HasId(outcomes, pending[i].id)
  }

  lemma DisjointIds(pending: seq<Pending>, outcomes: seq<Outcome>)
    ensures Disjoint(pending, outcomes) <==> forall id :: !(HasId(pending, id) && HasId(outcomes, id))
  {
    forall i | 0 <= i < |pending| ensures HasId(pending, pending[i].id) {
    }
  }

  /** `validate_consistency` passes. */
  predicate Consistent(m: Marker) {
    && m.counts == CountsOf(m.outcomes)
    && Unique(m.outcomes) && Unique(m.pending) && Unique(m.unresolved)
    && Disjoint(m.pending, m.outcomes)
    && UnresolvedMatches(m.unresolved, m.outcomes)
    && (forall i, j :: 0 <= i < j < |m.covered| ==> m.covered[i] != m.covered[j])
    && (m.completed ==> m.unresolved == [] && m.pending == [])
  }

  /** The unresolved entry of an outcome; no reason ("") is filled by the disposition's own name. */
  function Entry(o: Outcome, reason: string): Unresolved {
    var why :=
      if reason != "" then reason else if o.info.disposition == Failed then "failed" else "skipped_writer_live";
    Row(o.id, UnresolvedInfo(o.info.client, o.info.ticket, why))
  }

  /** The marker `_record_outcome` writes: the latest outcome wins, its intent is dropped. */
  function WithOutcome(m: Marker, o: Outcome, reason: string): Marker {
    var u := Entry(o, reason);
    Recomputed(m.(outcomes := Without(m.outcomes, o.id) + [o],
                  unresolved := Without(m.unresolved, o.id)
                                + (if LeavesUnresolved(o.info.disposition) then [u] else []),
                  pending := Without(m.pending, o.id)))
  }

  /** The marker `_record_pending` writes: an intent replaces what was known of the session. */
  function WithPending(m: Marker, p: Pending): Marker {
    Recomputed(m.(outcomes := Without(m.outcomes, p.id), unresolved := Without(m.unresolved, p.id),
                  pending := Without(m.pending, p.id) + [p]))
  }

  lemma UnresolvedDropped(unresolved: seq<Unresolved>, outcomes: seq<Outcome>, id: string)
    requires UnresolvedMatches(unresolved, outcomes)
    ensures UnresolvedMatches(Without(unresolved, id), Without(outcomes, id))
  {
    WithoutAre(unresolved, id);
    WithoutAre(outcomes, id);
    WithoutIds(unresolved, id);
    var us, os := Without(unresolved, id), Without(outcomes, id);
    forall u | u in us ensures exists o :: o in os && Matching(u, o) {
      assert u in unresolved;
      var o :| o in outcomes && Matching(u, o);
      assert o in os;
    }
  }

  lemma UnresolvedAdded(unresolved: seq<Unresolved>, outcomes: seq<Outcome>, o: Outcome, reason: string)
    requires UnresolvedMatches(unresolved, outcomes)
    ensures UnresolvedMatches(unresolved + (if LeavesUnresolved(o.info.disposition) then [Entry(o, reason)] else []),
                              outcomes + [o])
  {
    var u := Entry(o, reason);
    var us := unresolved + (if LeavesUnresolved(o.info.disposition) then [u] else []);
    SnocIds(unresolved, u);
    assert unresolved + [] == unresolved;
    forall x | x in outcomes + [o] && LeavesUnresolved(x.info.disposition) ensures HasId(us, x.id) {
      assert x in outcomes || x == o;
    }
    forall v | v in us ensures exists x :: x in outcomes + [o] && Matching(v, x) {
      if v in unresolved {
        var x :| x in outcomes && Matching(v, x);
        assert x in outcomes + [o];
      } else {
        assert v == u && o in outcomes + [o] && Matching(u, o);
      }
    }
  }

  /** Recording an outcome keeps an open marker consistent, so its save is never refused. */
  lemma OutcomeConsistent(m: Marker, o: Outcome, reason: string)
    requires Consistent(m) && !m.completed
    ensures Consistent(WithOutcome(m, o, reason))
    ensures forall id :: HasId(WithOutcome(m, o, reason).outcomes, id) <==> id == o.id || HasId(m.outcomes, id)
    ensures forall id :: HasId(WithOutcome(m, o, reason).pending, id) <==> id != o.id && HasId(m.pending, id)
  {
    hide UnresolvedMatches, Unique, HasId, Without, CountsOf, Disjoint;
    DisjointIds(m.pending, m.outcomes);
    DisjointIds(WithOutcome(m, o, reason).pending, WithOutcome(m, o, reason).outcomes);
    var u := Entry(o, reason);
    WithoutUnique(m.outcomes, o.id);
    WithoutUnique(m.pending, o.id);
    WithoutUnique(m.unresolved, o.id);
    WithoutIds(m.outcomes, o.id);
    WithoutIds(m.pending, o.id);
    WithoutIds(m.unresolved, o.id);
    SnocIds(Without(m.outcomes, o.id), o);
    SnocIds(Without(m.unresolved, o.id), u);
    UnresolvedDropped(m.unresolved, m.outcomes, o.id);
    UnresolvedAdded(Without(m.unresolved, o.id), Without(m.outcomes, o.id), o, reason);
    assert Without(m.unresolved, o.id) + [] == Without(m.unresolved, o.id);
  }

  /** So does recording an intent. */
  lemma PendingConsistent(m: Marker, p: Pending)
    requires Consistent(m) && !m.completed
    ensures Consistent(WithPending(m, p))
    ensures forall id :: HasId(WithPending(m, p).pending, id) <==> id == p.id || HasId(m.pending, id)
    ensures forall id :: HasId(WithPending(m, p).outcomes, id) <==> id != p.id && HasId(m.outcomes, id)
  {
    hide UnresolvedMatches, Unique, HasId, Without, CountsOf, Disjoint;
    DisjointIds(m.pending, m.outcomes);
    DisjointIds(WithPending(m, p).pending, WithPending(m, p).outcomes);
    WithoutUnique(m.outcomes, p.id);
    WithoutUnique(m.pending, p.id);
    WithoutUnique(m.unresolved, p.id);
    WithoutIds(m.outcomes, p.id);
    WithoutIds(m.pending, p.id);
    SnocIds(Without(m.pending, p.id), p);
    UnresolvedDropped(m.unresolved, m.outcomes, p.id);
  }

  // ----- what exactly is recorded ------------------------------------------------------------------------

  ghost predicate IsOther<T>(row: Row<T>, id: string) {
    row.id != id
  }

  ghost function Others<T(!new)>(id: string): iset<Row<T>> {
    iset row: Row<T> | IsOther(row, id)
  }

  lemma {:induction false} WithoutKeeps<T(!new)>(rows: seq<Row<T>>, id: string)
    ensures Without(rows, id) == Keep(rows, Others(id))
    decreases |rows|
  {
    if rows != [] {
      WithoutKeeps(rows[1..], id);
    }
  }

  /** The number of outcomes with a disposition. */
  ghost function Number(outcomes: seq<Outcome>, d: Disposition): nat {
    |Having(outcomes, d)|
  }

  ghost function Having(outcomes: seq<Outcome>, d: Disposition): set<nat> {
    set i: nat | i < |outcomes| && outcomes[i].info.disposition == d
  }

  lemma {:induction false} TallySnoc(outcomes: seq<Outcome>, o: Outcome, d: Disposition)
    ensures Tally(outcomes + [o], d) == Tally(outcomes, d) + (if o.info.disposition == d then 1 else 0)
    decreases |outcomes|
  {
    if outcomes == [] {
      assert outcomes + [o] == [o] && [o][1..] == [];
    } else {
      assert (outcomes + [o])[1..] == outcomes[1..] + [o];
      TallySnoc(outcomes[1..], o, d);
    }
  }

  lemma {:induction false} TallyNumbers(outcomes: seq<Outcome>, d: Disposition)
    ensures Tally(outcomes, d) == Number(outcomes, d)
    decreases |outcomes|
  {
    if outcomes == [] {
      assert Having(outcomes, d) == {};
    } else {
      var n := |outcomes| - 1;
      var less := outcomes[..n];
      assert outcomes == less + [outcomes[n]];
      TallySnoc(less, outcomes[n], d);
      TallyNumbers(less, d);
      if outcomes[n].info.disposition == d {
        assert Having(outcomes, d) == Having(less, d) + {n};
      } else {
        assert Having(outcomes, d) == Having(less, d);
      }
    }
  }

  /** The counts of a marker are the numbers of its outcomes. */
  ghost predicate Counted(m: Marker) {
    && m.counts.scanned == |m.outcomes|
    && m.counts.requeued == Number(m.outcomes, Requeued) && m.counts.parked == Number(m.outcomes, Parked)
    && m.counts.failed == Number(m.outcomes, Failed) && m.counts.writerLive == Number(m.outcomes, WriterLive)
    && m.counts.alreadyHandled == Number(m.outcomes, AlreadyHandled)
  }

  lemma CountsAreNumbers(outcomes: seq<Outcome>, m: Marker)
    requires m.outcomes == outcomes && m.counts == CountsOf(outcomes)
    ensures Counted(m)
  {
    hide Number, Tally;
    TallyNumbers(outcomes, Requeued);
    TallyNumbers(outcomes, Parked);
    TallyNumbers(outcomes, Failed);
    TallyNumbers(outcomes, WriterLive);
    TallyNumbers(outcomes, AlreadyHandled);
  }

  /** After a record the given outcome is the last one and the only one of its session; every other outcome,
      unresolved entry and intent is as before and in order; the session is unresolved exactly when the
      outcome failed or found a live writer, with the given client, ticket and reason. */
  lemma OutcomeExactly(m: Marker, o: Outcome, reason: string)
    ensures var r := WithOutcome(m, o, reason);
            && r.outcomes == Keep(m.outcomes, Others(o.id)) + [o]
            && r.pending == Keep(m.pending, Others(o.id))
            && r.unresolved == Keep(m.unresolved, Others(o.id))
                + (if o.info.disposition == Failed then
                     [Row(o.id, UnresolvedInfo(o.info.client, o.info.ticket,
                                               if reason == "" then "failed" else reason))]
                   else if o.info.disposition == WriterLive then
                     [Row(o.id, UnresolvedInfo(o.info.client, o.info.ticket,
                                               if reason == "" then "skipped_writer_live" else reason))]
                   else [])
            && Counted(r) && r.covered == m.covered && r.completed == m.completed
  {
    hide Without, Keep, CountsOf, Counted;
    WithoutKeeps(m.outcomes, o.id);
    WithoutKeeps(m.pending, o.id);
    WithoutKeeps(m.unresolved, o.id);
    CountsAreNumbers(WithOutcome(m, o, reason).outcomes, WithOutcome(m, o, reason));
  }

  /** After an intent it is the last one, and all else known of the session is dropped. */
  lemma PendingExactly(m: Marker, p: Pending)
    ensures var r := WithPending(m, p);
            && r.pending == Keep(m.pending, Others(p.id)) + [p]
            && r.outcomes == Keep(m.outcomes, Others(p.id)) && r.unresolved == Keep(m.unresolved, Others(p.id))
            && Counted(r) && r.covered == m.covered && r.completed == m.completed
  {
    hide Without, Keep, CountsOf, Counted;
    WithoutKeeps(m.outcomes, p.id);
    WithoutKeeps(m.pending, p.id);
    WithoutKeeps(m.unresolved, p.id);
    CountsAreNumbers(WithPending(m, p).outcomes, WithPending(m, p));
  }

  /** The five buckets add up to the number of sessions scanned. */
  lemma {:induction false} CountsAddUp(outcomes: seq<Outcome>)
    ensures var c := CountsOf(outcomes); c.scanned == c.requeued + c.parked + c.failed + c.alreadyHandled + c.writerLive
  {
    if outcomes != [] {
      CountsAddUp(outcomes[1..]);
    }
  }

  /** The marker knows the session, as an intent or by an outcome. */
  ghost predicate Recorded(m: Marker, id: string) {
    HasId(m.pending, id) || HasId(m.outcomes, id)
  }

  // ----- the marker in memory and on disk ---------------------------------------------------------------

  /** How an atomic write may fail: before or after the file is replaced. */
  datatype Fault = NoFault | BeforeReplace | AfterReplace

  datatype SaveResult = Saved | IoError | Refused

  /** `_finalize` before its save: cover the client, and complete when nothing is left. */
  function Finalized(m: Marker, scope: Option<string>, discovered: set<string>): Marker {
    var covered :=
      if scope.Some? && scope.value !in m.covered
         && (forall i :: 0 <= i < |m.unresolved| ==> m.unresolved[i].info.client != scope.value)
      then m.covered + [scope.value] else m.covered;
    m.(covered := covered,
       completed := m.completed || (m.unresolved == [] && forall c :: c in discovered ==> c in covered))
  }

  class MarkerStore {
    var marker: Marker
    var disk: Option<Marker>

    constructor (saved: Option<Marker>)
      ensures disk == saved && marker == if saved.Some? then saved.value else EMPTY
    {
      disk, marker := saved, if saved.Some? then saved.value else EMPTY;
    }

    /** `save_codex_legacy_marker`: recompute, validate, replace. */
    method Save(fault: Fault) returns (r: SaveResult)
      modifies this
      ensures marker == Recomputed(old(marker))
      ensures r == Refused <==> !Consistent(marker)
      ensures r == Saved <==> Consistent(marker) && fault == NoFault
      ensures disk == if Consistent(marker) && fault != BeforeReplace then Some(marker) else old(disk)
    {
      marker := Recomputed(marker);
      if !Consistent(marker) {
        return Refused;
      }
      if fault != BeforeReplace {
        disk := Some(marker);
      }
      return if fault == NoFault then Saved else IoError;
    }

    /** `_record_outcome`: on a failed write memory goes back to what it was. */
    method RecordOutcome(o: Outcome, reason: string, fault: Fault) returns (r: SaveResult)
      requires Consistent(marker) && !marker.completed
      modifies this
      ensures r != Refused
      ensures r == Saved ==> marker == WithOutcome(old(marker), o, reason) && disk == Some(marker)
      ensures r == Saved ==>
                marker.outcomes == Keep(old(marker).outcomes, Others(o.id)) + [o]
                && marker.pending == Keep(old(marker).pending, Others(o.id)) && Counted(marker)
      ensures r == IoError ==>
                marker == old(marker) && (disk == old(disk) || disk == Some(WithOutcome(old(marker), o, reason)))
      ensures Consistent(marker)
    {
      hide Consistent, CountsOf, Without;
      var before := marker;
      assert before == Recomputed(before) by { ConsistentCounts(before); }
      OutcomeConsistent(marker, o, reason);
      OutcomeExactly(marker, o, reason);
      hide Keep, Counted, WithOutcome;
      marker := WithOutcome(marker, o, reason);
      r := Save(fault);
      if r == IoError {
        marker := Recomputed(before);
      }
    }

    /** `_record_pending`. */
    method RecordPending(p: Pending, fault: Fault) returns (r: SaveResult)
      requires Consistent(marker) && !marker.completed
      modifies this
      ensures r != Refused
      ensures r == Saved ==> marker == WithPending(old(marker), p) && disk == Some(marker)
      ensures r == Saved ==>
                marker.pending == Keep(old(marker).pending, Others(p.id)) + [p]
                && marker.outcomes == Keep(old(marker).outcomes, Others(p.id)) && Counted(marker)
      ensures r == IoError ==> marker == old(marker) && (disk == old(disk) || disk == Some(WithPending(old(marker), p)))
      ensures Consistent(marker)
    {
      hide Consistent, CountsOf, Without;
      var before := marker;
      assert before == Recomputed(before) by { ConsistentCounts(before); }
      PendingConsistent(marker, p);
      PendingExactly(marker, p);
      hide Keep, Counted, WithPending;
      marker := WithPending(marker, p);
      r := Save(fault);
      if r == IoError {
        marker := Recomputed(before);
      }
    }

    /** `_reconcile_pending`: each intent is kept or turned into an outcome, as `verdicts` says. The
        first failed write ends the pass after `done` intents; the disk is then as it was, as memory
        is, or one outcome ahead of memory. No session is lost from memory or disk. */
    method ReconcilePending(verdicts: Verdicts, faults: seq<Fault>)
      returns (r: SaveResult, done: nat)
      requires Consistent(marker) && !marker.completed && |faults| == |marker.pending|
      modifies this
      ensures Consistent(marker) && !marker.completed && r != Refused
      ensures done <= |old(marker).pending| && (r == Saved ==> done == |old(marker).pending|)
      ensures marker == Reconciled(old(marker), old(marker).pending[..done], verdicts)
      ensures disk == old(disk) || disk == Some(marker) ||
              (r == IoError && done < |old(marker).pending|
               && disk == Some(Settled(marker, old(marker).pending[done], verdicts)))
      ensures forall id :: Recorded(old(marker), id) ==> Recorded(marker, id)
      ensures disk != old(disk) ==> disk.Some? && forall id :: Recorded(old(marker), id) ==> Recorded(disk.value, id)
    {
      hide Consistent, CountsOf, Without, Recorded, Keep, Counted, WithOutcome, Reconciled;
      var todo := marker.pending;
      ghost var start := marker;
      assert Reconciled(start, [], verdicts) == start by { ReconciledNone(start, verdicts); }
      r, done := Saved, 0;
      assert todo[..0] == [];
      while done < |todo|
        invariant done <= |todo| && Consistent(marker) && !marker.completed && r == Saved
        invariant marker == Reconciled(start, todo[..done], verdicts)
        invariant disk == old(disk) || disk == Some(marker)
        invariant forall id :: Recorded(start, id) ==> Recorded(marker, id)
      {
        var p := todo[done];
        assert todo[..done + 1] == todo[..done] + [p];
        ReconciledSnoc(start, todo[..done], p, verdicts);
        if p.id in verdicts {
          var (disposition, reason) := verdicts[p.id];
          var o := Row(p.id, OutcomeInfo(p.info.client, p.info.ticket, disposition));
          SettledRecords(marker, p, verdicts);
          OutcomeKeepsOpen(marker, o, reason);
          r := RecordOutcome(o, reason, faults[done]);
          if r != Saved {
            return;
          }
        }
        done := done + 1;
      }
      assert todo[..done] == todo;
    }
  }

  lemma ConsistentCounts(m: Marker)
    requires Consistent(m)
    ensures m == Recomputed(m)
  {
  }

  /** What reconciliation decides of an intent: a disposition and a reason, or nothing. */
  type Verdicts = map<string, (Disposition, string)>

  /** One intent, kept or settled. */
  function Settled(m: Marker, p: Pending, verdicts: Verdicts): Marker {
    if p.id in verdicts
    then WithOutcome(m, Row(p.id, OutcomeInfo(p.info.client, p.info.ticket, verdicts[p.id].0)), verdicts[p.id].1)
    else m
  }

  function Reconciled(m: Marker, todo: seq<Pending>, verdicts: Verdicts): Marker
    decreases |todo|
  {
    if todo == [] then m else Reconciled(Settled(m, todo[0], verdicts), todo[1..], verdicts)
  }

  lemma {:induction false} ReconciledSnoc(m: Marker, todo: seq<Pending>, p: Pending, verdicts: Verdicts)
    ensures Reconciled(m, todo + [p], verdicts) == Settled(Reconciled(m, todo, verdicts), p, verdicts)
    decreases |todo|
  {
    hide Settled;
    if todo == [] {
      assert todo + [p] == [p] && [p][1..] == [];
      assert Reconciled(Settled(m, p, verdicts), [], verdicts) == Settled(m, p, verdicts);
    } else {
      assert (todo + [p])[1..] == todo[1..] + [p] && (todo + [p])[0] == todo[0];
      ReconciledSnoc(Settled(m, todo[0], verdicts), todo[1..], p, verdicts);
    }
  }

  lemma ReconciledNone(m: Marker, verdicts: Verdicts)
    ensures Reconciled(m, [], verdicts) == m
  {
  }

  lemma SettledRecords(m: Marker, p: Pending, verdicts: Verdicts)
    requires Consistent(m) && !m.completed
    ensures forall id :: Recorded(m, id) ==> Recorded(Settled(m, p, verdicts), id)
  {
    hide Consistent, WithOutcome, HasId;
    if p.id in verdicts {
      var o := Row(p.id, OutcomeInfo(p.info.client, p.info.ticket, verdicts[p.id].0));
      OutcomeConsistent(m, o, verdicts[p.id].1);
    }
  }

  /** Reconciliation loses no session: what is kept stays pending, the rest becomes an outcome. */
  lemma {:induction false} ReconcileLosesNothing(m: Marker, todo: seq<Pending>, verdicts: Verdicts, id: string)
    requires Consistent(m) && !m.completed
    ensures var r := Reconciled(m, todo, verdicts);
            && Consistent(r) && !r.completed
            && (HasId(r.pending, id) <==> HasId(m.pending, id) && !(HasId(todo, id) && id in verdicts))
            && (HasId(r.outcomes, id) <==> HasId(m.outcomes, id) || (HasId(todo, id) && id in verdicts))
    decreases |todo|
  {
    hide Consistent, WithOutcome;
    if todo != [] {
      var p := todo[0];
      assert HasId(todo, id) <==> p.id == id || HasId(todo[1..], id) by { ConsId(todo, id); }
      if p.id in verdicts {
        var o := Row(p.id, OutcomeInfo(p.info.client, p.info.ticket, verdicts[p.id].0));
        OutcomeConsistent(m, o, verdicts[p.id].1);
        assert !WithOutcome(m, o, verdicts[p.id].1).completed by { OutcomeKeepsOpen(m, o, verdicts[p.id].1); }
        ReconcileLosesNothing(WithOutcome(m, o, verdicts[p.id].1), todo[1..], verdicts, id);
      } else {
        ReconcileLosesNothing(m, todo[1..], verdicts, id);
      }
    }
  }

  /** The outcome an intent settles to. */
  ghost predicate SettlesTo(p: Pending, verdicts: Verdicts, o: Outcome) {
    && p.id in verdicts && o.id == p.id && o.info.client == p.info.client && o.info.ticket == p.info.ticket
    && o.info.disposition == verdicts[p.id].0
  }

  /** Each decided intent becomes the outcome with its client, ticket and decided disposition; the others
      stay intents, and no other outcome changes. */
  lemma {:induction false} ReconciledRows(m: Marker, todo: seq<Pending>, verdicts: Verdicts, o: Outcome, q: Pending)
    requires Unique(todo)
    ensures var r := Reconciled(m, todo, verdicts);
            && (o in r.outcomes <==>
                  if HasId(todo, o.id) && o.id in verdicts then exists p :: p in todo && SettlesTo(p, verdicts, o)
                  else o in m.outcomes)
            && (q in r.pending <==> q in m.pending && !(HasId(todo, q.id) && q.id in verdicts))
    decreases |todo|
  {
    hide WithOutcome;
    if todo != [] {
      var p, rest := todo[0], todo[1..];
      var next := Settled(m, p, verdicts);
      ReconciledRows(next, rest, verdicts, o, q);
      ConsId(todo, o.id);
      ConsId(todo, q.id);
      assert !HasId(rest, p.id);
      if p.id in verdicts {
        RowsAfterOutcome(m, Row(p.id, OutcomeInfo(p.info.client, p.info.ticket, verdicts[p.id].0)), verdicts[p.id].1);
      }
      if HasId(rest, o.id) && o.id in verdicts {
        SettlesInRest(todo, verdicts, o);
      } else if o.id == p.id && o.id in verdicts {
        SettlesFirst(todo, verdicts, o);
      }
    }
  }

  lemma SettlesInRest(todo: seq<Pending>, verdicts: Verdicts, o: Outcome)
    requires todo != [] && Unique(todo) && HasId(todo[1..], o.id)
    ensures (exists p :: p in todo && SettlesTo(p, verdicts, o))
       <==> exists p :: p in todo[1..] && SettlesTo(p, verdicts, o)
  {
    assert todo[0].id != o.id by {
      var i :| 0 <= i < |todo[1..]| && todo[1..][i].id == o.id;
      assert todo[i + 1].id == o.id;
    }
    if p :| p in todo && SettlesTo(p, verdicts, o) {
      assert p in todo[1..];
    }
  }

  lemma SettlesFirst(todo: seq<Pending>, verdicts: Verdicts, o: Outcome)
    requires todo != [] && Unique(todo) && todo[0].id == o.id
    ensures (exists p :: p in todo && SettlesTo(p, verdicts, o)) <==> SettlesTo(todo[0], verdicts, o)
  {
    if p :| p in todo && SettlesTo(p, verdicts, o) {
      assert p == todo[0];
    }
  }

  lemma OutcomeKeepsOpen(m: Marker, o: Outcome, reason: string)
    ensures WithOutcome(m, o, reason).completed == m.completed
  {
  }

  lemma ConsId<T>(rows: seq<Row<T>>, id: string)
    requires rows != []
    ensures HasId(rows, id) <==> rows[0].id == id || HasId(rows[1..], id)
  {
    if HasId(rows[1..], id) {
      var i :| 0 <= i < |rows[1..]| && rows[1..][i].id == id;
      assert rows[i + 1].id == id;
    }
    if HasId(rows, id) && rows[0].id != id {
      var i :| 0 <= i < |rows| && rows[i].id == id;
      assert rows[1..][i - 1].id == id;
    }
  }

  /** What `_finalize` covers, when it completes, and when its own save refuses. The client is covered when
      nothing of it is unresolved; the save refuses an intent left over while nothing is unresolved and
      every client is covered. */
  lemma FinalizeExact(m: Marker, scope: Option<string>, discovered: set<string>)
    requires Consistent(m) && !m.completed
    ensures var f := Finalized(m, scope, discovered);
            && (!Consistent(Recomputed(f)) <==> f.completed && m.pending != [])
            && (f.completed <==> m.unresolved == [] && forall c :: c in discovered ==> c in f.covered)
            && m.covered <= f.covered && |f.covered| <= |m.covered| + 1
            && (forall c :: c in f.covered <==>
                  c in m.covered || (scope == Some(c) && forall u :: u in m.unresolved ==> u.info.client != c))
            && f.outcomes == m.outcomes && f.pending == m.pending && f.unresolved == m.unresolved
            && f.counts == m.counts
  {
    hide UnresolvedMatches, Unique, HasId, CountsOf, Disjoint;
    forall i | 0 <= i < |m.unresolved| ensures m.unresolved[i] in m.unresolved {
    }
  }

  // ----- runs with crashes ---------------------------------------------------------------------------------

  /** Between candidates, or past the durable intent for one. */
  datatype Process = Off | Open(marker: Marker) | Intent(marker: Marker, id: string)

  /** `mutated` collects the sessions the recovery has ever acted on. */
  datatype World = World(disk: Option<Marker>, process: Process, mutated: set<string>)

  datatype Step =
    | Begin(fault: Fault)
    | NotePending(p: Pending, fault: Fault)
    | Act
    | NoteOutcome(o: Outcome, reason: string, fault: Fault)
    | Finish(scope: Option<string>, discovered: set<string>, fault: Fault)
    | Crash

  ghost function Loaded(w: World): Marker {
    if w.disk.Some? then w.disk.value else EMPTY
  }

  ghost predicate CanStep(w: World, s: Step) {
    match s
    case Begin(_) => w.process.Off? && !Loaded(w).completed
    case NotePending(_, _) => w.process.Open?
    case Act => w.process.Intent?
    case NoteOutcome(o, _, _) => w.process.Open? || (w.process.Intent? && o.id == w.process.id)
    case Finish(_, _, _) => w.process.Open?
    case Crash => true
  }

  /** A save of `m`: what is on disk afterwards, and where the process goes when it succeeded. A failed
      or refused save ends the run. */
  ghost function Write(w: World, m: Marker, fault: Fault, next: Process): World {
    var disk := if Consistent(m) && fault != BeforeReplace then Some(m) else w.disk;
    w.(disk := disk, process := if Consistent(m) && fault == NoFault then next else Off)
  }

  ghost function After(w: World, s: Step): World
    requires CanStep(w, s)
  {
    match s
    case Begin(fault) => Write(w, Recomputed(Loaded(w)), fault, Open(Loaded(w)))
    case NotePending(p, fault) =>
      var m := WithPending(w.process.marker, p);
      Write(w, m, fault, Intent(m, p.id))
    case Act => w.(mutated := w.mutated + {w.process.id})
    case NoteOutcome(o, reason, fault) =>
      var m := WithOutcome(w.process.marker, o, reason);
      Write(w, m, fault, Open(m))
    case Finish(scope, discovered, fault) =>
      Write(w, Recomputed(Finalized(w.process.marker, scope, discovered)), fault, Off)
    case Crash => w.(process := Off)
  }

  ghost predicate Inv(w: World) {
    && Consistent(Loaded(w))
    && (forall id :: id in w.mutated ==> Recorded(Loaded(w), id))
    && (!w.process.Off? ==> w.disk == Some(w.process.marker) && !w.process.marker.completed)
    && (w.process.Intent? ==> HasId(w.process.marker.pending, w.process.id))
  }

  lemma EmptyConsistent()
    ensures Consistent(EMPTY)
  {
  }

  /** A save of a marker that records what is recorded already keeps the invariant. */
  lemma WriteInv(w: World, m: Marker, fault: Fault, next: Process)
    requires Inv(w) && (forall id :: Recorded(Loaded(w), id) ==> Recorded(m, id))
    requires next.Off? || (next.marker == m && !m.completed && (next.Intent? ==> HasId(m.pending, next.id)))
    ensures Inv(Write(w, m, fault, next))
  {
    hide Consistent, Recorded, HasId;
  }

  lemma StepInv(w: World, s: Step)
    requires Inv(w) && CanStep(w, s)
    ensures Inv(After(w, s))
  {
    hide Consistent, HasId, CountsOf, Without;
    match s
    case Begin(fault) =>
      ConsistentCounts(Loaded(w));
      WriteInv(w, Loaded(w), fault, Open(Loaded(w)));
    case NotePending(p, fault) =>
      var m := WithPending(w.process.marker, p);
      PendingConsistent(w.process.marker, p);
      WriteInv(w, m, fault, Intent(m, p.id));
    case Act =>
    case NoteOutcome(o, reason, fault) =>
      var m := WithOutcome(w.process.marker, o, reason);
      OutcomeConsistent(w.process.marker, o, reason);
      WriteInv(w, m, fault, Open(m));
    case Finish(scope, discovered, fault) =>
      WriteInv(w, Recomputed(Finalized(w.process.marker, scope, discovered)), fault, Off);
    case Crash =>
  }

  ghost predicate Initial(w: World) {
    w.disk.None? && w.process.Off? && w.mutated == {}
  }

  ghost predicate Next(w: World, s: Step, w': World) {
    CanStep(w, s) && w' == After(w, s)
  }

  ghost predicate Run(worlds: seq<World>, steps: seq<Step>) {
    && |worlds| == |steps| + 1 && Initial(worlds[0])
    && forall i :: 0 <= i < |steps| ==> Next(worlds[i], steps[i], worlds[i + 1])
  }

  lemma {:induction false} RunInv(worlds: seq<World>, steps: seq<Step>, i: nat)
    requires Run(worlds, steps) && i < |worlds|
    ensures Inv(worlds[i])
    decreases i
  {
    hide CanStep, After, Consistent;
    if i == 0 {
      EmptyConsistent();
    } else {
      RunInv(worlds, steps, i - 1);
      assert Next(worlds[i - 1], steps[i - 1], worlds[i - 1 + 1]);
      StepInv(worlds[i - 1], steps[i - 1]);
    }
  }

  /** Write-ahead recovery: after any run with crashes and failed saves the marker on disk loads, and
      every session the recovery has mutated is in it as exactly one of pending or outcome. */
  lemma MutatedIsRecorded(worlds: seq<World>, steps: seq<Step>, i: nat, id: string)
    requires Run(worlds, steps) && i < |worlds| && id in worlds[i].mutated
    ensures worlds[i].disk.Some? && Consistent(worlds[i].disk.value)
    ensures var m := worlds[i].disk.value; HasId(m.pending, id) <==> !HasId(m.outcomes, id)
  {
    hide Run;
    RunInv(worlds, steps, i);
    var m := Loaded(worlds[i]);
    assert Recorded(m, id);
    DisjointIds(m.pending, m.outcomes);
  }

  // ----- the last word on a session ----------------------------------------------------------------------------

  /** The step wrote about the session, to the disk. */
  ghost predicate Wrote(s: Step, id: string) {
    match s
    case NoteOutcome(o, _, fault) => o.id == id && fault != BeforeReplace
    case NotePending(p, fault) => p.id == id && fault != BeforeReplace
    case _ => false
  }

  lemma RowsAfterOutcome(m: Marker, o: Outcome, reason: string)
    ensures forall r :: r in WithOutcome(m, o, reason).outcomes <==> r == o || (r in m.outcomes && r.id != o.id)
    ensures forall p :: p in WithOutcome(m, o, reason).pending <==> p in m.pending && p.id != o.id
  {
    hide Without, CountsOf;
    WithoutAre(m.outcomes, o.id);
    WithoutAre(m.pending, o.id);
  }

  lemma RowsAfterPending(m: Marker, p: Pending)
    ensures forall r :: r in WithPending(m, p).outcomes <==> r in m.outcomes && r.id != p.id
    ensures forall q :: q in WithPending(m, p).pending <==> q == p || (q in m.pending && q.id != p.id)
  {
    hide Without, CountsOf;
    WithoutAre(m.outcomes, p.id);
    WithoutAre(m.pending, p.id);
  }

  /** What one step does to the rows on disk. */
  lemma StepRows(w: World, s: Step, o: Outcome, p: Pending)
    requires Inv(w) && CanStep(w, s)
    ensures var was, now := Loaded(w), Loaded(After(w, s));
            && (o in now.outcomes <==> if Wrote(s, o.id) then s.NoteOutcome? && s.o == o else o in was.outcomes)
            && (p in now.pending <==> if Wrote(s, p.id) then s.NotePending? && s.p == p else p in was.pending)
  {
    hide Consistent, HasId, CountsOf, WithOutcome, WithPending;
    match s
    case NoteOutcome(x, reason, fault) =>
      OutcomeConsistent(w.process.marker, x, reason);
      RowsAfterOutcome(w.process.marker, x, reason);
    case NotePending(x, fault) =>
      PendingConsistent(w.process.marker, x);
      RowsAfterPending(w.process.marker, x);
    case _ =>
  }

  /** No step from `lo` to `hi` wrote about the session. */
  ghost predicate Silent(steps: seq<Step>, lo: nat, hi: nat, id: string)
    requires hi <= |steps|
  {
    forall k :: lo <= k < hi ==> !Wrote(steps[k], id)
  }

  /** The last write about `id` before `i` was step `k`. */
  ghost predicate LastWord(steps: seq<Step>, k: nat, i: nat, id: string)
    requires i <= |steps|
  {
    k < i && Wrote(steps[k], id) && Silent(steps, k + 1, i, id)
  }

  lemma LastWordOn(steps: seq<Step>, k: nat, i: nat, id: string)
    requires 0 < i <= |steps|
    ensures LastWord(steps, k, i, id)
       <==> if Wrote(steps[i - 1], id) then k == i - 1 else LastWord(steps, k, i - 1, id)
  {
    hide Wrote;
    if k < i - 1 && Wrote(steps[i - 1], id) {
      assert !Silent(steps, k + 1, i, id);
    }
    if LastWord(steps, k, i - 1, id) && !Wrote(steps[i - 1], id) {
      assert Silent(steps, k + 1, i, id);
    }
    if LastWord(steps, k, i, id) && k < i - 1 {
      assert Silent(steps, k + 1, i - 1, id);
    }
  }

  /** Over every run, the outcome on disk for a session is that of the last write about it, and so is the
      intent; a write that failed behind the replace counts as one. */
  lemma {:induction false} DiskIsLastWord(worlds: seq<World>, steps: seq<Step>, i: nat, o: Outcome, p: Pending)
    requires Run(worlds, steps) && i < |worlds|
    ensures var m := Loaded(worlds[i]);
            && (o in m.outcomes <==>
                  exists k: nat :: LastWord(steps, k, i, o.id) && steps[k].NoteOutcome? && steps[k].o == o)
            && (p in m.pending <==>
                  exists k: nat :: LastWord(steps, k, i, p.id) && steps[k].NotePending? && steps[k].p == p)
    decreases i
  {
    hide CanStep, After, Consistent, LastWord, Inv, Wrote;
    if i == 0 {
      NoneYet(steps, o.id);
      NoneYet(steps, p.id);
    } else {
      DiskIsLastWord(worlds, steps, i - 1, o, p);
      RunInv(worlds, steps, i - 1);
      assert Next(worlds[i - 1], steps[i - 1], worlds[i - 1 + 1]);
      StepRows(worlds[i - 1], steps[i - 1], o, p);
      forall k: nat
        ensures LastWord(steps, k, i, o.id)
           <==> if Wrote(steps[i - 1], o.id) then k == i - 1 else LastWord(steps, k, i - 1, o.id)
        ensures LastWord(steps, k, i, p.id)
           <==> if Wrote(steps[i - 1], p.id) then k == i - 1 else LastWord(steps, k, i - 1, p.id)
      {
        LastWordOn(steps, k, i, o.id);
        LastWordOn(steps, k, i, p.id);
      }
    }
  }

  lemma NoneYet(steps: seq<Step>, id: string)
    ensures forall k: nat :: !LastWord(steps, k, 0, id)
  {
  }

  /** Over every run the marker on disk adds up: the counts are the numbers of its outcomes, each session
      has one outcome and one entry at most, a session is unresolved exactly when its outcome failed or
      found a live writer, with that outcome's client and ticket, and no client is covered twice. */
  lemma DiskAddsUp(worlds: seq<World>, steps: seq<Step>, i: nat)
    requires Run(worlds, steps) && i < |worlds|
    ensures var m := Loaded(worlds[i]);
            && Counted(m) && Distinct(m.covered)
            && (forall x, y :: 0 <= x < y < |m.outcomes| ==> m.outcomes[x].id != m.outcomes[y].id)
            && (forall x, y :: 0 <= x < y < |m.pending| ==> m.pending[x].id != m.pending[y].id)
            && (forall x, y :: 0 <= x < y < |m.unresolved| ==> m.unresolved[x].id != m.unresolved[y].id)
            && (forall u :: u in m.unresolved ==> exists o :: o in m.outcomes && LeftBy(o, u))
            && (forall o :: o in m.outcomes && (o.info.disposition == Failed || o.info.disposition == WriterLive) ==>
                  exists u :: u in m.unresolved && LeftBy(o, u))
  {
    hide Run, Counted, Number, CountsOf;
    RunInv(worlds, steps, i);
    var m := Loaded(worlds[i]);
    CountsAreNumbers(m.outcomes, m);
    forall u | u in m.unresolved ensures exists o :: o in m.outcomes && LeftBy(o, u) {
      var o :| o in m.outcomes && Matching(u, o);
      assert LeftBy(o, u);
    }
    forall o | o in m.outcomes && LeavesUnresolved(o.info.disposition)
      ensures exists u :: u in m.unresolved && LeftBy(o, u)
    {
      var k :| 0 <= k < |m.unresolved| && m.unresolved[k].id == o.id;
      var u := m.unresolved[k];
      assert u in m.unresolved;
      var x :| x in m.outcomes && Matching(u, x);
      assert x == o;
      assert LeftBy(o, u);
    }
  }

  ghost predicate LeftBy(o: Outcome, u: Unresolved) {
    && u.id == o.id && u.info.client == o.info.client && u.info.ticket == o.info.ticket
    && (o.info.disposition == Failed || o.info.disposition == WriterLive)
  }

  /** A completed marker has nothing unresolved and nothing pending: every mutated session has a final
      outcome. */
  lemma CompletionMeansDone(worlds: seq<World>, steps: seq<Step>, i: nat, id: string)
    requires Run(worlds, steps) && i < |worlds| && worlds[i].disk.Some? && worlds[i].disk.value.completed
    ensures var m := worlds[i].disk.value;
            && m.unresolved == [] && m.pending == []
            && (forall k :: 0 <= k < |m.outcomes| ==> !LeavesUnresolved(m.outcomes[k].info.disposition))
            && (id in worlds[i].mutated ==> HasId(m.outcomes, id))
  {
    hide Run;
    RunInv(worlds, steps, i);
    var m := worlds[i].disk.value;
    forall k | 0 <= k < |m.outcomes| ensures !LeavesUnresolved(m.outcomes[k].info.disposition) {
      assert m.outcomes[k] in m.outcomes;
    }
    if id in worlds[i].mutated {
      MutatedIsRecorded(worlds, steps, i, id);
    }
  }

  /** Once completed, no further step of any run changes the marker or touches a session. */
  lemma CompletionIsFinal(worlds: seq<World>, steps: seq<Step>, i: nat)
    requires Run(worlds, steps) && i < |steps| && worlds[i].disk.Some? && worlds[i].disk.value.completed
    ensures worlds[i + 1].disk == worlds[i].disk && worlds[i + 1].mutated == worlds[i].mutated
  {
    RunInv(worlds, steps, i);
    assert Next(worlds[i], steps[i], worlds[i + 1]);
    assert worlds[i].process.Off?;
  }

  // ----- an intent that blocks completion --------------------------------------------------------------------

  lemma Extend(worlds: seq<World>, steps: seq<Step>, w: World, s: Step, w': World)
    returns (worlds': seq<World>, steps': seq<Step>)
    requires Run(worlds, steps) && worlds[|steps|] == w && Next(w, s, w')
    ensures Run(worlds', steps') && worlds' == worlds + [w'] && steps' == steps + [s] && worlds'[|steps'|] == w'
  {
    hide Next;
    worlds', steps' := worlds + [w'], steps + [s];
    forall i | 0 <= i < |steps'| ensures Next(worlds'[i], steps'[i], worlds'[i + 1]) {
      if i < |steps| {
        assert Next(worlds[i], steps[i], worlds[i + 1]);
      }
    }
  }

  ghost function Covering(covered: seq<string>): Marker {
    EMPTY.(covered := covered)
  }

  lemma CoveringConsistent(covered: seq<string>, p: Pending)
    requires forall i, j :: 0 <= i < j < |covered| ==> covered[i] != covered[j]
    ensures Consistent(Covering(covered)) && Recomputed(Covering(covered)) == Covering(covered)
    ensures WithPending(Covering(covered), p) == Covering(covered).(pending := [p])
    ensures Consistent(Covering(covered).(pending := [p]))
  {
    assert [] + [p] == [p];
    assert !HasId(Covering(covered).outcomes, p.id);
  }

  /** Such a leftover happens: client A is covered, an intent for another session of A is written and the
      process dies, then B is covered. Nothing is unresolved, so that run completes the marker in memory,
      and its own save refuses; the next run for B ends the same way. */
  lemma StuckIntent(p: Pending) returns (worlds: seq<World>, steps: seq<Step>)
    requires p.info.client == "A"
    ensures Run(worlds, steps) && |steps| == 7
    ensures steps[6] == Finish(Some("B"), {"A", "B"}, NoFault) && worlds[6].process.Open?
    ensures var m := worlds[6].process.marker;
            m.unresolved == [] && m.pending == [p] && Finalized(m, Some("B"), {"A", "B"}).completed
    ensures worlds[7].disk == worlds[6].disk && worlds[7].process.Off? && !Loaded(worlds[7]).completed
  {
    hide Run, Next;
    var none, a, stuck := Covering([]), Covering(["A"]), Covering(["A"]).(pending := [p]);
    var both := {"A", "B"};
    var w0, w1, w2 := World(None, Off, {}), World(Some(none), Open(none), {}), World(Some(a), Off, {});
    var w3, w4 := World(Some(a), Open(a), {}), World(Some(stuck), Intent(stuck, p.id), {});
    var w5 := World(Some(stuck), Off, {});
    var w6 := World(Some(stuck), Open(stuck), {});
    StuckSteps(p);
    worlds, steps := [w0], [];
    assert Run(worlds, steps) by { OneWorld(w0); }
    worlds, steps := Extend(worlds, steps, w0, Begin(NoFault), w1);
    worlds, steps := Extend(worlds, steps, w1, Finish(Some("A"), both, NoFault), w2);
    worlds, steps := Extend(worlds, steps, w2, Begin(NoFault), w3);
    worlds, steps := Extend(worlds, steps, w3, NotePending(p, NoFault), w4);
    worlds, steps := Extend(worlds, steps, w4, Crash, w5);
    worlds, steps := Extend(worlds, steps, w5, Begin(NoFault), w6);
    worlds, steps := Extend(worlds, steps, w6, Finish(Some("B"), both, NoFault), w5);
    StuckFinal(p);
  }

  lemma OneWorld(w: World)
    requires Initial(w)
    ensures Run([w], [])
  {
  }

  lemma StuckFinal(p: Pending)
    ensures Finalized(Covering(["A"]).(pending := [p]), Some("B"), {"A", "B"}).completed
  {
    assert ["A"] + ["B"] == ["A", "B"];
    assert "A" in ["A", "B"] && "B" in ["A", "B"];
  }

  lemma BeginStep(disk: Option<Marker>, m: Marker)
    requires Consistent(m) && !m.completed && Recomputed(m) == m && (disk == Some(m) || (disk.None? && m == EMPTY))
    ensures Next(World(disk, Off, {}), Begin(NoFault), World(Some(m), Open(m), {}))
  {
    hide Consistent, Recomputed;
  }

  lemma IntentSteps(m: Marker, p: Pending, m': Marker)
    requires WithPending(m, p) == m' && Consistent(m')
    ensures Next(World(Some(m), Open(m), {}), NotePending(p, NoFault), World(Some(m'), Intent(m', p.id), {}))
    ensures Next(World(Some(m'), Intent(m', p.id), {}), Crash, World(Some(m'), Off, {}))
  {
    hide Consistent, WithPending;
  }

  lemma FinishStep(m: Marker, scope: string, discovered: set<string>, m': Marker)
    requires m' == if Consistent(Recomputed(Finalized(m, Some(scope), discovered)))
                   then Recomputed(Finalized(m, Some(scope), discovered)) else m
    ensures Next(World(Some(m), Open(m), {}), Finish(Some(scope), discovered, NoFault), World(Some(m'), Off, {}))
  {
    hide Consistent, Recomputed, Finalized;
  }

  lemma FirstFinish()
    ensures Finalized(Covering([]), Some("A"), {"A", "B"}) == Covering(["A"])
  {
    assert [] + ["A"] == ["A"];
    assert "B" in {"A", "B"} && "B" !in ["A"];
  }

  lemma StuckSteps(p: Pending)
    ensures var none, a, stuck := Covering([]), Covering(["A"]), Covering(["A"]).(pending := [p]);
            var both := {"A", "B"};
            && Next(World(None, Off, {}), Begin(NoFault), World(Some(none), Open(none), {}))
            && Next(World(Some(none), Open(none), {}), Finish(Some("A"), both, NoFault), World(Some(a), Off, {}))
            && Next(World(Some(a), Off, {}), Begin(NoFault), World(Some(a), Open(a), {}))
            && Next(World(Some(a), Open(a), {}), NotePending(p, NoFault), World(Some(stuck), Intent(stuck, p.id), {}))
            && Next(World(Some(stuck), Intent(stuck, p.id), {}), Crash, World(Some(stuck), Off, {}))
            && Next(World(Some(stuck), Off, {}), Begin(NoFault), World(Some(stuck), Open(stuck), {}))
            && Next(World(Some(stuck), Open(stuck), {}), Finish(Some("B"), both, NoFault), World(Some(stuck), Off, {}))
  {
    hide Consistent, WithPending, Recomputed, Finalized, Next;
    var none, a, stuck := Covering([]), Covering(["A"]), Covering(["A"]).(pending := [p]);
    CoveringConsistent([], p);
    CoveringConsistent(["A"], p);
    ConsistentCounts(stuck);
    FirstFinish();
    FinalizeExact(stuck, Some("B"), {"A", "B"});
    StuckFinal(p);
    BeginStep(None, none);
    BeginStep(Some(a), a);
    BeginStep(Some(stuck), stuck);
    FinishStep(none, "A", {"A", "B"}, a);
    IntentSteps(a, p, stuck);
    FinishStep(stuck, "B", {"A", "B"}, stuck);
  }
}
