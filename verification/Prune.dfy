/** Pruning the inbox (`events.py` `_partition_events_by_*`, `_prune_events_locked`,
    `record_event`). The inbox and the archive are the events their lines hold; every disk
    write is a point at which the process may die. */
module Prune {

  datatype Event = Event(id: string, createdAt: int)

  datatype Selection = Before(cutoff: int) | Keep(count: int)

  /** `(kept, pruned)` for one selection. */
  function Partition(events: seq<Event>, how: Selection): (seq<Event>, seq<Event>) {
    match how
    case Before(cutoff) => PartitionByBefore(events, cutoff)
    case Keep(count) => PartitionByKeep(events, count)
  }

  function PartitionByBefore(events: seq<Event>, cutoff: int): (seq<Event>, seq<Event>) {
    if events == [] then ([], [])
    else
      var (kept, pruned) := PartitionByBefore(events[1..], cutoff);
      if events[0].createdAt >= cutoff then ([events[0]] + kept, pruned) else (kept, [events[0]] + pruned)
  }

  function PartitionByKeep<T>(events: seq<T>, keep: int): (seq<T>, seq<T>) {
    if keep <= 0 then ([], events)
    else if keep >= |events| then (events, [])
    else (events[|events| - keep..], events[..|events| - keep])
  }

  /** `whole` is an interleaving of `a` and `b`: both keep their order and nothing else is in it. */
  ghost predicate Interleaves<T>(a: seq<T>, b: seq<T>, whole: seq<T>)
    decreases whole
  {
    if whole == [] then a == [] && b == []
    else
      || (a != [] && a[0] == whole[0] && Interleaves(a[1..], b, whole[1..]))
      || (b != [] && b[0] == whole[0] && Interleaves(a, b[1..], whole[1..]))
  }

  lemma {:induction false} OneSided<T>(a: seq<T>)
    ensures Interleaves(a, [], a) && Interleaves([], a, a)
    decreases |a|
  {
    if a != [] {
      OneSided(a[1..]);
    }
  }

  lemma {:induction false} AppendInterleaves<T>(b: seq<T>, a: seq<T>)
    ensures Interleaves(a, b, b + a)
    decreases |b|
  {
    if b == [] {
      assert b + a == a;
      OneSided(a);
    } else {
      assert (b + a)[1..] == b[1..] + a;
      AppendInterleaves(b[1..], a);
    }
  }

  /** Both selections split the inbox: kept and pruned events keep their order, none is lost
      and none invented; a kept event satisfies the cutoff and a pruned one does not, or the
      kept ones are the newest `count`. */
  lemma {:induction false} PartitionSplits(events: seq<Event>, how: Selection)
    ensures var (kept, pruned) := Partition(events, how);
            && Interleaves(kept, pruned, events)
            && (how.Before? ==> forall e :: e in kept ==> e.createdAt >= how.cutoff)
            && (how.Before? ==> forall e :: e in pruned ==> e.createdAt < how.cutoff)
            && (how.Keep? ==> events == pruned + kept)
            && (how.Keep? ==>
                 |kept| == if how.count <= 0 then 0 else if how.count < |events| then how.count else |events|)
    decreases |events|
  {
    match how
    case Before(cutoff) =>
      if events != [] {
        PartitionSplits(events[1..], how);
        var (kept, pruned) := PartitionByBefore(events[1..], cutoff);
        assert ([events[0]] + kept)[1..] == kept && ([events[0]] + pruned)[1..] == pruned;
      }
    case Keep(count) =>
      var (kept, pruned) := PartitionByKeep(events, count);
      AppendInterleaves(pruned, kept);
      assert events == pruned + kept;
  }

  /** A cutoff may drop an event and keep an earlier one. */
  lemma CutoffCanKeepEarlier(a: Event, b: Event, cutoff: int)
    requires a.createdAt >= cutoff > b.createdAt
    ensures PartitionByBefore([a, b], cutoff) == ([a], [b])
  {
    assert [a, b][1..] == [b] && [b][1..] == [];
    assert PartitionByBefore([], cutoff) == ([], []);
    assert PartitionByBefore([b], cutoff) == ([], [b] + []);
    assert [b] + [] == [b] && [a] + [] == [a];
    assert PartitionByBefore([a, b], cutoff) == ([a] + [], [b]);
  }

  lemma {:induction false} InterleavesMultiset<T>(a: seq<T>, b: seq<T>, whole: seq<T>)
    requires Interleaves(a, b, whole)
    ensures multiset(whole) == multiset(a) + multiset(b)
    decreases whole
  {
    if whole != [] {
      assert whole == [whole[0]] + whole[1..];
      if a != [] && a[0] == whole[0] && Interleaves(a[1..], b, whole[1..]) {
        assert a == [a[0]] + a[1..];
        InterleavesMultiset(a[1..], b, whole[1..]);
      } else {
        assert b == [b[0]] + b[1..];
        InterleavesMultiset(a, b[1..], whole[1..]);
      }
    }
  }

  /** What a crash would leave on disk. */
  datatype Disk = Disk(inbox: seq<Event>, archive: seq<Event>)

  /** Every event `before` held, in the inbox or the archive, `after` still holds. */
  ghost predicate NothingLost(before: Disk, after: Disk) {
    multiset(before.inbox) + multiset(before.archive) <= multiset(after.inbox) + multiset(after.archive)
  }

  // ----- the store on disk -----------------------------------------------------------------------------

  /** A terminated line of the inbox: a known event, an event of unknown type, malformed text, or JSON that
      fails validation in any other way. */
  datatype Line = Known(event: Event) | Unknown | Garbled | Invalid

  function Events(lines: seq<Line>): seq<Event> {
    if lines == [] then []
    else (if lines[0].Known? then [lines[0].event] else []) + Events(lines[1..])
  }

  function Written(events: seq<Event>): seq<Line> {
    seq(|events|, i requires 0 <= i < |events| => Known(events[i]))
  }

  lemma {:induction false} EventsConcat(a: seq<Line>, b: seq<Line>)
    ensures Events(a + b) == Events(a) + Events(b)
    decreases |a|
  {
    if a == [] {
      assert a + b == b;
    } else {
      assert (a + b)[1..] == a[1..] + b && (a + b)[0] == a[0];
      EventsConcat(a[1..], b);
      var h, x, y := if a[0].Known? then [a[0].event] else [], Events(a[1..]), Events(b);
      assert h + (x + y) == (h + x) + y;
    }
  }

  lemma OneEvent(line: Line)
    ensures Events([line]) == if line.Known? then [line.event] else []
  {
    assert [line][1..] == [] && Events([]) == [];
  }

  lemma {:induction false} EventsWritten(events: seq<Event>)
    ensures Events(Written(events)) == events
    decreases |events|
  {
    if events != [] {
      assert Written(events)[1..] == Written(events[1..]);
      EventsWritten(events[1..]);
      assert events == [events[0]] + events[1..];
    }
  }

  /** Does `_parse_lines` accept the inbox: nothing invalid, and malformed text only at its very end, where a
      torn tail is. */
  predicate Parses(lines: seq<Line>, torn: bool) {
    forall i :: 0 <= i < |lines| ==> !lines[i].Invalid? && (lines[i].Garbled? ==> i == |lines| - 1 && !torn)
  }

  /** The events of `batch` that reach the archive as lines of their own: behind a torn tail the first
      one is glued to it. */
  function Landed(batch: seq<Event>, torn: bool): seq<Event> {
    if torn && batch != [] then batch[1..] else batch
  }

  function Take(batch: seq<Event>, n: nat): seq<Event> {
    if n < |batch| then batch[..n] else batch
  }

  lemma LandedSnoc(batch: seq<Event>, n: nat, torn: bool)
    requires n < |batch|
    ensures Landed(batch[..n + 1], torn) == Landed(batch[..n], torn) + if torn && n == 0 then [] else [batch[n]]
  {
    assert batch[..n + 1] == batch[..n] + [batch[n]];
    if torn && n > 0 {
      assert batch[..n + 1][1..] == batch[..n][1..] + [batch[n]];
    }
  }

  /** Every point from `lo` on still holds what `before` held. */
  ghost predicate AllKept(before: Disk, points: seq<Disk>, lo: nat) {
    forall i :: lo <= i < |points| ==> NothingLost(before, points[i])
  }

  lemma AllKeptSnoc(before: Disk, points: seq<Disk>, lo: nat, d: Disk)
    requires AllKept(before, points, lo) && NothingLost(before, d)
    ensures AllKept(before, points + [d], lo)
  {
    hide NothingLost;
  }

  lemma AllKeptTrans(before: Disk, middle: Disk, points: seq<Disk>, longer: seq<Disk>, lo: nat)
    requires points <= longer && AllKept(before, points, lo) && lo <= |points|
    requires NothingLost(before, middle) && AllKept(middle, longer, |points|)
    ensures AllKept(before, longer, lo)
  {
    hide NothingLost;
    forall i | lo <= i < |longer| ensures NothingLost(before, longer[i]) {
      if i >= |points| {
        NothingLostTrans(before, middle, longer[i]);
      }
    }
  }

  predicate IsEmpty(lines: seq<Line>, torn: bool) {
    lines == [] && !torn
  }

  /** The event store on disk; `crashPoints` is the history of its disk states. An append cut short
      leaves a torn tail, which the next append runs into. */
  class EventStore {
    var inbox: seq<Line>
    var torn: bool
    var archive: seq<Event>
    var archiveTorn: bool
    ghost var crashPoints: seq<Disk>

    ghost function OnDisk(): Disk
      reads this
    {
      Disk(Events(inbox), archive)
    }

    constructor (lines: seq<Line>, tail: bool, archived: seq<Event>, archiveTail: bool)
      ensures inbox == lines && torn == tail && archive == archived && archiveTorn == archiveTail
      ensures crashPoints == [OnDisk()]
    {
      inbox, torn, archive, archiveTorn := lines, tail, archived, archiveTail;
      crashPoints := [Disk(Events(lines), archived)];
    }

    /** The append of a pruned batch to the archive. The first `budget` writes succeed and the next one
        raises, leaving part of its line when `tear`. */
    method Archive(batch: seq<Event>, budget: nat, tear: bool) returns (ok: bool)
      modifies this`archive, this`archiveTorn, this`crashPoints
      ensures ok == (|batch| <= budget)
      ensures archive == old(archive) + Landed(Take(batch, budget), old(archiveTorn))
      ensures archiveTorn == if ok then batch == [] && old(archiveTorn) else tear || (budget == 0 && old(archiveTorn))
      ensures old(crashPoints) <= crashPoints && NothingLost(old(OnDisk()), OnDisk())
      ensures AllKept(old(OnDisk()), crashPoints, |old(crashPoints)|)
    {
      hide NothingLost, Events, AllKept, Landed;
      ghost var before, tail, was := OnDisk(), archiveTorn, archive;
      assert batch[..0] == [] && Landed([], tail) == [] && was + [] == was by { LandedNone(tail); }
      NothingLostSelf(before);
      NoneYet(before, crashPoints);
      var n := 0;
      while n < |batch|
        invariant 0 <= n <= |batch| && n <= budget
        invariant archive == was + Landed(batch[..n], tail)
        invariant archiveTorn == (n == 0 && tail)
        invariant old(crashPoints) <= crashPoints && NothingLost(before, OnDisk())
        invariant AllKept(before, crashPoints, |old(crashPoints)|)
      {
        if n == budget {
          archiveTorn := tear || archiveTorn;
          return false;
        }
        LandedSnoc(batch, n, tail);
        if !archiveTorn {
          archive := archive + [batch[n]];
        }
        archiveTorn, n := false, n + 1;
        LandedKept(before, batch[..n], tail);
        assert archive == was + Landed(batch[..n], tail);
        AllKeptSnoc(before, crashPoints, |old(crashPoints)|, OnDisk());
        crashPoints := crashPoints + [OnDisk()];
      }
      assert batch[..n] == batch;
      return true;
    }

    /** The archive append, then the inbox swap; each write may raise. */
    method Rewrite(kept: seq<Event>, pruned: seq<Event>, archiving: bool, budget: nat, tear: bool)
      returns (ok: bool)
      requires Interleaves(kept, pruned, Events(inbox))
      modifies this
      ensures ok == (budget > if archiving then |pruned| else 0)
      ensures archive
        == old(archive) + if archiving then Landed(Take(pruned, budget), old(archiveTorn)) else []
      ensures !old(archiveTorn) && ok ==> !archiveTorn
      ensures archiving && budget < |pruned| && tear ==> archiveTorn
      ensures ok ==> inbox == Written(kept) && !torn
      ensures !ok ==> inbox == old(inbox) && torn == old(torn) && NothingLost(old(OnDisk()), OnDisk())
      ensures archiving && ok ==>
                (NothingLost(old(OnDisk()), OnDisk()) <==> !old(archiveTorn) || pruned == [])
      ensures old(crashPoints) <= crashPoints
      ensures archiving && !old(archiveTorn) ==> AllKept(old(OnDisk()), crashPoints, |old(crashPoints)|)
    {
      hide NothingLost, Interleaves, Events, Written, AllKept, Landed, Take;
      ghost var before, points, tail := OnDisk(), crashPoints, archiveTorn;
      NothingLostSelf(before);
      var writes := budget;
      if archiving {
        var archived := Archive(pruned, budget, tear);
        if !archived {
          return false;
        }
        TakeAll(pruned, budget);
        writes := budget - |pruned|;
      } else {
        assert archive + [] == archive;
      }
      if writes == 0 {
        return false;
      }
      inbox, torn := Written(kept), false;
      EventsWritten(kept);
      if archiving {
        SwapExact(before, kept, pruned, tail);
        if !tail {
          AllKeptSnoc(before, crashPoints, |points|, OnDisk());
        }
      }
      crashPoints := crashPoints + [OnDisk()];
      return true;
    }

    /** `_prune_events_locked`: an inbox with malformed text before its end raises, an empty one is left
        alone, and lines of unknown type are dropped. A prune that raises keeps the inbox; one that
        succeeds while archiving loses an event exactly when the archive ended in a torn line and
        something was pruned. */
    method Prune(how: Selection, archiving: bool, budget: nat, tear: bool) returns (ok: bool)
      modifies this
      ensures var (kept, pruned) := Partition(Events(old(inbox)), how);
              var whole := Parses(old(inbox), old(torn));
              && (ok <==> whole && (IsEmpty(old(inbox), old(torn)) || budget > if archiving then |pruned| else 0))
              && archive == old(archive)
                 + (if archiving && whole then Landed(Take(pruned, budget), old(archiveTorn)) else [])
              && (!old(archiveTorn) && ok ==> !archiveTorn)
              && (whole && archiving && budget < |pruned| && tear ==> archiveTorn)
              && (ok ==> inbox == Written(kept) && !torn)
              && (archiving && ok ==> (NothingLost(old(OnDisk()), OnDisk()) <==> !old(archiveTorn) || pruned == []))
      ensures !ok ==> inbox == old(inbox) && torn == old(torn) && NothingLost(old(OnDisk()), OnDisk())
      ensures old(crashPoints) <= crashPoints
      ensures archiving && !old(archiveTorn) ==> AllKept(old(OnDisk()), crashPoints, |old(crashPoints)|)
    {
      var (kept, pruned) := Partition(Events(inbox), how);
      PartitionSplits(Events(inbox), how);
      PartitionNone(how);
      NothingLostSelf(OnDisk());
      NoneYet(OnDisk(), crashPoints);
      LandedNone(archiveTorn);
      assert Events([]) == [] && Written([]) == [] && archive + [] == archive;
      hide NothingLost, Partition, Interleaves, Events, Written, AllKept, Landed, Parses, Take;
      if !Parses(inbox, torn) {
        return false;
      }
      if IsEmpty(inbox, torn) {
        return true;
      }
      ok := Rewrite(kept, pruned, archiving, budget, tear);
    }

    /** `record_event` with its in-band auto-prune, whose failure is swallowed; `over` is the retention
        trigger. Behind a torn tail the new line is malformed, so the event is recorded exactly when
        the inbox was not torn. Unless the archive is torn, every event recorded before, and the new
        one once its line is whole, is on disk at every crash point. */
    method Record(event: Event, over: bool, keep: int, budget: nat, tear: bool)
      modifies this
      ensures old(crashPoints) < crashPoints
      ensures var recorded := Disk(Events(old(inbox)) + (if old(torn) then [] else [event]), old(archive));
              !over || !old(archiveTorn) ==>
                && AllKept(old(OnDisk()), crashPoints, |old(crashPoints)|)
                && AllKept(recorded, crashPoints, |old(crashPoints)| + 1)
                && NothingLost(recorded, OnDisk())
      ensures !over ==> !torn && inbox == old(inbox) + [if old(torn) then Garbled else Known(event)]
    {
      ghost var before, points, more := OnDisk(), crashPoints, if torn then [] else [event];
      ghost var whole := Disk(Events(inbox) + more, archive);
      var line := if torn then Garbled else Known(event);
      Recorded(before, more, points);
      EventsConcat(inbox, [line]);
      OneEvent(line);
      hide NothingLost, Partition, Events, Written, AllKept, Landed, Parses, Take;
      crashPoints := crashPoints + [OnDisk()];
      inbox, torn := inbox + [line], false;
      crashPoints := crashPoints + [OnDisk()];
      assert OnDisk() == whole && crashPoints == points + [before, whole];
      if over {
        ghost var written := crashPoints;
        var ok := Prune(Keep(keep), true, budget, tear);
        if !old(archiveTorn) {
          AllKeptTrans(before, whole, written, crashPoints, |points|);
          AllKeptTrans(whole, whole, written, crashPoints, |points| + 1);
        }
      }
    }
  }

  /** A retry does not only archive twice: a prune whose archive write is cut short, run again, leaves the
      event in neither file. */
  method TornRetry(event: Event) returns (store: EventStore)
    ensures fresh(store) && store.OnDisk() == Disk([], [])
    ensures Disk([event], []) in store.crashPoints
  {
    store := new EventStore([Known(event)], false, [], false);
    OneEvent(Known(event));
    assert Partition([event], Keep(0)) == ([], [event]);
    assert Events([]) == [] && Written([]) == [] && [event][1..] == [] && [event][..0] == [];
    assert store.crashPoints[0] == Disk([event], []);
    hide NothingLost, Partition, Events, Written, AllKept;
    var first := store.Prune(Keep(0), true, 0, true);
    assert !first && store.archiveTorn;
    assert store.archive == [] && store.inbox == [Known(event)];
    var second := store.Prune(Keep(0), true, 2, false);
    assert second && store.inbox == [];
    assert store.crashPoints[0] == Disk([event], []);
  }

  lemma NoneYet(before: Disk, points: seq<Disk>)
    ensures AllKept(before, points, |points|)
  {
  }

  lemma LandedNone(torn: bool)
    ensures forall n: nat :: Landed(Take([], n), torn) == []
    ensures Landed([], torn) == []
  {
  }

  lemma LandedKept(before: Disk, batch: seq<Event>, torn: bool)
    ensures NothingLost(before, Disk(before.inbox, before.archive + Landed(batch, torn)))
  {
    hide Landed;
  }

  lemma TakeAll(batch: seq<Event>, n: nat)
    requires |batch| <= n
    ensures Take(batch, n) == batch
  {
  }

  lemma PartitionNone(how: Selection)
    ensures Partition([], how) == ([], [])
  {
  }

  /** After the swap nothing is lost unless the first pruned event ran into a torn archive tail. */
  lemma SwapExact(before: Disk, kept: seq<Event>, pruned: seq<Event>, torn: bool)
    requires Interleaves(kept, pruned, before.inbox)
    ensures NothingLost(before, Disk(kept, before.archive + Landed(pruned, torn))) <==> !torn || pruned == []
  {
    InterleavesMultiset(kept, pruned, before.inbox);
    if torn && pruned != [] {
      var e := pruned[0];
      assert pruned == [e] + pruned[1..];
      assert multiset(pruned)[e] == 1 + multiset(pruned[1..])[e];
      var after := Disk(kept, before.archive + pruned[1..]);
      assert (multiset(before.inbox) + multiset(before.archive))[e]
          > (multiset(after.inbox) + multiset(after.archive))[e];
    }
  }

  lemma NothingLostSelf(d: Disk)
    ensures NothingLost(d, d)
  {
  }

  lemma NothingLostTrans(a: Disk, b: Disk, c: Disk)
    requires NothingLost(a, b) && NothingLost(b, c)
    ensures NothingLost(a, c)
  {
  }

  /** The two crash points of one append. */
  lemma Recorded(before: Disk, more: seq<Event>, points: seq<Disk>)
    ensures var whole := Disk(before.inbox + more, before.archive);
            && NothingLost(before, whole) && NothingLost(whole, whole)
            && AllKept(before, points + [before, whole], |points|)
            && AllKept(whole, points + [before, whole], |points| + 1)
  {
    var whole := Disk(before.inbox + more, before.archive);
    NothingLostSelf(before);
    NothingLostSelf(whole);
    MoreKept(before, more);
    hide NothingLost;
    forall i | |points| <= i < |points| + 2 ensures NothingLost(before, (points + [before, whole])[i]) {
      assert (points + [before, whole])[i] == if i == |points| then before else whole;
    }
  }

  lemma MoreKept(before: Disk, more: seq<Event>)
    ensures NothingLost(before, Disk(before.inbox + more, before.archive))
  {
  }
}
