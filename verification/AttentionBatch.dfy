/** One poll over a batch against one poll per event: exactly when `step`'s two passes, all clears and
    then all admits, change the lines or the latch. */
module AttentionBatch {
  import opened Common
  import opened AttentionLatch

  // ----- entries ------------------------------------------------------------------------------------

  lemma {:induction false} ClearedRemove(l: Entries, c: Event, key: string)
    ensures Cleared(Remove(l, key), c) == Remove(Cleared(l, c), key)
  {
    hide Matches;
    if l != [] {
      ClearedRemove(l[1..], c, key);
      RemoveConcat(if Matches(c, l[0].0) then [] else [l[0]], Cleared(l[1..], c), key);
      ClearedConcat(if l[0].0 == key then [] else [l[0]], Remove(l[1..], key), c);
      OneEntry(l[0], c, key);
    }
  }

  lemma OneEntry(entry: (string, string), c: Event, key: string)
    ensures Cleared([entry], c) == if Matches(c, entry.0) then [] else [entry]
    ensures Remove([entry], key) == if entry.0 == key then [] else [entry]
    ensures Cleared([], c) == [] && Remove([], key) == []
  {
    hide Matches;
    assert [entry][1..] == [];
  }

  lemma {:induction false} ClearedConcat(a: Entries, b: Entries, c: Event)
    ensures Cleared(a + b, c) == Cleared(a, c) + Cleared(b, c)
  {
    hide Matches;
    if a == [] {
      assert a + b == b;
    } else {
      assert (a + b)[1..] == a[1..] + b && (a + b)[0] == a[0];
      ClearedConcat(a[1..], b, c);
      var h, x, y := if Matches(c, a[0].0) then [] else [a[0]], Cleared(a[1..], c), Cleared(b, c);
      assert h + (x + y) == (h + x) + y;
    }
  }

  /** An admit and a clear of another key commute while nothing is evicted. */
  lemma AdmitClearCommute(l: Entries, e: Event, c: Event)
    requires !Matches(c, Key(e)) && |l| < LATCH_MAX_KEYS
    ensures Cleared(Admitted(l, e), c) == Admitted(Cleared(l, c), e)
    ensures Fresh(Cleared(l, c), e) == Fresh(l, e)
  {
    hide Matches, Key, Get, Remove, Cleared;
    var entry := (Key(e), e.marker);
    ClearedGet(l, c, Key(e));
    ClearedRemove(l, c, Key(e));
    ClearedConcat(Remove(l, Key(e)), [entry], c);
    OneEntry(entry, c, Key(e));
    RemoveSize(l, Key(e));
    ClearedSize(l, c);
    RemoveSize(Cleared(l, c), Key(e));
  }

  lemma AdmittedSize(l: Entries, e: Event)
    ensures |Admitted(l, e)| <= |l| + 1
  {
    hide Key, Get, Remove;
    RemoveSize(l, Key(e));
  }

  lemma {:induction false} ClearAllSize(l: Entries, es: seq<Event>)
    ensures |ClearAll(l, es)| <= |l|
    decreases |es|
  {
    hide Cleared, Resolves;
    if es != [] {
      ClearedSize(l, es[0]);
      ClearAllSize(if Resolves(es[0]) then Cleared(l, es[0]) else l, es[1..]);
    }
  }

  lemma ClearedAbsent(l: Entries, c: Event, key: string)
    requires Get(l, key).None?
    ensures Get(Cleared(l, c), key).None?
  {
    hide Matches, Get, Cleared;
    if Matches(c, key) {
      ClearedGone(l, c, key);
    } else {
      ClearedGet(l, c, key);
    }
  }

  lemma {:induction false} RemoveAbsent(l: Entries, key: string)
    requires Get(l, key).None?
    ensures Remove(l, key) == l
  {
    if l != [] {
      RemoveAbsent(l[1..], key);
    }
  }

  /** An admit leaves the key with the event's fingerprint, and other keys as they were. */
  lemma AdmittedGet(l: Entries, e: Event, key: string)
    requires |l| < LATCH_MAX_KEYS
    ensures Get(Admitted(l, e), key) == if key == Key(e) then Some(e.marker) else Get(l, key)
  {
    hide Key, Get, Remove;
    RemoveSize(l, Key(e));
    RemoveGone(l, Key(e));
    var entry := (Key(e), e.marker);
    GetConcat(Remove(l, Key(e)), [entry], key);
    OneGet(entry, key);
    if key != Key(e) {
      RemoveKeeps(l, Key(e), key);
    }
  }

  lemma SingleBatch(l: Entries, e: Event, scope: iset<Event>)
    ensures var b := Batch(l, [e], scope);
            if Resolves(e) then b == Outcome([], Cleared(l, e))
            else if Pages(e, scope) then b == Outcome(if Fresh(l, e) then [e] else [], Admitted(l, e))
            else b == Outcome([], l)
  {
    hide Matches, Key, Get, Admitted, Fresh, Resolves, Cleared;
    assert [e][1..] == [];
    var l' := if Resolves(e) then Cleared(l, e) else l;
    assert ClearAll(l', []) == l' && AdmitAll(l', [], scope) == Outcome([], l');
    assert ClearAll(l, [e]) == l';
    assert AdmitAll(Admitted(l', e), [], scope) == Outcome([], Admitted(l', e));
  }

  // ----- both ways, event by event ----------------------------------------------------------------------

  /** The first `i` events admitted in order; with `clearing`, the resolving ones clear as they come. */
  ghost function At(l: Entries, es: seq<Event>, scope: iset<Event>, i: nat, clearing: bool): Outcome
    requires i <= |es|
    decreases i
  {
    if i == 0 then Outcome([], l)
    else
      var p, e := At(l, es, scope, i - 1, clearing), es[i - 1];
      if Pages(e, scope) then Outcome(p.lines + (if Fresh(p.latch, e) then [e] else []), Admitted(p.latch, e))
      else if clearing && Resolves(e) then p.(latch := Cleared(p.latch, e))
      else p
  }

  lemma {:induction false} OneByOneAt(l: Entries, es: seq<Event>, scope: iset<Event>, i: nat)
    requires i <= |es|
    ensures var p := At(l, es, scope, i, true);
            var rest := OneByOne(p.latch, es[i..], scope);
            OneByOne(l, es, scope) == Outcome(p.lines + rest.lines, rest.latch)
    decreases i
  {
    hide Resolves, IsWatched, Admitted, Fresh, Cleared, Batch;
    if i == 0 {
      assert es[0..] == es;
      var all := OneByOne(l, es, scope);
      assert [] + all.lines == all.lines;
    } else {
      OneByOneAt(l, es, scope, i - 1);
      var p := At(l, es, scope, i - 1, true);
      assert es[i - 1..][0] == es[i - 1] && es[i - 1..][1..] == es[i..];
      SingleBatch(p.latch, es[i - 1], scope);
      var first := Batch(p.latch, [es[i - 1]], scope);
      var rest := OneByOne(first.latch, es[i..], scope);
      assert p.lines + (first.lines + rest.lines) == (p.lines + first.lines) + rest.lines;
      assert p.lines + [] == p.lines;
    }
  }

  lemma {:induction false} AdmitAllAt(l: Entries, es: seq<Event>, scope: iset<Event>, i: nat)
    requires i <= |es|
    ensures var p := At(l, es, scope, i, false);
            var rest := AdmitAll(p.latch, es[i..], scope);
            AdmitAll(l, es, scope) == Outcome(p.lines + rest.lines, rest.latch)
    decreases i
  {
    hide Resolves, IsWatched, Admitted, Fresh, Cleared;
    if i == 0 {
      assert es[0..] == es;
      var all := AdmitAll(l, es, scope);
      assert [] + all.lines == all.lines;
    } else {
      AdmitAllAt(l, es, scope, i - 1);
      var p, e := At(l, es, scope, i - 1, false), es[i - 1];
      assert es[i - 1..][0] == e && es[i - 1..][1..] == es[i..];
      if Pages(e, scope) {
        var rest := AdmitAll(Admitted(p.latch, e), es[i..], scope);
        assert p.lines + ([e] + rest.lines) == (p.lines + [e]) + rest.lines;
        assert p.lines + [] == p.lines;
      }
    }
  }

  /** Both sides as runs over the same indices. */
  lemma BothAt(l: Entries, es: seq<Event>, scope: iset<Event>)
    ensures OneByOne(l, es, scope) == At(l, es, scope, |es|, true)
    ensures Batch(l, es, scope) == At(ClearAll(l, es), es, scope, |es|, false)
  {
    hide At, ClearAll;
    OneByOneAt(l, es, scope, |es|);
    AdmitAllAt(ClearAll(l, es), es, scope, |es|);
    var a, b := At(l, es, scope, |es|, true), At(ClearAll(l, es), es, scope, |es|, false);
    assert es[|es|..] == [] && a.lines + [] == a.lines && b.lines + [] == b.lines;
  }

  /** How many events of the batch may be admitted. */
  ghost function PageCount(es: seq<Event>, scope: iset<Event>): nat {
    if es == [] then 0 else (if Pages(es[0], scope) then 1 else 0) + PageCount(es[1..], scope)
  }

  /** The latch has room for every page of the batch. */
  ghost predicate Room(l: Entries, es: seq<Event>, scope: iset<Event>) {
    |l| + PageCount(es, scope) <= LATCH_MAX_KEYS
  }

  lemma {:induction false} RoomAt(l: Entries, es: seq<Event>, scope: iset<Event>, i: nat, clearing: bool)
    requires i <= |es|
    ensures |At(l, es, scope, i, clearing).latch| + PageCount(es[i..], scope) <= |l| + PageCount(es, scope)
    decreases i
  {
    hide Resolves, IsWatched, Admitted, Fresh, Cleared;
    if i == 0 {
      assert es[0..] == es;
    } else {
      RoomAt(l, es, scope, i - 1, clearing);
      var p, e := At(l, es, scope, i - 1, clearing), es[i - 1];
      assert es[i - 1..][0] == e && es[i - 1..][1..] == es[i..];
      AdmittedSize(p.latch, e);
      ClearedSize(p.latch, e);
    }
  }

  // ----- the value of one key ---------------------------------------------------------------------------

  ghost predicate PageOn(es: seq<Event>, scope: iset<Event>, i: int, key: string) {
    0 <= i < |es| && Pages(es[i], scope) && Key(es[i]) == key
  }

  ghost predicate ClearOn(es: seq<Event>, i: int, key: string) {
    0 <= i < |es| && Resolves(es[i]) && Matches(es[i], key)
  }

  ghost predicate NoPageIn(es: seq<Event>, scope: iset<Event>, lo: int, hi: int, key: string) {
    forall i :: lo <= i < hi ==> !PageOn(es, scope, i, key)
  }

  ghost predicate NoClearIn(es: seq<Event>, lo: int, hi: int, key: string) {
    forall i :: lo <= i < hi ==> !ClearOn(es, i, key)
  }

  /** What one event does to a key. */
  lemma StepGet(l: Entries, es: seq<Event>, scope: iset<Event>, i: nat, clearing: bool, key: string)
    requires i < |es| && Room(l, es, scope)
    ensures var before := Get(At(l, es, scope, i, clearing).latch, key);
            Get(At(l, es, scope, i + 1, clearing).latch, key)
            == if PageOn(es, scope, i, key) then Some(es[i].marker)
               else if clearing && ClearOn(es, i, key) then None
               else before
  {
    hide Resolves, IsWatched, Admitted, Fresh, Cleared, Key, Get, Matches;
    var p, e := At(l, es, scope, i, clearing), es[i];
    if Pages(e, scope) {
      RoomAt(l, es, scope, i, clearing);
      AdmittedGet(p.latch, e, key);
    } else if clearing && Resolves(e) {
      if Matches(e, key) {
        ClearedGone(p.latch, e, key);
      } else {
        ClearedGet(p.latch, e, key);
      }
    }
  }

  lemma {:induction false} ValueKept(l: Entries, es: seq<Event>, scope: iset<Event>, lo: nat, i: nat, clearing: bool,
                                     key: string)
    requires lo <= i <= |es| && Room(l, es, scope)
    requires NoPageIn(es, scope, lo, i, key) && (clearing ==> NoClearIn(es, lo, i, key))
    ensures Get(At(l, es, scope, i, clearing).latch, key) == Get(At(l, es, scope, lo, clearing).latch, key)
    decreases i - lo
  {
    hide At, Get, PageOn, ClearOn, Room;
    if i > lo {
      ValueKept(l, es, scope, lo, i - 1, clearing, key);
      StepGet(l, es, scope, i - 1, clearing, key);
    }
  }

  /** Behind its last page, and with no clear since, a key has that page's fingerprint. */
  lemma ValueOfPage(l: Entries, es: seq<Event>, scope: iset<Event>, p: nat, i: nat, clearing: bool, key: string)
    requires p < i <= |es| && Room(l, es, scope) && PageOn(es, scope, p, key)
    requires NoPageIn(es, scope, p + 1, i, key) && (clearing ==> NoClearIn(es, p + 1, i, key))
    ensures Get(At(l, es, scope, i, clearing).latch, key) == Some(es[p].marker)
  {
    hide At, Get, Room, Key, Pages;
    StepGet(l, es, scope, p, clearing, key);
    ValueKept(l, es, scope, p + 1, i, clearing, key);
  }

  /** Behind a clear, a key is absent until it is paged. */
  lemma {:induction false} ValueGone(l: Entries, es: seq<Event>, scope: iset<Event>, j: nat, i: nat, key: string)
    requires j < i <= |es| && Room(l, es, scope) && ClearOn(es, j, key) && NoPageIn(es, scope, j, i, key)
    ensures Get(At(l, es, scope, i, true).latch, key) == None
    decreases i
  {
    hide At, Get, PageOn, ClearOn, Room;
    StepGet(l, es, scope, i - 1, true, key);
    if i - 1 > j {
      ValueGone(l, es, scope, j, i - 1, key);
    }
  }

  /** The clears of the batch, all at once. */
  lemma {:induction false} ClearAllGet(l: Entries, es: seq<Event>, key: string)
    ensures Get(ClearAll(l, es), key) == if NoClearIn(es, 0, |es|, key) then Get(l, key) else None
    decreases |es|
  {
    hide Get, Resolves, Matches, Cleared;
    if es != [] {
      var l' := if Resolves(es[0]) then Cleared(l, es[0]) else l;
      ClearAllGet(l', es[1..], key);
      assert forall i :: 0 < i < |es| ==> (ClearOn(es, i, key) <==> ClearOn(es[1..], i - 1, key));
      assert NoClearIn(es, 0, |es|, key) <==> !ClearOn(es, 0, key) && NoClearIn(es[1..], 0, |es| - 1, key) by {
        NoClearTail(es, key);
      }
      if Resolves(es[0]) {
        if Matches(es[0], key) {
          ClearedGone(l, es[0], key);
        } else {
          ClearedGet(l, es[0], key);
        }
      }
    }
  }

  lemma NoClearTail(es: seq<Event>, key: string)
    requires es != []
    ensures NoClearIn(es, 0, |es|, key) <==> !ClearOn(es, 0, key) && NoClearIn(es[1..], 0, |es| - 1, key)
  {
    hide Resolves, Matches;
    var tail := es[1..];
    if !ClearOn(es, 0, key) && NoClearIn(tail, 0, |es| - 1, key) {
      forall i | 0 <= i < |es| ensures !ClearOn(es, i, key) {
        if i > 0 {
          assert !ClearOn(tail, i - 1, key);
        }
      }
    }
    if NoClearIn(es, 0, |es|, key) {
      assert !ClearOn(es, 0, key);
      forall i | 0 <= i < |es| - 1 ensures !ClearOn(tail, i, key) {
        assert !ClearOn(es, i + 1, key);
      }
    }
  }

  lemma {:induction false} LastPage(es: seq<Event>, scope: iset<Event>, i: nat, key: string) returns (p: int)
    requires i <= |es|
    ensures -1 <= p < i && (p >= 0 ==> PageOn(es, scope, p, key)) && NoPageIn(es, scope, p + 1, i, key)
    decreases i
  {
    hide PageOn;
    if i == 0 {
      p := -1;
    } else if PageOn(es, scope, i - 1, key) {
      p := i - 1;
    } else {
      p := LastPage(es, scope, i - 1, key);
    }
  }

  // ----- when both ways agree ----------------------------------------------------------------------------

  /** A key cleared behind a page is paged again behind the clear. */
  ghost predicate PagedAgain(es: seq<Event>, scope: iset<Event>) {
    forall i, j, key :: i < j && PageOn(es, scope, i, key) && ClearOn(es, j, key) ==>
      exists n :: j < n && PageOn(es, scope, n, key)
  }

  /** Two pages of a key with a clear between them, and no page, differ in their fingerprint. */
  ghost predicate Changed(es: seq<Event>, scope: iset<Event>) {
    forall i, j, n, key |
      && i < j < n && PageOn(es, scope, i, key) && ClearOn(es, j, key) && PageOn(es, scope, n, key)
      && NoPageIn(es, scope, i + 1, n, key) :: es[i].marker != es[n].marker
  }

  /** The first page of a key that is cleared only behind it is not held by the latch already. */
  ghost predicate FirstIsNew(l: Entries, es: seq<Event>, scope: iset<Event>) {
    forall i, j, key |
      && i < j && PageOn(es, scope, i, key) && ClearOn(es, j, key)
      && NoPageIn(es, scope, 0, i, key) && NoClearIn(es, 0, i, key) :: Get(l, key) != Some(es[i].marker)
  }

  /** No late clear of the batch shows. */
  ghost predicate Harmless(l: Entries, es: seq<Event>, scope: iset<Event>) {
    PagedAgain(es, scope) && Changed(es, scope) && FirstIsNew(l, es, scope)
  }

  /** Does event `i` page when the batch is taken whole, and when it is taken one by one. */
  ghost predicate PagesBatched(l: Entries, es: seq<Event>, scope: iset<Event>, i: nat)
    requires i < |es|
  {
    Fresh(At(ClearAll(l, es), es, scope, i, false).latch, es[i])
  }

  ghost predicate PagesAlone(l: Entries, es: seq<Event>, scope: iset<Event>, i: nat)
    requires i < |es|
  {
    Fresh(At(l, es, scope, i, true).latch, es[i])
  }

  /** The same pages, given a page of the key earlier in the batch. */
  lemma SameAfterPage(l: Entries, es: seq<Event>, scope: iset<Event>, p: nat, i: nat)
    requires i < |es| && Room(l, es, scope) && Pages(es[i], scope) && Changed(es, scope)
    requires p < i && PageOn(es, scope, p, Key(es[i])) && NoPageIn(es, scope, p + 1, i, Key(es[i]))
    ensures PagesBatched(l, es, scope, i) == PagesAlone(l, es, scope, i)
  {
    hide At, Get, Room, Key, Pages, Changed;
    var key := Key(es[i]);
    RoomCleared(l, es, scope);
    ValueOfPage(ClearAll(l, es), es, scope, p, i, false, key);
    if NoClearIn(es, p + 1, i, key) {
      ValueOfPage(l, es, scope, p, i, true, key);
    } else {
      var j :| p + 1 <= j < i && ClearOn(es, j, key);
      NoPageLess(es, scope, p + 1, j, i, key);
      ValueGone(l, es, scope, j, i, key);
      assert PageOn(es, scope, i, key);
      UseChanged(es, scope, p, j, i, key);
    }
  }

  lemma UseChanged(es: seq<Event>, scope: iset<Event>, i: int, j: int, n: int, key: string)
    requires Changed(es, scope) && i < j < n && PageOn(es, scope, i, key) && ClearOn(es, j, key)
    requires PageOn(es, scope, n, key) && NoPageIn(es, scope, i + 1, n, key)
    ensures es[i].marker != es[n].marker
  {
    hide Pages, Resolves, Matches, Key;
  }

  lemma NoPageLess(es: seq<Event>, scope: iset<Event>, lo: int, mid: int, hi: int, key: string)
    requires lo <= mid && NoPageIn(es, scope, lo, hi, key)
    ensures NoPageIn(es, scope, mid, hi, key)
  {
    hide PageOn;
  }

  lemma RoomCleared(l: Entries, es: seq<Event>, scope: iset<Event>)
    requires Room(l, es, scope)
    ensures Room(ClearAll(l, es), es, scope)
  {
    hide ClearAll, PageCount;
    ClearAllSize(l, es);
  }

  /** The same pages, for the first page of its key. */
  lemma SameFirstPage(l: Entries, es: seq<Event>, scope: iset<Event>, i: nat)
    requires i < |es| && Room(l, es, scope) && Pages(es[i], scope) && FirstIsNew(l, es, scope)
    requires NoPageIn(es, scope, 0, i, Key(es[i]))
    ensures PagesBatched(l, es, scope, i) == PagesAlone(l, es, scope, i)
  {
    hide Get, Room, Key, Pages, ClearAll, PageOn, ClearOn;
    var key := Key(es[i]);
    RoomCleared(l, es, scope);
    ValueKept(ClearAll(l, es), es, scope, 0, i, false, key);
    ClearAllGet(l, es, key);
    if NoClearIn(es, 0, i, key) {
      ValueKept(l, es, scope, 0, i, true, key);
      if !NoClearIn(es, 0, |es|, key) {
        var j :| 0 <= j < |es| && ClearOn(es, j, key);
        PageNotClear(es, scope, i, key);
        assert i < j;
      }
    } else {
      var j :| 0 <= j < i && ClearOn(es, j, key);
      NoPageLess(es, scope, 0, j, i, key);
      ValueGone(l, es, scope, j, i, key);
    }
  }

  lemma PageNotClear(es: seq<Event>, scope: iset<Event>, i: nat, key: string)
    requires i < |es| && Pages(es[i], scope) && Key(es[i]) == key
    ensures PageOn(es, scope, i, key) && !ClearOn(es, i, key)
  {
  }

  lemma SamePages(l: Entries, es: seq<Event>, scope: iset<Event>, i: nat)
    requires i < |es| && Room(l, es, scope) && Pages(es[i], scope) && Harmless(l, es, scope)
    ensures PagesBatched(l, es, scope, i) == PagesAlone(l, es, scope, i)
  {
    hide PagesBatched, PagesAlone, Room, Key, Pages, PagedAgain, Changed, FirstIsNew, PageOn;
    var p := LastPage(es, scope, i, Key(es[i]));
    if p >= 0 {
      SameAfterPage(l, es, scope, p, i);
    } else {
      SameFirstPage(l, es, scope, i);
    }
  }

  // ----- the latch, keys in doubt left out ------------------------------------------------------------------

  ghost function Drop(l: Entries, keys: iset<string>): Entries {
    if l == [] then [] else (if l[0].0 in keys then [] else [l[0]]) + Drop(l[1..], keys)
  }

  lemma {:induction false} DropConcat(a: Entries, b: Entries, keys: iset<string>)
    ensures Drop(a + b, keys) == Drop(a, keys) + Drop(b, keys)
    decreases |a|
  {
    if a == [] {
      assert a + b == b;
    } else {
      assert (a + b)[1..] == a[1..] + b && (a + b)[0] == a[0];
      DropConcat(a[1..], b, keys);
      var h, x, y := if a[0].0 in keys then [] else [a[0]], Drop(a[1..], keys), Drop(b, keys);
      assert h + (x + y) == (h + x) + y;
    }
  }

  /** Removing a key that is dropped anyway changes nothing; removing it first is dropping it too. */
  lemma {:induction false} DropRemove(l: Entries, keys: iset<string>, key: string)
    ensures Drop(Remove(l, key), keys) == Drop(l, keys + iset{key})
    decreases |l|
  {
    if l != [] {
      DropRemove(l[1..], keys, key);
      DropConcat(if l[0].0 == key then [] else [l[0]], Remove(l[1..], key), keys);
      assert [l[0]][1..] == [] && Drop([], keys) == [];
      assert Drop([l[0]], keys) == if l[0].0 in keys then [] else [l[0]];
    }
  }

  /** A clear changes nothing where the keys it matches are dropped. */
  lemma {:induction false} DropCleared(l: Entries, keys: iset<string>, c: Event)
    requires forall i :: 0 <= i < |l| && Matches(c, l[i].0) ==> l[i].0 in keys
    ensures Drop(Cleared(l, c), keys) == Drop(l, keys)
    decreases |l|
  {
    hide Matches;
    if l != [] {
      DropCleared(l[1..], keys, c);
      DropConcat(if Matches(c, l[0].0) then [] else [l[0]], Cleared(l[1..], c), keys);
      assert [l[0]][1..] == [] && Drop([], keys) == [];
      assert Drop([l[0]], keys) == if l[0].0 in keys then [] else [l[0]];
    }
  }

  lemma {:induction false} DropAbsent(l: Entries, keys: iset<string>)
    requires forall key :: key in keys ==> Get(l, key).None?
    ensures Drop(l, keys) == l
    decreases |l|
  {
    if l != [] {
      assert Get(l, l[0].0).Some?;
      forall key | key in keys ensures Get(l[1..], key).None? {
        assert Get(l, key).None?;
      }
      DropAbsent(l[1..], keys);
    }
  }

  /** The keys in doubt before event `i`: those with a clear behind their last page, already met or not. */
  ghost predicate InDoubt(es: seq<Event>, scope: iset<Event>, i: int, key: string) {
    exists j :: ClearOn(es, j, key) && NoPageIn(es, scope, j, i, key)
  }

  ghost function Doubtful(es: seq<Event>, scope: iset<Event>, i: int): iset<string> {
    iset key | InDoubt(es, scope, i, key)
  }

  /** A page of another key, or an event that is no page, leaves a key in doubt or not. */
  lemma DoubtKept(es: seq<Event>, scope: iset<Event>, i: nat, key: string)
    requires i < |es| && !PageOn(es, scope, i, key)
    ensures InDoubt(es, scope, i + 1, key) == InDoubt(es, scope, i, key)
  {
    hide PageOn, ClearOn;
    if InDoubt(es, scope, i, key) {
      var j :| ClearOn(es, j, key) && NoPageIn(es, scope, j, i, key);
      assert NoPageIn(es, scope, j, i + 1, key);
    }
    if InDoubt(es, scope, i + 1, key) {
      var j :| ClearOn(es, j, key) && NoPageIn(es, scope, j, i + 1, key);
      assert NoPageIn(es, scope, j, i, key);
    }
  }

  /** A page can only take its key out of doubt. */
  lemma DoubtShrinks(es: seq<Event>, scope: iset<Event>, i: nat, key: string)
    requires i < |es| && InDoubt(es, scope, i + 1, key)
    ensures InDoubt(es, scope, i, key)
  {
    hide PageOn, ClearOn;
    var j :| ClearOn(es, j, key) && NoPageIn(es, scope, j, i + 1, key);
    assert NoPageIn(es, scope, j, i, key);
  }

  lemma DoubtAhead(es: seq<Event>, scope: iset<Event>, i: int, j: int, key: string)
    requires i <= j && ClearOn(es, j, key)
    ensures InDoubt(es, scope, i, key)
  {
    assert NoPageIn(es, scope, j, i, key);
  }

  /** A key whose doubt a page ends was cleared before it and not paged since: alone, the page prints. */
  lemma DoubtEnds(l: Entries, es: seq<Event>, scope: iset<Event>, i: nat)
    requires i < |es| && Room(l, es, scope) && Pages(es[i], scope)
    requires InDoubt(es, scope, i, Key(es[i])) && !InDoubt(es, scope, i + 1, Key(es[i]))
    ensures PagesAlone(l, es, scope, i)
  {
    hide Key, Pages, Get, Room, At;
    var key := Key(es[i]);
    var j :| ClearOn(es, j, key) && NoPageIn(es, scope, j, i, key);
    PageNotClear(es, scope, i, key);
    if j < i {
      ValueGone(l, es, scope, j, i, key);
    } else {
      DoubtAhead(es, scope, i + 1, j, key);
    }
  }

  /** Both latches, the keys in doubt left out. */
  ghost predicate SameButDoubtful(l: Entries, es: seq<Event>, scope: iset<Event>, i: nat)
    requires i <= |es|
  {
    var d := Doubtful(es, scope, i);
    Drop(At(ClearAll(l, es), es, scope, i, false).latch, d) == Drop(At(l, es, scope, i, true).latch, d)
  }

  /** Admitting a fresh page: the key moves to the end on both sides. */
  lemma FreshKeepsSame(a: Entries, b: Entries, e: Event, d: iset<string>, d': iset<string>)
    requires |a| < LATCH_MAX_KEYS && |b| < LATCH_MAX_KEYS && Fresh(a, e) && Fresh(b, e)
    requires Drop(a, d) == Drop(b, d) && d + iset{Key(e)} == d' + iset{Key(e)}
    ensures Drop(Admitted(a, e), d') == Drop(Admitted(b, e), d')
  {
    hide Key, Get, Remove, Drop;
    var key, entry := Key(e), (Key(e), e.marker);
    RemoveSize(a, key);
    RemoveSize(b, key);
    DropConcat(Remove(a, key), [entry], d');
    DropConcat(Remove(b, key), [entry], d');
    DropRemove(a, d', key);
    DropRemove(b, d', key);
    DropRemove(a, d, key);
    DropRemove(b, d, key);
    DropTwice(a, b, d, key);
  }

  lemma DropTwice(a: Entries, b: Entries, d: iset<string>, key: string)
    requires Drop(a, d) == Drop(b, d)
    ensures Drop(a, d + iset{key}) == Drop(b, d + iset{key})
  {
    DropMore(a, d, key);
    DropMore(b, d, key);
  }

  lemma {:induction false} DropMore(l: Entries, d: iset<string>, key: string)
    ensures Drop(l, d + iset{key}) == Remove(Drop(l, d), key)
    decreases |l|
  {
    if l != [] {
      DropMore(l[1..], d, key);
      RemoveConcat(if l[0].0 in d then [] else [l[0]], Drop(l[1..], d), key);
      assert [l[0]][1..] == [] && Remove([], key) == [];
      assert Remove([l[0]], key) == if l[0].0 == key then [] else [l[0]];
    }
  }

  lemma SameAfterClear(l: Entries, es: seq<Event>, scope: iset<Event>, i: nat)
    requires i < |es| && !Pages(es[i], scope) && SameButDoubtful(l, es, scope, i)
    ensures SameButDoubtful(l, es, scope, i + 1)
  {
    hide Drop, Matches, Resolves, IsWatched, Key, Cleared, Admitted, Fresh, ClearAll;
    var d, d' := Doubtful(es, scope, i), Doubtful(es, scope, i + 1);
    forall key ensures InDoubt(es, scope, i + 1, key) == InDoubt(es, scope, i, key) {
      DoubtKept(es, scope, i, key);
    }
    assert d == d';
    if Resolves(es[i]) {
      var a := At(l, es, scope, i, true).latch;
      forall x | 0 <= x < |a| && Matches(es[i], a[x].0) ensures a[x].0 in d {
        assert ClearOn(es, i, a[x].0) && NoPageIn(es, scope, i, i, a[x].0);
      }
      DropCleared(a, d, es[i]);
    }
  }

  lemma SameAfterAdmit(l: Entries, es: seq<Event>, scope: iset<Event>, i: nat)
    requires i < |es| && Pages(es[i], scope) && Room(l, es, scope) && SameButDoubtful(l, es, scope, i)
    requires PagesBatched(l, es, scope, i) == PagesAlone(l, es, scope, i)
    ensures SameButDoubtful(l, es, scope, i + 1)
  {
    hide Drop, Matches, Key, Cleared, Fresh, ClearAll, InDoubt, Get, Remove, IsWatched, Resolves;
    var d, d', key := Doubtful(es, scope, i), Doubtful(es, scope, i + 1), Key(es[i]);
    forall other | other != key ensures InDoubt(es, scope, i + 1, other) == InDoubt(es, scope, i, other) {
      DoubtKept(es, scope, i, other);
    }
    assert d + iset{key} == d' + iset{key};
    if PagesAlone(l, es, scope, i) {
      RoomAt(l, es, scope, i, true);
      RoomCleared(l, es, scope);
      RoomAt(ClearAll(l, es), es, scope, i, false);
      FreshKeepsSame(At(ClearAll(l, es), es, scope, i, false).latch, At(l, es, scope, i, true).latch, es[i], d, d');
    } else {
      if InDoubt(es, scope, i, key) && !InDoubt(es, scope, i + 1, key) {
        DoubtEnds(l, es, scope, i);
      }
      if InDoubt(es, scope, i + 1, key) {
        DoubtShrinks(es, scope, i, key);
      }
      assert d == d';
    }
  }

  /** As long as no late clear shows, the lines are the same and the latches differ only in doubtful keys. */
  lemma {:induction false} SameSoFar(l: Entries, es: seq<Event>, scope: iset<Event>, i: nat)
    requires i <= |es| && Room(l, es, scope) && Harmless(l, es, scope)
    ensures SameButDoubtful(l, es, scope, i)
    ensures At(ClearAll(l, es), es, scope, i, false).lines == At(l, es, scope, i, true).lines
    decreases i
  {
    hide Room, Harmless, SameButDoubtful, Fresh, Admitted, Cleared, ClearAll, Pages, Resolves;
    if i == 0 {
      SameAtStart(l, es, scope);
    } else {
      SameSoFar(l, es, scope, i - 1);
      if Pages(es[i - 1], scope) {
        SamePages(l, es, scope, i - 1);
        SameAfterAdmit(l, es, scope, i - 1);
      } else {
        SameAfterClear(l, es, scope, i - 1);
      }
    }
  }

  lemma {:induction false} DropClearAll(l: Entries, es: seq<Event>, keys: iset<string>)
    requires forall i, key :: ClearOn(es, i, key) ==> key in keys
    ensures Drop(ClearAll(l, es), keys) == Drop(l, keys)
    decreases |es|
  {
    hide Drop, Matches, Resolves, Cleared;
    if es != [] {
      if Resolves(es[0]) {
        forall i | 0 <= i < |l| && Matches(es[0], l[i].0) ensures l[i].0 in keys {
          assert ClearOn(es, 0, l[i].0);
        }
        DropCleared(l, keys, es[0]);
      }
      forall i, key | ClearOn(es[1..], i, key) ensures key in keys {
        assert ClearOn(es, i + 1, key);
      }
      DropClearAll(if Resolves(es[0]) then Cleared(l, es[0]) else l, es[1..], keys);
    }
  }

  lemma SameAtStart(l: Entries, es: seq<Event>, scope: iset<Event>)
    ensures SameButDoubtful(l, es, scope, 0)
  {
    hide Drop, ClearAll, Matches, Resolves, Pages;
    forall j, key | ClearOn(es, j, key) ensures key in Doubtful(es, scope, 0) {
      assert NoPageIn(es, scope, j, 0, key);
    }
    DropClearAll(l, es, Doubtful(es, scope, 0));
  }

  /** At the end, a key in doubt was never paged, and neither side has it. */
  lemma NoDoubtLeft(l: Entries, es: seq<Event>, scope: iset<Event>, key: string)
    requires Room(l, es, scope) && PagedAgain(es, scope) && InDoubt(es, scope, |es|, key)
    ensures Get(At(l, es, scope, |es|, true).latch, key).None?
    ensures Get(At(ClearAll(l, es), es, scope, |es|, false).latch, key).None?
  {
    hide Get, Room, Pages, Key, Resolves, Matches, ClearAll;
    var n := |es|;
    var j :| ClearOn(es, j, key) && NoPageIn(es, scope, j, n, key);
    ValueGone(l, es, scope, j, n, key);
    assert !exists m :: j < m && PageOn(es, scope, m, key);
    forall i | 0 <= i < n ensures !PageOn(es, scope, i, key) {
    }
    RoomCleared(l, es, scope);
    ValueKept(ClearAll(l, es), es, scope, 0, n, false, key);
    ClearAllGet(l, es, key);
    assert !NoClearIn(es, 0, n, key);
  }

  lemma HarmlessAgrees(l: Entries, es: seq<Event>, scope: iset<Event>)
    requires Room(l, es, scope) && Harmless(l, es, scope)
    ensures Batch(l, es, scope) == OneByOne(l, es, scope)
  {
    hide Room, PagedAgain, Changed, FirstIsNew, At, ClearAll, Drop, Get, InDoubt, Batch, OneByOne;
    BothAt(l, es, scope);
    SameSoFar(l, es, scope, |es|);
    var a, b := At(ClearAll(l, es), es, scope, |es|, false).latch, At(l, es, scope, |es|, true).latch;
    var d := Doubtful(es, scope, |es|);
    forall key | key in d ensures Get(a, key).None? && Get(b, key).None? {
      NoDoubtLeft(l, es, scope, key);
    }
    DropAbsent(a, d);
    DropAbsent(b, d);
  }

  // ----- and when they do not ---------------------------------------------------------------------------------

  /** The lines tell which events paged. */
  lemma {:induction false} LineIffPaged(l: Entries, es: seq<Event>, scope: iset<Event>, n: nat, clearing: bool, i: nat)
    requires i < |es| && n <= |es| && DistinctIds(es)
    ensures es[i] in At(l, es, scope, n, clearing).lines
            <==> i < n && Pages(es[i], scope) && Fresh(At(l, es, scope, i, clearing).latch, es[i])
    decreases n
  {
    hide Fresh, Admitted, Cleared, Pages, Resolves;
    if n > 0 {
      LineIffPaged(l, es, scope, n - 1, clearing, i);
      if i != n - 1 {
        assert es[i] != es[n - 1];
      }
    }
  }

  /** Equal outcomes mean that every event pages on both sides or on neither. */
  lemma AgreePages(l: Entries, es: seq<Event>, scope: iset<Event>, i: nat)
    requires DistinctIds(es) && i < |es| && Pages(es[i], scope) && Batch(l, es, scope) == OneByOne(l, es, scope)
    ensures PagesBatched(l, es, scope, i) == PagesAlone(l, es, scope, i)
  {
    hide At, ClearAll, Batch, OneByOne, Fresh, Pages, DistinctIds;
    BothAt(l, es, scope);
    LineIffPaged(l, es, scope, |es|, true, i);
    LineIffPaged(ClearAll(l, es), es, scope, |es|, false, i);
  }

  lemma AgreesPagedAgain(l: Entries, es: seq<Event>, scope: iset<Event>)
    requires Room(l, es, scope) && Batch(l, es, scope) == OneByOne(l, es, scope)
    ensures PagedAgain(es, scope)
  {
    hide At, ClearAll, Batch, OneByOne, Room, Get, Pages, Key, Resolves, Matches;
    BothAt(l, es, scope);
    RoomCleared(l, es, scope);
    forall i, j, key | i < j && PageOn(es, scope, i, key) && ClearOn(es, j, key)
      ensures exists n :: j < n && PageOn(es, scope, n, key)
    {
      if forall n :: j < n ==> !PageOn(es, scope, n, key) {
        var p := LastPage(es, scope, |es|, key);
        ValueOfPage(ClearAll(l, es), es, scope, p, |es|, false, key);
        ClearNotPage(es, scope, j, key);
        assert NoPageIn(es, scope, j, |es|, key);
        ValueGone(l, es, scope, j, |es|, key);
        assert false;
      }
    }
  }

  lemma ClearNotPage(es: seq<Event>, scope: iset<Event>, j: int, key: string)
    requires ClearOn(es, j, key)
    ensures !PageOn(es, scope, j, key)
  {
  }

  lemma AgreesChanged(l: Entries, es: seq<Event>, scope: iset<Event>)
    requires Room(l, es, scope) && DistinctIds(es) && Batch(l, es, scope) == OneByOne(l, es, scope)
    ensures Changed(es, scope)
  {
    hide At, ClearAll, Batch, OneByOne, Room, Get, Pages, Key, Resolves, Matches, DistinctIds;
    RoomCleared(l, es, scope);
    forall i, j, n, key |
      && i < j < n && PageOn(es, scope, i, key) && ClearOn(es, j, key) && PageOn(es, scope, n, key)
      && NoPageIn(es, scope, i + 1, n, key)
      ensures es[i].marker != es[n].marker
    {
      AgreePages(l, es, scope, n);
      ValueOfPage(ClearAll(l, es), es, scope, i, n, false, key);
      NoPageLess(es, scope, i + 1, j, n, key);
      ValueGone(l, es, scope, j, n, key);
    }
  }

  lemma AgreesFirstIsNew(l: Entries, es: seq<Event>, scope: iset<Event>)
    requires Room(l, es, scope) && DistinctIds(es) && Batch(l, es, scope) == OneByOne(l, es, scope)
    ensures FirstIsNew(l, es, scope)
  {
    hide ClearAll, Batch, OneByOne, Room, Get, Pages, Key, Resolves, Matches, DistinctIds;
    RoomCleared(l, es, scope);
    forall i, j, key |
      && i < j && PageOn(es, scope, i, key) && ClearOn(es, j, key)
      && NoPageIn(es, scope, 0, i, key) && NoClearIn(es, 0, i, key)
      ensures Get(l, key) != Some(es[i].marker)
    {
      AgreePages(l, es, scope, i);
      ValueKept(l, es, scope, 0, i, true, key);
      ValueKept(ClearAll(l, es), es, scope, 0, i, false, key);
      ClearAllGet(l, es, key);
      assert !NoClearIn(es, 0, |es|, key);
    }
  }

  /** Batching, exactly: where the latch has room, one `step` over a batch gives the lines and the latch
      of one event at a time if and only if, for every key cleared behind a page of the batch, the key is
      paged again behind the clear, that page has another fingerprint than the one before the clear, and
      the key's first page is not suppressed by the latch. */
  lemma BatchingExact(l: Entries, es: seq<Event>, scope: iset<Event>)
    requires Room(l, es, scope) && DistinctIds(es)
    ensures Batch(l, es, scope) == OneByOne(l, es, scope) <==> Harmless(l, es, scope)
  {
    hide Room, DistinctIds, Batch, OneByOne, PagedAgain, Changed, FirstIsNew;
    if Harmless(l, es, scope) {
      HarmlessAgrees(l, es, scope);
    }
    if Batch(l, es, scope) == OneByOne(l, es, scope) {
      AgreesPagedAgain(l, es, scope);
      AgreesChanged(l, es, scope);
      AgreesFirstIsNew(l, es, scope);
    }
  }

  /** No resolving event clears the key of an earlier paging event. */
  ghost predicate NoLateClear(es: seq<Event>, scope: iset<Event>) {
    forall i, j :: 0 <= i < j < |es| && Pages(es[i], scope) && Resolves(es[j]) ==> !Matches(es[j], Key(es[i]))
  }

  /** In particular batching changes nothing where no event clears a key paged earlier. */
  lemma BatchingChangesNothing(l: Entries, es: seq<Event>, scope: iset<Event>)
    requires NoLateClear(es, scope) && Room(l, es, scope)
    ensures Batch(l, es, scope) == OneByOne(l, es, scope)
  {
    hide Room, Batch, OneByOne, Pages, Resolves, Matches, Key;
    forall i, j, key | i < j && PageOn(es, scope, i, key) ensures !ClearOn(es, j, key) {
    }
    HarmlessAgrees(l, es, scope);
  }

  /** The line that batching loses: a page, a clear of its key, and the same page again. */
  lemma LostLine(l: Entries, a: Event, c: Event, b: Event, scope: iset<Event>)
    requires Room(l, [a, c, b], scope) && Pages(a, scope) && Pages(b, scope) && a.id != b.id
    requires Key(a) == Key(b) && a.marker == b.marker && Resolves(c) && Matches(c, Key(a))
    ensures b !in Batch(l, [a, c, b], scope).lines && b in OneByOne(l, [a, c, b], scope).lines
  {
    hide Batch, OneByOne, Room, Pages, Key, Get, Resolves, Matches, ClearAll, At;
    var es, key := [a, c, b], Key(a);
    BothAt(l, es, scope);
    RoomCleared(l, es, scope);
    assert PageOn(es, scope, 0, key) && ClearOn(es, 1, key);
    ClearNotPage(es, scope, 1, key);
    ValueOfPage(ClearAll(l, es), es, scope, 0, 2, false, key);
    ValueGone(l, es, scope, 1, 2, key);
    LineLast(l, es, scope, true);
    LineLast(ClearAll(l, es), es, scope, false);
  }

  /** The last of three events is a line exactly when it pages. */
  lemma LineLast(l: Entries, es: seq<Event>, scope: iset<Event>, clearing: bool)
    requires |es| == 3 && es[0] != es[2] && es[1] != es[2] && Pages(es[2], scope)
    ensures es[2] in At(l, es, scope, 3, clearing).lines <==> Fresh(At(l, es, scope, 2, clearing).latch, es[2])
  {
    hide Fresh, Admitted, Cleared, Pages, Resolves;
    var p0, p1, p2 := At(l, es, scope, 0, clearing), At(l, es, scope, 1, clearing), At(l, es, scope, 2, clearing);
    assert p0.lines == [] && es[2] !in p1.lines && es[2] !in p2.lines;
  }

  /** A page, then an event that clears some other key. */
  lemma TwoEvents(l: Entries, e: Event, c: Event, scope: iset<Event>)
    requires Pages(e, scope) && Resolves(c)
    ensures Batch(l, [e, c], scope).latch == Admitted(Cleared(l, c), e)
    ensures OneByOne(l, [e, c], scope).latch == Cleared(Admitted(l, e), c)
  {
    hide Key, Get, Admitted, Fresh, Resolves, IsWatched, Cleared, Matches;
    assert [e, c][1..] == [c] && [c][1..] == [];
    SingleBatch(l, e, scope);
    SingleBatch(Admitted(l, e), c, scope);
    assert ClearAll(l, [e, c]) == Cleared(l, c) by { assert ClearAll(Cleared(l, c), []) == Cleared(l, c); }
    var after := Cleared(l, c);
    assert AdmitAll(Admitted(after, e), [c], scope).latch == Admitted(after, e) by {
      assert AdmitAll(Admitted(after, e), [], scope).latch == Admitted(after, e);
    }
    var latch := Cleared(Admitted(l, e), c);
    assert OneByOne(Admitted(l, e), [c], scope).latch == latch by {
      assert OneByOne(latch, [], scope).latch == latch;
    }
  }

  /** Room in the latch is needed too: with a full latch, one event at a time evicts the oldest key
      before the clear makes room, and the batch does not. */
  lemma FullLatchMatters(x: (string, string), m: Entries, e: Event, c: Event, scope: iset<Event>)
    requires |m| == LATCH_MAX_KEYS - 1 && Get(m, x.0).None? && Get([x] + m, Key(e)).None? && x.0 != Key(e)
    requires Pages(e, scope) && Resolves(c) && !Matches(c, x.0) && Matches(c, m[0].0)
    ensures Batch([x] + m, [e, c], scope).latch != OneByOne([x] + m, [e, c], scope).latch
  {
    hide Key, Get, Remove, Resolves, IsWatched, Matches, Cleared, Batch, OneByOne;
    var l := [x] + m;
    var entry := (Key(e), e.marker);
    TwoEvents(l, e, c, scope);
    RemoveAbsent(l, Key(e));
    assert (l + [entry])[1..] == m + [entry];
    GetConcat(m, [entry], x.0);
    OneGet(entry, x.0);
    ClearedAbsent(m + [entry], c, x.0);
    ClearedShrinks(l, c, 1);
    ClearedGet(l, c, x.0);
    GetConcat([x], m, x.0);
    OneGet(x, x.0);
    AdmittedGet(Cleared(l, c), e, x.0);
  }

  lemma {:induction false} ClearedShrinks(l: Entries, c: Event, i: nat)
    requires i < |l| && Matches(c, l[i].0)
    ensures |Cleared(l, c)| < |l|
  {
    hide Matches;
    ClearedSize(l[1..], c);
    if i > 0 {
      ClearedShrinks(l[1..], c, i - 1);
    }
  }

  /** A watched event of client "c" for a ticket, with a status. */
  function Sample(id: string, ticket: string, status: string): Event {
    Event(id, "session.timed_out", "c", ticket, "", true, status, "", "", "")
  }

  function Tag(i: nat): string {
    seq(i + 1, _ => 'x')
  }

  ghost function SampleLatch(n: nat): Entries {
    seq(n, i requires 0 <= i < n => (Key(Sample("", "t", Tag(i))), ""))
  }

  lemma SampleKey(id: string, ticket: string, status: string)
    requires NoBar(ticket) && ticket != ""
    ensures KeyParts(Key(Sample(id, ticket, status))) == Some(("session.timed_out", "c", ticket))
  {
    KeyRoundTrip(Sample(id, ticket, status));
  }

  lemma {:induction false} AbsentFrom(l: Entries, key: string)
    requires forall i :: 0 <= i < |l| ==> l[i].0 != key
    ensures Get(l, key).None?
  {
    if l != [] {
      AbsentFrom(l[1..], key);
    }
  }

  lemma SampleIsWatched(id: string, ticket: string, status: string)
    ensures IsWatched(Sample(id, ticket, status).typ) && !Resolves(Sample(id, ticket, status))
  {
    assert "session.timed_out" != LIVENESS;
  }

  function Transition(ticket: string): Event {
    Event("", "task.transition", "c", ticket, "", true, "", "", "", "")
  }

  lemma TransitionClears(ticket: string, key: string)
    requires ticket != ""
    ensures Resolves(Transition(ticket)) && (Matches(Transition(ticket), key) <==> SlotMatches(key, None, "c", ticket))
  {
    hide SlotMatches;
    assert "task.transition" != LIVENESS && "task.transition" != "lane.resumed" && "task.transition" != "dispatch.tick";
  }

  /** Such a batch exists: a full latch, a page for a new ticket, and a transition of another one. */
  lemma FullLatchExample()
    ensures var l := [(Key(Sample("u", "u", "x")), "")] + SampleLatch(LATCH_MAX_KEYS - 1);
            var e, c := Sample("v", "v", "x"), Transition("t");
            && |l| == LATCH_MAX_KEYS && NoLateClear([e, c], iset{e})
            && Batch(l, [e, c], iset{e}) != OneByOne(l, [e, c], iset{e})
  {
    hide Key, KeyParts, Tag, IsWatched, Resolves, Matches, Get, Batch, OneByOne, Sample, Transition;
    var x, m := (Key(Sample("u", "u", "x")), ""), SampleLatch(LATCH_MAX_KEYS - 1);
    var e, c := Sample("v", "v", "x"), Transition("t");
    SampleKey("u", "u", "x");
    SampleKey("v", "v", "x");
    SampleIsWatched("v", "v", "x");
    TransitionClears("t", x.0);
    TransitionClears("t", m[0].0);
    TransitionClears("t", Key(e));
    forall i | 0 <= i < |m| ensures KeyParts(m[i].0) == Some(("session.timed_out", "c", "t")) {
      SampleKey("", "t", Tag(i));
    }
    assert "t" != "u" && "t" != "v" && "u" != "v";
    AbsentFrom(m, x.0);
    AbsentFrom([x] + m, Key(e));
    FullLatchMatters(x, m, e, c, iset{e});
  }

  /** Such a batch exists too: a page for a ticket, its transition, and the same page again. */
  lemma LostLineExample(l: Entries)
    requires |l| + 2 <= LATCH_MAX_KEYS
    ensures var a, c, b := Sample("a", "t", "x"), Transition("t"), Sample("b", "t", "x");
            b !in Batch(l, [a, c, b], iset{a, b}).lines && b in OneByOne(l, [a, c, b], iset{a, b}).lines
  {
    hide Key, KeyParts, IsWatched, Resolves, Matches, Get, Batch, OneByOne;
    var a, c, b := Sample("a", "t", "x"), Transition("t"), Sample("b", "t", "x");
    var scope := iset{a, b};
    SampleKey("a", "t", "x");
    SampleIsWatched("a", "t", "x");
    SampleIsWatched("b", "t", "x");
    TransitionClears("t", Key(a));
    SameSampleKey();
    assert "a" != "b";
    var es := [a, c, b];
    assert es[1..] == [c, b] && [c, b][1..] == [b] && [b][1..] == [];
    assert PageCount([], scope) == 0 && PageCount([b], scope) == 1 && PageCount([c, b], scope) == 1;
    assert PageCount(es, scope) == 2;
    LostLine(l, a, c, b, scope);
  }

  lemma SameSampleKey()
    ensures Key(Sample("a", "t", "x")) == Key(Sample("b", "t", "x"))
  {
  }
}
