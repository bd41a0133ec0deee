/** The attention stream's loop (`attention_stream.py`): poll, print, then save. */
module AttentionStream {
  import opened Common
  import opened AttentionLatch

  /** The part of `AttentionStream` that one `step` updates. */
  class Watcher {
    var latch: Latch
    var unsaved: bool

    constructor (raw: Entries)
      ensures fresh(latch) && latch.entries == raw && !unsaved
    {
      latch := new Latch(raw);
      unsaved := false;
    }

    /** `step`, given what the poll returned and the events its scope accepts. */
    method Step(events: seq<Event>, scope: set<Event>) returns (lines: seq<Event>)
      modifies this`unsaved, latch
      ensures var out := Batch(old(latch.entries), events, iset e | e in scope);
              lines == out.lines && latch.entries == out.latch
      ensures unsaved == (old(unsaved) || events != [])
    {
      ghost var seen := iset e | e in scope;
      ghost var before := latch.entries;
      if events == [] {
        return [];
      }
      unsaved := true;
      hide Resolves, Cleared, Admitted, Fresh, IsWatched;
      assert events[0..] == events;
      for i := 0 to |events|
        invariant unsaved && ClearAll(before, events) == ClearAll(latch.entries, events[i..])
      {
        assert events[i..][1..] == events[i + 1..] && events[i..][0] == events[i];
        var resolving := latch.Clear(events[i]);
      }
      ghost var cleared := latch.entries;
      lines := [];
      for i := 0 to |events|
        invariant unsaved
        invariant var rest := AdmitAll(latch.entries, events[i..], seen);
                  AdmitAll(cleared, events, seen) == Outcome(lines + rest.lines, rest.latch)
      {
        assert events[i..][1..] == events[i + 1..] && events[i..][0] == events[i];
        if !Resolves(events[i]) && IsWatched(events[i].typ) && events[i] in scope {
          ghost var l := latch.entries;
          var pages := latch.Admit(events[i]);
          if pages {
            ghost var rest := AdmitAll(latch.entries, events[i + 1..], seen);
            assert lines + ([events[i]] + rest.lines) == (lines + [events[i]]) + rest.lines;
            lines := lines + [events[i]];
          }
        }
      }
    }
  }

  // ----- crashes and restarts ----------------------------------------------------------------------

  /** One saved poll: what it read, the scope it was judged by, and where in the output its lines start. */
  datatype Poll = Poll(events: seq<Event>, scope: iset<Event>, at: nat)

  /** The saved cursor record: how many inbox events precede the resume point, and the latch. */
  datatype Record = Record(cursor: Option<nat>, latch: Entries)

  datatype Process =
    | Off
    | Watching(pos: nat, latch: Entries)
    | Printing(pos: nat, latch: Entries, pending: seq<Event>, scope: iset<Event>, at: nat)

  /** `output` is every line ever flushed, in order. `origin` is where the guarantee starts: the position
      of the last arm that was no resume, with the latch it loaded in `base`; `history` lists the
      batches saved since. */
  datatype World = World(inbox: seq<Event>, disk: Option<Record>, process: Process, output: seq<Event>,
                         origin: nat, base: Entries, history: seq<Poll>)

  datatype Step =
    | Append(event: Event)
    | Arm(since: Option<nat>)
    | Read(upTo: nat, scope: iset<Event>)
    | PrintLine
    | Save
    | Crash

  ghost function Position(cursor: Option<nat>): nat {
    if cursor.Some? then cursor.value else 0
  }

  /** `_resolve_start`: an explicit start, else a saved cursor, else the newest event. */
  ghost function StartCursor(w: World, since: Option<nat>): Option<nat> {
    if since.Some? then since
    else if w.disk.Some? && w.disk.value.cursor.Some? then w.disk.value.cursor
    else if w.inbox == [] then None
    else Some(|w.inbox|)
  }

  /** Where a restart from the saved record resumes. */
  ghost function SavedPosition(w: World): nat {
    if w.disk.Some? then Position(w.disk.value.cursor) else w.origin
  }

  ghost predicate Resumes(w: World, since: Option<nat>) {
    since.None? && w.disk.Some? && w.disk.value.cursor.Some?
  }

  ghost function SavedLatch(w: World): Entries {
    if w.disk.Some? then w.disk.value.latch else []
  }

  ghost predicate NewId(inbox: seq<Event>, id: string) {
    forall i :: 0 <= i < |inbox| ==> inbox[i].id != id
  }

  ghost predicate CanStep(w: World, s: Step) {
    match s
    case Append(event) => NewId(w.inbox, event.id)
    case Arm(since) => w.process.Off? && (since.Some? ==> since.value <= |w.inbox|)
    case Read(upTo, _) => w.process.Watching? && w.process.pos < upTo <= |w.inbox|
    case PrintLine => w.process.Printing? && w.process.pending != []
    case Save => w.process.Printing? && w.process.pending == [] && SavedPosition(w) <= w.process.pos <= |w.inbox|
    case Crash => true
  }

  ghost function Arrived(w: World, since: Option<nat>): World {
    var cursor, latch := StartCursor(w, since), SavedLatch(w);
    var armed := w.(disk := Some(Record(cursor, latch)), process := Watching(Position(cursor), latch));
    if Resumes(w, since) then armed else armed.(origin := Position(cursor), base := latch, history := [])
  }

  ghost function Polled(w: World, upTo: nat, scope: iset<Event>): Process
    requires CanStep(w, Read(upTo, scope))
  {
    var out := Batch(w.process.latch, w.inbox[w.process.pos..upTo], scope);
    Printing(upTo, out.latch, out.lines, scope, |w.output|)
  }

  ghost function Saved(w: World): World
    requires CanStep(w, Save)
  {
    var p := w.process;
    w.(disk := Some(Record(Some(p.pos), p.latch)), process := Watching(p.pos, p.latch),
       history := w.history + [Poll(w.inbox[SavedPosition(w)..p.pos], p.scope, p.at)])
  }

  ghost function After(w: World, s: Step): World
    requires CanStep(w, s)
  {
    match s
    case Append(event) => w.(inbox := w.inbox + [event])
    case Arm(since) => Arrived(w, since)
    case Read(upTo, scope) => w.(process := Polled(w, upTo, scope))
    case PrintLine =>
      w.(process := w.process.(pending := w.process.pending[1..]), output := w.output + [w.process.pending[0]])
    case Save => Saved(w)
    case Crash => w.(process := Off)
  }

  // ----- what a batch does to the latch ----------------------------------------------------------------

  /** Every entry of the latch is in `good`. */
  ghost predicate AllGood(l: Entries, good: iset<(string, string)>) {
    forall i :: 0 <= i < |l| ==> l[i] in good
  }

  ghost predicate NoClear(es: seq<Event>, key: string) {
    forall i :: 0 <= i < |es| && Resolves(es[i]) ==> !Matches(es[i], key)
  }

  lemma {:induction false} ClearedSubset(l: Entries, c: Event)
    ensures forall x :: x in Cleared(l, c) ==> x in l && !Matches(c, x.0)
  {
    hide Matches;
    if l != [] {
      ClearedSubset(l[1..], c);
    }
  }

  lemma {:induction false} RemoveSubset(l: Entries, key: string)
    ensures forall x :: x in Remove(l, key) ==> x in l
  {
    if l != [] {
      RemoveSubset(l[1..], key);
    }
  }

  lemma {:induction false} GetIn(l: Entries, key: string)
    requires Get(l, key).Some?
    ensures (key, Get(l, key).value) in l
  {
    if l[0].0 != key {
      GetIn(l[1..], key);
    }
  }

  /** What the clears of a batch leave was there before and is matched by none of them. */
  lemma {:induction false} ClearAllLeaves(l: Entries, es: seq<Event>)
    ensures forall x :: x in ClearAll(l, es) ==> x in l && NoClear(es, x.0)
    decreases |es|
  {
    hide Cleared, Resolves, Matches;
    if es != [] {
      var l' := if Resolves(es[0]) then Cleared(l, es[0]) else l;
      ClearedSubset(l, es[0]);
      ClearAllLeaves(l', es[1..]);
      forall x | x in ClearAll(l, es) ensures x in l && NoClear(es, x.0) {
        assert x in l' && NoClear(es[1..], x.0);
        forall i | 0 <= i < |es| && Resolves(es[i]) ensures !Matches(es[i], x.0) {
          if i > 0 {
            assert es[i] == es[1..][i - 1];
          }
        }
      }
    }
  }

  lemma AdmittedGood(l: Entries, e: Event, good: iset<(string, string)>)
    requires AllGood(l, good) && (Fresh(l, e) ==> (Key(e), e.marker) in good)
    ensures AllGood(Admitted(l, e), good) && (Key(e), e.marker) in good
  {
    hide Key, Get, Remove;
    if Fresh(l, e) {
      RemoveSubset(l, Key(e));
      var grown := Remove(l, Key(e)) + [(Key(e), e.marker)];
      forall i | 0 <= i < |grown| ensures grown[i] in good {
        if i < |Remove(l, Key(e))| {
          assert grown[i] in l;
        }
      }
    } else {
      GetIn(l, Key(e));
    }
  }

  ghost predicate LinesGood(lines: seq<Event>, good: iset<(string, string)>) {
    forall i :: 0 <= i < |lines| ==> (Key(lines[i]), lines[i].marker) in good
  }

  /** If the latch and the lines are good, so is every page the batch considered. */
  lemma {:induction false} AdmitAllGood(l: Entries, es: seq<Event>, scope: iset<Event>, good: iset<(string, string)>)
    requires AllGood(l, good) && LinesGood(AdmitAll(l, es, scope).lines, good)
    ensures AllGood(AdmitAll(l, es, scope).latch, good)
    ensures forall i :: 0 <= i < |es| && Pages(es[i], scope) ==> (Key(es[i]), es[i].marker) in good
    decreases |es|
  {
    hide AllGood, Admitted, Fresh, Pages, Key;
    if es != [] {
      var lines := AdmitAll(l, es, scope).lines;
      if Pages(es[0], scope) {
        var rest := AdmitAll(Admitted(l, es[0]), es[1..], scope).lines;
        if Fresh(l, es[0]) {
          assert lines == [es[0]] + rest && lines[0] == es[0];
          assert forall i :: 0 <= i < |rest| ==> rest[i] == lines[i + 1];
        }
        AdmittedGood(l, es[0], good);
        AdmitAllGood(Admitted(l, es[0]), es[1..], scope, good);
      } else {
        AdmitAllGood(l, es[1..], scope, good);
      }
      forall i | 0 <= i < |es| && Pages(es[i], scope) ensures (Key(es[i]), es[i].marker) in good {
        if i > 0 {
          assert es[i] == es[1..][i - 1];
        }
      }
    }
  }

  lemma {:induction false} LinesFrom(l: Entries, es: seq<Event>, scope: iset<Event>)
    ensures forall e :: e in AdmitAll(l, es, scope).lines ==> e in es && Pages(e, scope)
    decreases |es|
  {
    hide Admitted, Fresh, Pages;
    if es != [] {
      LinesFrom(l, es[1..], scope);
      LinesFrom(Admitted(l, es[0]), es[1..], scope);
    }
  }

  // ----- the saved batches ------------------------------------------------------------------------------

  /** The latch the saved batches make of a start. */
  ghost function Replay(l: Entries, history: seq<Poll>): Entries
    decreases |history|
  {
    if history == [] then l
    else
      var n := |history| - 1;
      Batch(Replay(l, history[..n]), history[n].events, history[n].scope).latch
  }

  /** The lines batch `n` chose. */
  ghost function Lines(l: Entries, history: seq<Poll>, n: nat): seq<Event>
    requires n < |history|
  {
    Batch(Replay(l, history[..n]), history[n].events, history[n].scope).lines
  }

  ghost function Events(history: seq<Poll>): seq<Event>
    decreases |history|
  {
    if history == [] then [] else Events(history[..|history| - 1]) + history[|history| - 1].events
  }

  /** The lines of batch `n` are a stretch of the output, `at` to `at + |lines|`. */
  ghost predicate Flushed(base: Entries, history: seq<Poll>, output: seq<Event>, n: nat)
    requires n < |history|
  {
    var lines := Lines(base, history, n);
    history[n].at + |lines| <= |output| && output[history[n].at..][..|lines|] == lines
  }

  /** The lines of every saved batch end before `at`. */
  ghost predicate EndBefore(base: Entries, history: seq<Poll>, at: nat) {
    forall n :: 0 <= n < |history| ==> history[n].at + |Lines(base, history, n)| <= at
  }

  /** The batches were flushed in the order they were read, one after the other. */
  ghost predicate InOrder(base: Entries, history: seq<Poll>) {
    forall n :: 0 <= n < |history| ==> EndBefore(base, history[..n], history[n].at)
  }

  /** Line `m` of the output was flushed by saved batch `n`, which read its event. */
  ghost predicate FlushedBy(base: Entries, history: seq<Poll>, output: seq<Event>, n: nat, m: nat) {
    && n < |history| && m < |output|
    && history[n].at <= m < history[n].at + |Lines(base, history, n)|
    && output[m] in history[n].events && Pages(output[m], history[n].scope)
  }

  /** No batch from `lo` to `hi` holds an event that clears the key. */
  ghost predicate Unresolved(history: seq<Poll>, lo: nat, hi: nat, key: string)
    requires hi <= |history|
  {
    forall b :: lo <= b < hi ==> NoClear(history[b].events, key)
  }

  /** The page stands after `n` batches: it was in the latch at the start, or a line with its key and
      fingerprint was flushed, and no batch since has cleared the key. */
  ghost predicate Stands(base: Entries, history: seq<Poll>, output: seq<Event>, n: nat, key: string, marker: string)
    requires n <= |history|
  {
    || ((key, marker) in base && Unresolved(history, 0, n, key))
    || exists b: nat, m: nat :: b < n && FlushedBy(base, history, output, b, m)
                      && Key(output[m]) == key && output[m].marker == marker
                      && Unresolved(history, b + 1, n, key)
  }

  ghost function Standing(base: Entries, history: seq<Poll>, output: seq<Event>, n: nat): iset<(string, string)>
    requires n <= |history|
  {
    iset x: (string, string) | Stands(base, history, output, n, x.0, x.1)
  }

  /** A page that stands still stands after a batch that does not clear its key. */
  lemma StandsOn(base: Entries, history: seq<Poll>, output: seq<Event>, n: nat, key: string, marker: string)
    requires n < |history| && Stands(base, history, output, n, key, marker) && NoClear(history[n].events, key)
    ensures Stands(base, history, output, n + 1, key, marker)
  {
    hide Key, NoClear, Lines;
    if (key, marker) in base && Unresolved(history, 0, n, key) {
    } else {
      var b: nat, m: nat :| b < n && FlushedBy(base, history, output, b, m) && Key(output[m]) == key
                  && output[m].marker == marker && Unresolved(history, b + 1, n, key);
      assert b < n + 1 && Unresolved(history, b + 1, n + 1, key);
    }
  }

  /** The lines of a flushed batch stand after it. */
  lemma LinesStand(base: Entries, history: seq<Poll>, output: seq<Event>, n: nat)
    requires n < |history| && Flushed(base, history, output, n)
    ensures LinesGood(Lines(base, history, n), Standing(base, history, output, n + 1))
  {
    hide Key, NoClear, Replay, ClearAll, AdmitAll, Pages;
    var lines, at := Lines(base, history, n), history[n].at;
    LinesFrom(ClearAll(Replay(base, history[..n]), history[n].events), history[n].events, history[n].scope);
    forall i | 0 <= i < |lines| ensures Stands(base, history, output, n + 1, Key(lines[i]), lines[i].marker) {
      assert lines[i] == output[at..][..|lines|][i] == output[at + i];
      assert lines[i] in lines;
      assert FlushedBy(base, history, output, n, at + i);
      assert Unresolved(history, n + 1, n + 1, Key(lines[i]));
    }
  }

  /** Every entry of the latch stands, after every number of saved batches. */
  lemma {:induction false} LatchStands(base: Entries, history: seq<Poll>, output: seq<Event>, n: nat)
    requires n <= |history| && forall b :: 0 <= b < n ==> Flushed(base, history, output, b)
    ensures AllGood(Replay(base, history[..n]), Standing(base, history, output, n))
    decreases n
  {
    hide Stands, NoClear, Flushed;
    if n == 0 {
      assert history[..0] == [];
      forall i | 0 <= i < |base| ensures Stands(base, history, output, 0, base[i].0, base[i].1) {
        StandsAtStart(base, history, output, i);
      }
    } else {
      LatchStands(base, history, output, n - 1);
      BatchStands(base, history, output, n - 1);
      assert history[..n][..n - 1] == history[..n - 1] && history[..n][n - 1] == history[n - 1];
    }
  }

  lemma StandsAtStart(base: Entries, history: seq<Poll>, output: seq<Event>, i: nat)
    requires i < |base|
    ensures Stands(base, history, output, 0, base[i].0, base[i].1)
  {
    assert base[i] in base && base[i] == (base[i].0, base[i].1);
  }

  /** One saved batch: if the latch before it stands, so do the latch after it and every page it
      considered. */
  lemma BatchStands(base: Entries, history: seq<Poll>, output: seq<Event>, n: nat)
    requires n < |history| && Flushed(base, history, output, n)
    requires AllGood(Replay(base, history[..n]), Standing(base, history, output, n))
    ensures var p := history[n];
            var good := Standing(base, history, output, n + 1);
            && AllGood(Batch(Replay(base, history[..n]), p.events, p.scope).latch, good)
            && forall i :: 0 <= i < |p.events| && Pages(p.events[i], p.scope) ==>
                 (Key(p.events[i]), p.events[i].marker) in good
  {
    hide Stands, NoClear, Flushed, Key, Replay, ClearAll, AdmitAll, Pages;
    var p, l := history[n], Replay(base, history[..n]);
    var good := Standing(base, history, output, n + 1);
    var left := ClearAll(l, p.events);
    ClearAllLeaves(l, p.events);
    forall i | 0 <= i < |left| ensures left[i] in good {
      assert left[i] in left;
      StandsOn(base, history, output, n, left[i].0, left[i].1);
    }
    LinesStand(base, history, output, n);
    AdmitAllGood(left, p.events, p.scope, good);
  }

  // ----- the invariant ---------------------------------------------------------------------------------

  ghost predicate HistoryInv(w: World) {
    && w.origin <= SavedPosition(w) <= |w.inbox|
    && Events(w.history) == w.inbox[w.origin..SavedPosition(w)]
    && Replay(w.base, w.history) == SavedLatch(w)
    && InOrder(w.base, w.history)
    && forall n :: 0 <= n < |w.history| ==> Flushed(w.base, w.history, w.output, n)
  }

  ghost predicate ProcessInv(w: World) {
    match w.process
    case Off => true
    case Watching(pos, latch) => w.disk.Some? && pos == SavedPosition(w) && latch == SavedLatch(w)
    case Printing(pos, latch, pending, scope, at) =>
      && w.disk.Some? && SavedPosition(w) <= pos <= |w.inbox| && at <= |w.output|
      && EndBefore(w.base, w.history, at)
      && Batch(SavedLatch(w), w.inbox[SavedPosition(w)..pos], scope) == Outcome(w.output[at..] + pending, latch)
  }

  ghost predicate Inv(w: World) {
    DistinctIds(w.inbox) && HistoryInv(w) && ProcessInv(w)
  }

  ghost predicate Initial(w: World) {
    && w.disk.None? && w.process.Off? && w.origin == |w.inbox| && w.base == [] && w.history == []
    && DistinctIds(w.inbox)
  }

  lemma InitialInv(w: World)
    requires Initial(w)
    ensures Inv(w)
  {
    assert w.inbox[w.origin..SavedPosition(w)] == [];
    assert Replay([], []) == [] && Events([]) == [];
  }

  lemma AppendInv(w: World, e: Event)
    requires Inv(w) && CanStep(w, Append(e))
    ensures Inv(After(w, Append(e)))
  {
    hide Replay, Events, Batch, Flushed, InOrder, EndBefore;
    var w' := After(w, Append(e));
    assert w'.inbox[w.origin..SavedPosition(w)] == w.inbox[w.origin..SavedPosition(w)];
    if w.process.Printing? {
      assert w'.inbox[SavedPosition(w)..w.process.pos] == w.inbox[SavedPosition(w)..w.process.pos];
    }
  }

  lemma ArmInv(w: World, since: Option<nat>)
    requires Inv(w) && CanStep(w, Arm(since))
    ensures Inv(After(w, Arm(since)))
  {
    hide Flushed;
    var w' := After(w, Arm(since));
    if !Resumes(w, since) {
      assert w'.inbox[w'.origin..SavedPosition(w')] == [];
      assert Replay(w'.base, []) == w'.base && Events([]) == [];
    }
  }

  lemma FlushedEnds(base: Entries, history: seq<Poll>, output: seq<Event>)
    requires forall n :: 0 <= n < |history| ==> Flushed(base, history, output, n)
    ensures EndBefore(base, history, |output|)
  {
    hide Lines;
    forall n | 0 <= n < |history| ensures history[n].at + |Lines(base, history, n)| <= |output| {
      assert Flushed(base, history, output, n);
    }
  }

  lemma PollInv(w: World, upTo: nat, scope: iset<Event>)
    requires Inv(w) && CanStep(w, Read(upTo, scope))
    ensures Inv(After(w, Read(upTo, scope)))
  {
    hide Batch, Replay, Events, InOrder;
    FlushedEnds(w.base, w.history, w.output);
    hide Flushed, EndBefore;
    assert w.output[|w.output|..] == [];
    var out := Batch(w.process.latch, w.inbox[w.process.pos..upTo], scope);
    assert [] + out.lines == out.lines;
  }

  /** More output leaves a flushed batch flushed. */
  lemma FlushedOn(base: Entries, history: seq<Poll>, output: seq<Event>, n: nat, e: Event)
    requires n < |history| && Flushed(base, history, output, n)
    ensures Flushed(base, history, output + [e], n)
  {
    hide Lines;
    var at, k := history[n].at, |Lines(base, history, n)|;
    assert (output + [e])[at..][..k] == output[at..][..k];
  }

  lemma PrintInv(w: World)
    requires Inv(w) && CanStep(w, PrintLine)
    ensures Inv(After(w, PrintLine))
  {
    hide Replay, Events, Batch, Flushed, DistinctIds, InOrder, EndBefore;
    var w' := After(w, PrintLine);
    forall n | 0 <= n < |w.history| ensures Flushed(w.base, w.history, w'.output, n) {
      FlushedOn(w.base, w.history, w.output, n, w.process.pending[0]);
    }
    var at, pending := w.process.at, w.process.pending;
    assert w'.output[at..] + pending[1..] == w.output[at..] + pending;
  }

  /** A later batch leaves the lines of an earlier one alone. */
  lemma FlushedLater(base: Entries, history: seq<Poll>, output: seq<Event>, n: nat, p: Poll)
    requires n < |history| && Flushed(base, history, output, n)
    ensures Flushed(base, history + [p], output, n)
  {
    hide Replay, Batch;
    assert (history + [p])[..n] == history[..n];
  }

  lemma InOrderOn(base: Entries, history: seq<Poll>, p: Poll)
    requires InOrder(base, history) && EndBefore(base, history, p.at)
    ensures InOrder(base, history + [p])
  {
    hide EndBefore;
    forall n | 0 <= n < |history| + 1 ensures EndBefore(base, (history + [p])[..n], (history + [p])[n].at) {
      assert (history + [p])[..n] == history[..n];
      assert history[..|history|] == history;
    }
  }

  lemma SaveInv(w: World)
    requires Inv(w) && CanStep(w, Save)
    ensures Inv(After(w, Save))
  {
    hide Batch, Flushed, DistinctIds, InOrder, EndBefore;
    var w' := After(w, Save);
    var n, from, pos := |w.history|, SavedPosition(w), w.process.pos;
    var p := Poll(w.inbox[from..pos], w.process.scope, w.process.at);
    assert w'.history[..n] == w.history && w'.history[n] == p;
    InOrderOn(w.base, w.history, p);
    assert w.inbox[w.origin..pos] == w.inbox[w.origin..from] + w.inbox[from..pos];
    forall i | 0 <= i < n + 1 ensures Flushed(w.base, w'.history, w.output, i) {
      if i < n {
        FlushedLater(w.base, w.history, w.output, i, p);
      } else {
        LastFlushed(w, p);
      }
    }
  }

  lemma LastFlushed(w: World, p: Poll)
    requires Inv(w) && CanStep(w, Save)
    requires p == Poll(w.inbox[SavedPosition(w)..w.process.pos], w.process.scope, w.process.at)
    ensures Flushed(w.base, w.history + [p], w.output, |w.history|)
  {
    hide Batch, DistinctIds, Replay, Events, InOrder, EndBefore;
    var n, at := |w.history|, w.process.at;
    assert (w.history + [p])[..n] == w.history;
    var lines := Lines(w.base, w.history + [p], n);
    assert w.output[at..] + [] == w.output[at..];
    assert w.output[at..][..|lines|] == w.output[at..];
  }

  lemma StepInv(w: World, s: Step)
    requires Inv(w) && CanStep(w, s)
    ensures Inv(After(w, s))
  {
    match s
    case Append(e) => AppendInv(w, e);
    case Arm(since) => ArmInv(w, since);
    case Read(upTo, scope) => PollInv(w, upTo, scope);
    case PrintLine => PrintInv(w);
    case Save => SaveInv(w);
    case Crash =>
  }

  /** A run of the stream, its crashes and restarts, and the producers. */
  ghost predicate Run(worlds: seq<World>, steps: seq<Step>) {
    && |worlds| == |steps| + 1 && Initial(worlds[0])
    && forall i :: 0 <= i < |steps| ==> Next(worlds[i], steps[i], worlds[i + 1])
  }

  ghost predicate Next(w: World, s: Step, w': World) {
    CanStep(w, s) && w' == After(w, s)
  }

  lemma {:induction false} RunInv(worlds: seq<World>, steps: seq<Step>, i: nat)
    requires Run(worlds, steps) && i < |worlds|
    ensures Inv(worlds[i])
    decreases i
  {
    hide Inv, CanStep, After;
    if i == 0 {
      InitialInv(worlds[0]);
    } else {
      RunInv(worlds, steps, i - 1);
      assert Next(worlds[i - 1], steps[i - 1], worlds[i - 1 + 1]);
      StepInv(worlds[i - 1], steps[i - 1]);
    }
  }

  /** Crash consistency: at every point of every run the saved cursor and latch are the result of
      batches that cover the inbox from the start to that cursor, each flushed whole as one stretch of
      the output, in the order they were read. */
  lemma SavedPairIsPrinted(worlds: seq<World>, steps: seq<Step>, i: nat)
    requires Run(worlds, steps) && i < |worlds|
    ensures HistoryInv(worlds[i])
  {
    hide Run, HistoryInv, ProcessInv;
    RunInv(worlds, steps, i);
  }

  /** Where an arm starts and what it saves at once: behind the given event, else where the saved cursor says,
      with the saved latch either way, else at the newest event; over an empty inbox it saves no cursor, so
      the next arm is a first one again. */
  lemma ArmStartsAt(w: World, since: Option<nat>)
    requires CanStep(w, Arm(since))
    ensures var w' := After(w, Arm(since));
            && w'.process.Watching? && w'.disk.Some? && w'.disk.value.latch == w'.process.latch
            && (since.Some? ==> w'.process.pos == since.value && w'.disk.value.cursor == since)
            && (since.None? && w.disk.Some? && w.disk.value.cursor.Some? ==>
                  w'.process.pos == w.disk.value.cursor.value && w'.disk == w.disk && w'.history == w.history)
            && (since.None? && (w.disk.None? || w.disk.value.cursor.None?) ==>
                  && w'.process.pos == |w.inbox| && w'.history == []
                  && w'.disk.value.cursor == if w.inbox == [] then None else Some(|w.inbox|))
            && (w.disk.Some? ==> w'.process.latch == w.disk.value.latch)
            && (w.disk.None? ==> w'.process.latch == [])
            && w'.inbox == w.inbox && w'.output == w.output
  {
  }

  /** Inbox position `k` was read as event `j` of saved batch `n`. */
  ghost predicate ReadAs(w: World, k: nat, n: nat, j: nat) {
    && n < |w.history| && j < |w.history[n].events| && k < |w.inbox|
    && k == w.origin + |Events(w.history[..n])| + j && w.history[n].events[j] == w.inbox[k]
  }

  /** The batches cut the stretch they read into consecutive pieces. */
  lemma {:induction false} BatchOf(history: seq<Poll>, d: nat) returns (n: nat, j: nat)
    requires d < |Events(history)|
    ensures n < |history| && j < |history[n].events| && d == |Events(history[..n])| + j
    ensures history[n].events[j] == Events(history)[d]
    decreases |history|
  {
    var last := |history| - 1;
    var before := Events(history[..last]);
    if d < |before| {
      n, j := BatchOf(history[..last], d);
      assert history[..last][..n] == history[..n];
    } else {
      n, j := last, d - |before|;
    }
  }

  /** Nothing is passed over: at every point of every run, each event between the start and the saved
      cursor was read by one saved batch, and if that batch had it in scope, its page stands after the
      batch. It was flushed, by itself or by an earlier line with its key and fingerprint that no batch
      since has cleared, or the latch at the start held it and no batch since has cleared it. */
  lemma NothingSkipped(worlds: seq<World>, steps: seq<Step>, i: nat, k: nat) returns (n: nat, j: nat)
    requires Run(worlds, steps) && i < |worlds| && worlds[i].origin <= k < SavedPosition(worlds[i])
    ensures var w := worlds[i];
            && ReadAs(w, k, n, j)
            && (Pages(w.inbox[k], w.history[n].scope) ==>
                  Stands(w.base, w.history, w.output, n + 1, Key(w.inbox[k]), w.inbox[k].marker))
  {
    hide Stands, Run, Key, Pages, Replay, Events, Batch, Flushed, InOrder, EndBefore;
    RunInv(worlds, steps, i);
    var w := worlds[i];
    assert w.inbox[w.origin..SavedPosition(w)][k - w.origin] == w.inbox[k];
    n, j := BatchOf(w.history, k - w.origin);
    LatchStands(w.base, w.history, w.output, n);
    BatchStands(w.base, w.history, w.output, n);
  }

  /** A line that was chosen and not yet printed is the event of one inbox position, and a crash now
      and a resume read that position again. */
  lemma ChosenIsReread(worlds: seq<World>, steps: seq<Step>, i: nat, j: nat) returns (k: nat)
    requires Run(worlds, steps) && i < |worlds|
    requires worlds[i].process.Printing? && j < |worlds[i].process.pending|
    requires worlds[i].disk.Some? && worlds[i].disk.value.cursor.Some?
    ensures var w, line := worlds[i], worlds[i].process.pending[j];
            && k < |w.inbox| && w.inbox[k] == line
            && (forall m :: 0 <= m < |w.inbox| && w.inbox[m].id == line.id ==> m == k)
            && After(After(w, Crash), Arm(None)).process.Watching?
            && After(After(w, Crash), Arm(None)).process.pos <= k
  {
    hide Run, Replay, Events, Flushed, InOrder, EndBefore;
    RunInv(worlds, steps, i);
    var w := worlds[i];
    var lo, hi, line := SavedPosition(w), w.process.pos, w.process.pending[j];
    var batch := w.inbox[lo..hi];
    LinesFrom(ClearAll(SavedLatch(w), batch), batch, w.process.scope);
    var out := Batch(SavedLatch(w), batch, w.process.scope);
    assert out.lines[|w.output[w.process.at..]| + j] == line;
    assert line in out.lines && line in batch;
    var d :| 0 <= d < |batch| && batch[d] == line;
    k := lo + d;
  }
}
