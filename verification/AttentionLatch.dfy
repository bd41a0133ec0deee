/** The dedupe latch of the attention stream (`attention_watch.py`) and the two passes of one
    `AttentionStream.step` over a batch of events (`attention_stream.py`). */
module AttentionLatch {
  import opened Common

  /** An event: its id, its type and the payload fields the latch reads; "" stands for a field that is
      missing or not a non-empty string. `ticketKey` tells whether the payload has a `ticket_id`. */
  datatype Event = Event(id: string, typ: string, client: string, ticket: string, lane: string, ticketKey: bool,
                         pausedStatus: string, bucket: string, reason: string, marker: string)

  /** Producers never use an id twice. */
  ghost predicate DistinctIds(es: seq<Event>) {
    forall i, j :: 0 <= i < j < |es| ==> es[i].id != es[j].id
  }

  const LATCH_MAX_KEYS := 512
  const LIVENESS := "session.liveness_changed"
  const NEEDS_ATTENTION := "session.needs_attention"

  predicate IsWatched(typ: string) {
    typ in {NEEDS_ATTENTION, "operator.escalation", "session.timed_out", "session.reap_proposed",
            "session.stage_timed_out_retried", "session.phantom_reverted", LIVENESS}
  }

  predicate IsClearType(typ: string) {
    typ in {"task.transition", "ticket.requeued", "lane.resumed", "dispatch.tick"}
  }

  predicate IsSurfaced(bucket: string) {
    bucket in {"stale_30m", "stale_45m"}
  }

  // ----- keys --------------------------------------------------------------------------------------

  function Slot(e: Event): string {
    if e.ticket != "" then e.ticket else if e.lane != "" then e.lane else "*"
  }

  function Status(e: Event): string {
    if e.pausedStatus != "" then e.pausedStatus else if e.bucket != "" then e.bucket else e.reason
  }

  const BAR := '|'

  /** `_key`. */
  function Key(e: Event): string {
    e.typ + ([BAR] + (e.client + ([BAR] + (Slot(e) + ([BAR] + Status(e))))))
  }

  /** The text before the first bar, and after it. */
  function Cut(s: string): (string, Option<string>) {
    if s == "" then ("", None)
    else if s[0] == BAR then ("", Some(s[1..]))
    else
      var (head, rest) := Cut(s[1..]);
      ([s[0]] + head, rest)
  }

  /** Type, client and slot of a key: `key.split("|", 3)`. */
  function KeyParts(key: string): Option<(string, string, string)> {
    var (typ, rest) := Cut(key);
    if rest.None? then None
    else
      var (client, rest') := Cut(rest.value);
      if rest'.None? then None
      else
        var (slot, rest'') := Cut(rest'.value);
        if rest''.None? then None else Some((typ, client, slot))
  }

  ghost predicate NoBar(s: string) {
    forall i :: 0 <= i < |s| ==> s[i] != BAR
  }

  lemma {:induction false} CutAt(head: string, rest: string)
    requires NoBar(head)
    ensures Cut(head + ([BAR] + rest)) == (head, Some(rest))
  {
    var s := head + ([BAR] + rest);
    if head == "" {
      assert s == [BAR] + rest && s[1..] == rest;
    } else {
      assert s[1..] == head[1..] + ([BAR] + rest) && s[0] == head[0];
      CutAt(head[1..], rest);
      assert [head[0]] + head[1..] == head;
    }
  }

  /** A key gives back the type, client and slot it was made from, as long as they hold no bar. */
  lemma KeyRoundTrip(e: Event)
    requires NoBar(e.typ) && NoBar(e.client) && NoBar(Slot(e))
    ensures KeyParts(Key(e)) == Some((e.typ, e.client, Slot(e)))
  {
    hide Cut, Status;
    CutAt(e.typ, e.client + ([BAR] + (Slot(e) + ([BAR] + Status(e)))));
    CutAt(e.client, Slot(e) + ([BAR] + Status(e)));
    CutAt(Slot(e), Status(e));
  }

  // ----- the latch -----------------------------------------------------------------------------------

  /** Keys with their fingerprints, oldest first. */
  type Entries = seq<(string, string)>

  function Get(l: Entries, key: string): Option<string> {
    if l == [] then None else if l[0].0 == key then Some(l[0].1) else Get(l[1..], key)
  }

  function Remove(l: Entries, key: string): Entries {
    if l == [] then [] else (if l[0].0 == key then [] else [l[0]]) + Remove(l[1..], key)
  }

  function Evict(l: Entries): Entries {
    if |l| > LATCH_MAX_KEYS then l[|l| - LATCH_MAX_KEYS..] else l
  }

  /** Does the event page: its key is new, or its fingerprint changed. */
  predicate Fresh(l: Entries, e: Event) {
    Get(l, Key(e)) != Some(e.marker)
  }

  function Admitted(l: Entries, e: Event): Entries {
    if Fresh(l, e) then Evict(Remove(l, Key(e)) + [(Key(e), e.marker)]) else l
  }

  /** Is it a resolving event (never rendered). */
  predicate Resolves(e: Event) {
    if e.typ == LIVENESS then !IsSurfaced(e.bucket) else IsClearType(e.typ)
  }

  predicate SlotMatches(key: string, typ: Option<string>, client: string, slot: string) {
    var parts := KeyParts(key);
    parts.Some? && parts.value.1 == client && parts.value.2 == slot && (typ.None? || typ.value == parts.value.0)
  }

  /** Does the resolving event clear the key. */
  predicate Matches(e: Event, key: string) {
    if e.typ == LIVENESS then e.ticket != "" && SlotMatches(key, Some(LIVENESS), e.client, e.ticket)
    else if e.typ == "lane.resumed" then e.lane != "" && SlotMatches(key, None, e.client, e.lane)
    else if e.typ == "dispatch.tick" then
      !e.ticketKey && key == NEEDS_ATTENTION + "|" + e.client + "|*|dispatch_loop_stale"
    else e.ticket != "" && SlotMatches(key, None, e.client, e.ticket)
  }

  function Cleared(l: Entries, e: Event): Entries {
    if l == [] then [] else (if Matches(e, l[0].0) then [] else [l[0]]) + Cleared(l[1..], e)
  }

  ghost predicate Spares(c: Event, entry: (string, string)) {
    !Matches(c, entry.0)
  }

  ghost function Spared(c: Event): iset<(string, string)> {
    iset entry | Spares(c, entry)
  }

  lemma {:induction false} ClearedKeeps(l: Entries, c: Event)
    ensures Cleared(l, c) == Keep(l, Spared(c))
    decreases |l|
  {
    hide Matches;
    if l != [] {
      ClearedKeeps(l[1..], c);
    }
  }

  ghost predicate HasOtherKey(entry: (string, string), key: string) {
    entry.0 != key
  }

  ghost function OtherKeys(key: string): iset<(string, string)> {
    iset entry | HasOtherKey(entry, key)
  }

  lemma {:induction false} RemoveIsKeep(l: Entries, key: string)
    ensures Remove(l, key) == Keep(l, OtherKeys(key))
    decreases |l|
  {
    if l != [] {
      RemoveIsKeep(l[1..], key);
    }
  }

  /** The latch as the object the stream updates. */
  class Latch {
    var entries: Entries

    constructor (raw: Entries)
      ensures entries == raw
    {
      entries := raw;
    }

    /** A page becomes the newest entry of its key, the others keep their order, and the oldest go beyond
        512. */
    method Admit(e: Event) returns (pages: bool)
      modifies this
      ensures pages == Fresh(old(entries), e)
      ensures entries == Admitted(old(entries), e)
      ensures !pages ==> entries == old(entries)
      ensures pages ==>
                var all := Keep(old(entries), OtherKeys(Key(e))) + [(Key(e), e.marker)];
                entries == all[if |all| > 512 then |all| - 512 else 0..]
    {
      hide Key;
      var key := Key(e);
      RemoveIsKeep(entries, key);
      if Get(entries, key) == Some(e.marker) {
        return false;
      }
      entries := Remove(entries, key) + [(key, e.marker)];
      ghost var grown := entries;
      while |entries| > LATCH_MAX_KEYS
        invariant |entries| <= |grown| && entries == grown[|grown| - |entries|..]
        invariant |grown| > LATCH_MAX_KEYS ==> |entries| >= LATCH_MAX_KEYS
        invariant |grown| <= LATCH_MAX_KEYS ==> entries == grown
      {
        entries := entries[1..];
      }
      return true;
    }

    /** A resolving event leaves the entries it spares, in order. */
    method Clear(e: Event) returns (resolving: bool)
      modifies this
      ensures resolving == Resolves(e)
      ensures entries == if Resolves(e) then Cleared(old(entries), e) else old(entries)
      ensures resolving ==> entries == Keep(old(entries), Spared(e))
    {
      hide Matches, Keep, Resolves;
      ClearedKeeps(entries, e);
      if !Resolves(e) {
        return false;
      }
      var kept: Entries := [];
      ghost var all := entries;
      assert entries[0..] == entries;
      for i := 0 to |entries|
        invariant entries == all && kept + Cleared(all[i..], e) == Cleared(all, e)
      {
        assert all[i..][1..] == all[i + 1..];
        if !Matches(e, entries[i].0) {
          kept := kept + [entries[i]];
        }
      }
      entries := kept;
      return true;
    }
  }

  // ----- what the latch holds ------------------------------------------------------------------------

  lemma {:induction false} RemoveSize(l: Entries, key: string)
    ensures |Remove(l, key)| <= |l|
  {
    if l != [] {
      RemoveSize(l[1..], key);
    }
  }

  lemma {:induction false} ClearedSize(l: Entries, e: Event)
    ensures |Cleared(l, e)| <= |l|
  {
    hide Matches;
    if l != [] {
      ClearedSize(l[1..], e);
    }
  }

  /** A clear that does not match the key leaves its fingerprint. */
  lemma {:induction false} ClearedGet(l: Entries, c: Event, key: string)
    requires !Matches(c, key)
    ensures Get(Cleared(l, c), key) == Get(l, key)
  {
    hide Matches;
    if l != [] {
      ClearedGet(l[1..], c, key);
      var rest := Cleared(l[1..], c);
      assert ([l[0]] + rest)[1..] == rest && [] + rest == rest;
    }
  }

  lemma {:induction false} ClearedGone(l: Entries, c: Event, key: string)
    requires Matches(c, key)
    ensures Get(Cleared(l, c), key) == None
  {
    if l != [] {
      ClearedGone(l[1..], c, key);
      var rest := Cleared(l[1..], c);
      assert ([l[0]] + rest)[1..] == rest && [] + rest == rest;
    }
  }

  lemma {:induction false} RemoveConcat(a: Entries, b: Entries, key: string)
    ensures Remove(a + b, key) == Remove(a, key) + Remove(b, key)
  {
    if a == [] {
      assert a + b == b;
    } else {
      assert (a + b)[1..] == a[1..] + b && (a + b)[0] == a[0];
      RemoveConcat(a[1..], b, key);
      var h, x, y := if a[0].0 == key then [] else [a[0]], Remove(a[1..], key), Remove(b, key);
      assert h + (x + y) == (h + x) + y;
    }
  }

  lemma {:induction false} RemoveKeeps(l: Entries, key: string, other: string)
    requires other != key
    ensures Get(Remove(l, key), other) == Get(l, other)
  {
    if l != [] {
      RemoveKeeps(l[1..], key, other);
      var rest := Remove(l[1..], key);
      assert ([l[0]] + rest)[1..] == rest && [] + rest == rest;
    }
  }

  lemma {:induction false} GetConcat(a: Entries, b: Entries, key: string)
    ensures Get(a + b, key) == if Get(a, key).Some? then Get(a, key) else Get(b, key)
  {
    if a == [] {
      assert a + b == b;
    } else {
      assert (a + b)[1..] == a[1..] + b;
      GetConcat(a[1..], b, key);
    }
  }

  lemma OneGet(entry: (string, string), key: string)
    ensures Get([entry], key) == if entry.0 == key then Some(entry.1) else None
  {
    assert [entry][1..] == [];
    assert Get([], key) == None;
  }

  lemma {:induction false} RemoveGone(l: Entries, key: string)
    ensures Get(Remove(l, key), key) == None
  {
    if l != [] {
      RemoveGone(l[1..], key);
      var rest := Remove(l[1..], key);
      assert ([l[0]] + rest)[1..] == rest && [] + rest == rest;
    }
  }

  /** A latch as `to_dict` and `admit` leave it. */
  ghost predicate Sound(l: Entries) {
    |l| <= 512 && forall i, j :: 0 <= i < j < |l| ==> l[i].0 != l[j].0
  }

  lemma {:induction false} GetFinds(l: Entries, key: string, marker: string)
    requires forall i, j :: 0 <= i < j < |l| ==> l[i].0 != l[j].0
    ensures Get(l, key) == Some(marker) <==> (key, marker) in l
    decreases |l|
  {
    if l != [] {
      assert forall i :: 0 <= i < |l[1..]| ==> l[1..][i] == l[i + 1];
      GetFinds(l[1..], key, marker);
      if l[0].0 == key {
        assert forall i :: 0 <= i < |l[1..]| ==> l[1..][i].0 != key;
      }
    }
  }

  /** An event pages exactly when the latch does not hold its key with its fingerprint. */
  lemma PagesWhenNew(l: Entries, e: Event)
    requires Sound(l)
    ensures Fresh(l, e) <==> (Key(e), e.marker) !in l
  {
    hide Key, Get;
    GetFinds(l, Key(e), e.marker);
  }

  lemma KeepSound(l: Entries, good: iset<(string, string)>)
    requires Sound(l)
    ensures Sound(Keep(l, good)) && |Keep(l, good)| <= |l|
  {
    hide Keep;
    var at := KeepAt(l, good);
    KeepSize(l, good);
  }

  lemma {:induction false} KeepSize(l: Entries, good: iset<(string, string)>)
    ensures |Keep(l, good)| <= |l|
    decreases |l|
  {
    if l != [] {
      KeepSize(l[1..], good);
    }
  }

  /** Both operations keep the latch sound. */
  lemma StaysSound(l: Entries, e: Event)
    requires Sound(l)
    ensures Sound(Admitted(l, e)) && Sound(Cleared(l, e))
  {
    hide Key, Keep, Remove, Cleared, Get;
    ClearedKeeps(l, e);
    KeepSound(l, Spared(e));
    RemoveIsKeep(l, Key(e));
    KeepSound(l, OtherKeys(Key(e)));
    KeepAre(l, OtherKeys(Key(e)));
    var less := Keep(l, OtherKeys(Key(e)));
    forall i | 0 <= i < |less| ensures less[i].0 != Key(e) {
      assert less[i] in less;
    }
  }

  // ----- what resolves what, in terms of events --------------------------------------------------------

  /** The resolving event `c` settles the page `p`. */
  ghost predicate Settles(c: Event, p: Event) {
    var slot := if p.ticket != "" then p.ticket else if p.lane != "" then p.lane else "*";
    var status := if p.pausedStatus != "" then p.pausedStatus else if p.bucket != "" then p.bucket else p.reason;
    && c.client == p.client
    && (|| (c.typ == "lane.resumed" && c.lane != "" && c.lane == slot)
        || (c.typ == "task.transition" && c.ticket != "" && c.ticket == slot)
        || (c.typ == "ticket.requeued" && c.ticket != "" && c.ticket == slot)
        || (c.typ == "session.liveness_changed" && c.bucket != "stale_30m" && c.bucket != "stale_45m"
            && c.ticket != "" && c.ticket == slot && p.typ == "session.liveness_changed")
        || (c.typ == "dispatch.tick" && !c.ticketKey
            && p.typ == "session.needs_attention" && slot == "*" && status == "dispatch_loop_stale"))
  }

  lemma PlainType()
    ensures NoBar(NEEDS_ATTENTION)
  {
  }

  /** The stale-loop key names one page. */
  lemma StaleKey(client: string, p: Event)
    requires NoBar(client) && NoBar(p.typ) && NoBar(p.client) && NoBar(Slot(p))
    ensures Key(p) == NEEDS_ATTENTION + "|" + client + "|*|dispatch_loop_stale"
       <==> p.typ == NEEDS_ATTENTION && p.client == client && Slot(p) == "*" && Status(p) == "dispatch_loop_stale"
  {
    hide Cut, Status, Slot;
    var stale := NEEDS_ATTENTION + ([BAR] + (client + ([BAR] + ("*" + ([BAR] + "dispatch_loop_stale")))));
    assert stale == NEEDS_ATTENTION + "|" + client + "|*|dispatch_loop_stale";
    assert NoBar(NEEDS_ATTENTION) by { PlainType(); }
    CutAt(p.typ, p.client + ([BAR] + (Slot(p) + ([BAR] + Status(p)))));
    CutAt(p.client, Slot(p) + ([BAR] + Status(p)));
    CutAt(Slot(p), Status(p));
    CutAt(NEEDS_ATTENTION, client + ([BAR] + ("*" + ([BAR] + "dispatch_loop_stale"))));
    CutAt(client, "*" + ([BAR] + "dispatch_loop_stale"));
    CutAt("*", "dispatch_loop_stale");
  }

  lemma MatchesExactly(c: Event, p: Event)
    requires NoBar(p.typ) && NoBar(p.client) && NoBar(Slot(p)) && (c.typ == "dispatch.tick" ==> NoBar(c.client))
    ensures Resolves(c) && Matches(c, Key(p)) <==> Settles(c, p)
  {
    KeyRoundTrip(p);
    if c.typ == "dispatch.tick" {
      StaleKey(c.client, p);
    }
    hide Key, KeyParts;
  }

  /** What a clear does to the entry of a page, in terms of the two events. A type, client or slot that
      holds a bar is left out, since the key is split at bars. */
  lemma ClearExactly(l: Entries, c: Event, p: Event)
    requires NoBar(p.typ) && NoBar(p.client) && NoBar(Slot(p)) && (c.typ == "dispatch.tick" ==> NoBar(c.client))
    ensures Get(if Resolves(c) then Cleared(l, c) else l, Key(p)) == if Settles(c, p) then None else Get(l, Key(p))
  {
    hide Key, Get, Matches, Resolves, Settles, Cleared;
    MatchesExactly(c, p);
    if Matches(c, Key(p)) {
      ClearedGone(l, c, Key(p));
    } else {
      ClearedGet(l, c, Key(p));
    }
  }

  /** Which events page at all: those of the watched types in scope, liveness only in a surfaced bucket. */
  lemma PagesExactly(e: Event, scope: iset<Event>)
    ensures Pages(e, scope) <==>
            (&& e in scope
             && (|| e.typ in {"session.needs_attention", "operator.escalation", "session.timed_out",
                              "session.reap_proposed", "session.stage_timed_out_retried", "session.phantom_reverted"}
                 || (e.typ == "session.liveness_changed" && (e.bucket == "stale_30m" || e.bucket == "stale_45m"))))
  {
  }

  // ----- one batch, and one event at a time ------------------------------------------------------------

  /** Would the event page if the latch let it. `scope` holds the events `in_scope` accepts. */
  ghost predicate Pages(e: Event, scope: iset<Event>) {
    !Resolves(e) && IsWatched(e.typ) && e in scope
  }

  ghost function ClearAll(l: Entries, es: seq<Event>): Entries
    decreases |es|
  {
    if es == [] then l else ClearAll(if Resolves(es[0]) then Cleared(l, es[0]) else l, es[1..])
  }

  datatype Outcome = Outcome(lines: seq<Event>, latch: Entries)

  ghost function AdmitAll(l: Entries, es: seq<Event>, scope: iset<Event>): Outcome
    decreases |es|
  {
    if es == [] then Outcome([], l)
    else if !Pages(es[0], scope) then AdmitAll(l, es[1..], scope)
    else
      var rest := AdmitAll(Admitted(l, es[0]), es[1..], scope);
      if Fresh(l, es[0]) then rest.(lines := [es[0]] + rest.lines) else rest
  }

  /** `step`: all clears, then all admits. */
  ghost function Batch(l: Entries, es: seq<Event>, scope: iset<Event>): Outcome {
    AdmitAll(ClearAll(l, es), es, scope)
  }

  /** The same events, one poll each. */
  ghost function OneByOne(l: Entries, es: seq<Event>, scope: iset<Event>): Outcome
    decreases |es|
  {
    if es == [] then Outcome([], l)
    else
      var first := Batch(l, [es[0]], scope);
      var rest := OneByOne(first.latch, es[1..], scope);
      rest.(lines := first.lines + rest.lines)
  }
}
