/**
  The query log: a bounded store with any number of concurrent appenders and subscribers. The store's
  data is guarded by a lock; waking a subscriber happens outside it, one field read and one `set()` at a time.
 */
module QueryLog {
  import opened Prelude

  datatype Entry = Entry(id: nat, payload: string)

  /** The data under the lock; subscriptions are named by their index. */
  datatype Store = Store(maxEntries: nat, entries: seq<Entry>, nextId: nat, subscriptions: seq<nat>)

  // ---------- The store, one critical section at a time ----------

  /** A deque of bounded length keeps the newest entries. */
  function Newest(entries: seq<Entry>, limit: nat): (r: seq<Entry>) {
    if |entries| <= limit then entries else entries[|entries| - limit..]
  }

  /** r is the end of s with at most n members, and as many as there are. */
  ghost predicate IsLastOf<T>(r: seq<T>, s: seq<T>, n: nat) {
    |r| == (if |s| < n then |s| else n) && r == s[|s| - |r|..]
  }

  function Appended(s: Store, payload: string): (r: Store) {
    s.(entries := Newest(s.entries + [Entry(s.nextId, payload)], s.maxEntries), nextId := s.nextId + 1)
  }

  function Resized(s: Store, limit: nat): (r: Store) {
    s.(maxEntries := limit, entries := Newest(s.entries, limit))
  }

  function Remove(xs: seq<nat>, x: nat): (r: seq<nat>)
    ensures forall y :: y in r ==> y in xs
    ensures forall y :: y in xs && y != x ==> y in r
  {
    if xs == [] then [] else if xs[0] == x then xs[1..] else [xs[0]] + Remove(xs[1..], x)
  }

  /** The lowest id that has not been evicted. */
  function Floor(s: Store): int {
    s.nextId - |s.entries|
  }

  /** The retained ids are the contiguous block that ends just below nextId. */
  ghost predicate StoreOk(s: Store) {
    && |s.entries| <= s.maxEntries && Floor(s) >= 1
    && forall i :: 0 <= i < |s.entries| ==> s.entries[i].id == Floor(s) + i
  }

  /** The entries newer than `last`. */
  ghost function After(s: Store, last: int): (r: seq<Entry>) {
    s.entries[Skip(s, last)..]
  }

  function Skip(s: Store, last: int): (k: nat)
    ensures k <= |s.entries|
  {
    if last < Floor(s) then 0 else if last >= s.nextId then |s.entries| else last - Floor(s) + 1
  }

  lemma AfterIsFilter(s: Store, last: int)
    requires StoreOk(s)
    ensures forall e :: e in After(s, last) <==> e in s.entries && e.id > last
    ensures After(s, last) == [] <==> forall e :: e in s.entries ==> e.id <= last
  {
    var k := Skip(s, last);
    forall e | e in s.entries && e.id > last ensures e in After(s, last) {
      var i :| 0 <= i < |s.entries| && s.entries[i] == e;
      assert After(s, last)[i - k] == e;
    }
    forall e | e in After(s, last) ensures e in s.entries && e.id > last {
      var j :| 0 <= j < |After(s, last)| && After(s, last)[j] == e;
      assert s.entries[k + j] == e;
    }
    if After(s, last) != [] { assert After(s, last)[0] in After(s, last); }
  }

  class QueryLogStore {
    var maxEntries: nat
    var entries: seq<Entry>
    var nextId: nat
    var subscriptions: seq<nat>

    function View(): Store reads this { Store(maxEntries, entries, nextId, subscriptions) }

    constructor (limit: nat)
      ensures View() == Store(limit, [], 1, []) && StoreOk(View())
    {
      maxEntries, entries, nextId, subscriptions := limit, [], 1, [];
    }

    method Resize(limit: nat)
      requires StoreOk(View())
      modifies this`maxEntries, this`entries
      ensures View() == Resized(old(View()), limit) && StoreOk(View())
      ensures maxEntries == limit && IsLastOf(entries, old(entries), limit)
    {
      if limit == maxEntries {
        return;
      }
      maxEntries := limit;
      entries := Newest(entries, limit);
    }

    /** The locked part of an append: store the entry and take the list of subscriptions to wake. */
    method AppendLocked(payload: string) returns (entry: Entry, toWake: seq<nat>)
      requires StoreOk(View())
      modifies this`entries, this`nextId
      ensures View() == Appended(old(View()), payload) && StoreOk(View())
      ensures entry == Entry(old(nextId), payload) && toWake == subscriptions
      ensures IsLastOf(entries, old(entries) + [entry], maxEntries)
    {
      entry := Entry(nextId, payload);
      nextId := nextId + 1;
      entries := Newest(entries + [entry], maxEntries);
      toWake := subscriptions;
    }

    /** The newest `limit` entries, oldest first. */
    method ListRecent(limit: int) returns (r: seq<Entry>)
      requires StoreOk(View())
      ensures IsLastOf(r, entries, if limit <= 0 then 0 else limit)
    {
      if limit <= 0 {
        return [];
      }
      var bound := if limit < maxEntries then limit else maxEntries;
      return if bound >= |entries| then entries else entries[|entries| - bound..];
    }

    method EntriesAfter(last: int) returns (r: seq<Entry>)
      requires StoreOk(View())
      ensures r == After(View(), last)
    {
      r := [];
      var k := Skip(View(), last);
      for i := 0 to |entries|
        invariant r == if i <= k then [] else entries[k..i]
      {
        if entries[i].id > last {
          r := r + [entries[i]];
        }
      }
    }

    method Register(sub: nat)
      modifies this`subscriptions
      ensures View() == old(View()).(subscriptions := old(subscriptions) + [sub])
    {
      subscriptions := subscriptions + [sub];
    }

    method Unregister(sub: nat)
      modifies this`subscriptions
      ensures View() == old(View()).(subscriptions := Remove(old(subscriptions), sub))
    {
      var i := 0;
      while i < |subscriptions| && subscriptions[i] != sub
        invariant 0 <= i <= |subscriptions|
        invariant Remove(subscriptions, sub) == subscriptions[..i] + Remove(subscriptions[i..], sub)
      {
        i := i + 1;
      }
      if i < |subscriptions| {
        subscriptions := subscriptions[..i] + subscriptions[i + 1..];
      } else {
        assert subscriptions[i..] == [];
      }
    }
  }

  // ---------- Appenders and subscribers ----------

  datatype Phase =
    | First                        // about to look for new entries
    | Renew                        // found none: about to replace the event
    | Second                       // about to look again
    | Waiting                      // found none again: waiting for the event
    | Yielding(items: seq<Entry>)
    | Closed

  /** A subscriber: where it started, the last id it has seen, and the ids it has yielded. */
  datatype Subscriber = Subscriber(start: int, last: int, phase: Phase, yielded: seq<int>)

  /** An append after its locked part: the subscriptions still to wake, and the event it has read for the first. */
  datatype Appender = Appender(stored: nat, toWake: seq<nat>, read: Option<nat>)

  datatype Sys = Sys(
    store: Store, subscribers: seq<Subscriber>, eventOf: seq<nat>, events: seq<bool>, appenders: seq<Appender>)

  datatype Step =
    | Append(payload: string)
    | ReadEvent(a: nat)
    | SetEvent(a: nat)
    | Resize(limit: nat)
    | Subscribe(after: int)
    | Look(i: nat)                 // one call of _entries_after
    | NewEvent(i: nat)
    | Wake(i: nat)
    | Heartbeat(i: nat)
    | Yield(i: nat)
    | Close(i: nat)

  predicate InPhase(s: Sys, i: nat, p: Phase) {
    i < |s.subscribers| && s.subscribers[i].phase == p
  }

  predicate EventSet(s: Sys, i: nat) {
    i < |s.eventOf| && s.eventOf[i] < |s.events| && s.events[s.eventOf[i]]
  }

  predicate Enabled(s: Sys, step: Step) {
    match step
    case Append(_) => true
    case ReadEvent(a) => a < |s.appenders| && s.appenders[a].toWake != [] && s.appenders[a].read.None?
      && s.appenders[a].toWake[0] < |s.eventOf|
    case SetEvent(a) => a < |s.appenders| && s.appenders[a].toWake != [] && s.appenders[a].read.Some?
      && s.appenders[a].read.value < |s.events|
    case Resize(_) => true
    case Subscribe(_) => true
    case Look(i) => InPhase(s, i, First) || InPhase(s, i, Second)
    case NewEvent(i) => InPhase(s, i, Renew) && i < |s.eventOf|
    case Wake(i) => InPhase(s, i, Waiting) && EventSet(s, i)
    case Heartbeat(i) => InPhase(s, i, Waiting)
    case Yield(i) => i < |s.subscribers| && s.subscribers[i].phase.Yielding? && s.subscribers[i].phase.items != []
    case Close(i) => i < |s.subscribers| && !s.subscribers[i].phase.Closed?
  }

  ghost function Moved(s: Sys, i: nat, p: Phase): Sys
    requires i < |s.subscribers|
  {
    s.(subscribers := s.subscribers[i := s.subscribers[i].(phase := p)])
  }

  ghost function Yielded(u: Subscriber): Subscriber
    requires u.phase.Yielding? && u.phase.items != []
  {
    var id := u.phase.items[0].id;
    var rest := u.phase.items[1..];
    u.(last := id, yielded := u.yielded + [id], phase := if rest == [] then First else Yielding(rest))
  }

  ghost function Apply(s: Sys, step: Step): Sys
    requires Enabled(s, step)
  {
    match step
    case Append(payload) =>
      s.(store := Appended(s.store, payload),
         appenders := s.appenders + [Appender(s.store.nextId, s.store.subscriptions, None)])
    case ReadEvent(a) =>
      var ap := s.appenders[a];
      s.(appenders := s.appenders[a := ap.(read := Some(s.eventOf[ap.toWake[0]]))])
    case SetEvent(a) =>
      var ap := s.appenders[a];
      s.(events := s.events[ap.read.value := true],
        appenders := s.appenders[a := ap.(toWake := ap.toWake[1..], read := None)])
    case Resize(limit) => s.(store := Resized(s.store, limit))
    case Subscribe(after) =>
      var start := if after > 0 then after else 0;
      s.(store := s.store.(subscriptions := s.store.subscriptions + [|s.subscribers|]),
         subscribers := s.subscribers + [Subscriber(start, start, First, [])],
         eventOf := s.eventOf + [|s.events|], events := s.events + [false])
    case Look(i) =>
      var items := After(s.store, s.subscribers[i].last);
      Moved(s, i, if items != [] then Yielding(items) else if s.subscribers[i].phase.First? then Renew else Waiting)
    case NewEvent(i) => Moved(s, i, Second).(eventOf := s.eventOf[i := |s.events|], events := s.events + [false])
    case Wake(i) => Moved(s, i, First)
    case Heartbeat(i) => Moved(s, i, First)
    case Yield(i) => s.(subscribers := s.subscribers[i := Yielded(s.subscribers[i])])
    case Close(i) => Moved(s, i, Closed).(store := s.store.(subscriptions := Remove(s.store.subscriptions, i)))
  }

  ghost predicate IsInitial(s: Sys) {
    s.store.entries == [] && s.store.nextId == 1 && s.store.subscriptions == []
    && s.subscribers == [] && s.eventOf == [] && s.events == [] && s.appenders == []
  }

  /** From s0, the steps can be taken one after the other. */
  ghost predicate IsRun(s0: Sys, steps: seq<Step>)
    decreases |steps|, 0
  {
    if steps == [] then IsInitial(s0) else IsRun(s0, Init(steps)) && Enabled(StateAfter(s0, Init(steps)), Last(steps))
  }

  ghost function StateAfter(s0: Sys, steps: seq<Step>): Sys
    requires IsRun(s0, steps)
    decreases |steps|, 1
  {
    if steps == [] then s0 else Apply(StateAfter(s0, Init(steps)), Last(steps))
  }

  // ---------- The invariant ----------

  ghost predicate ShapeOk(s: Sys) {
    && |s.eventOf| == |s.subscribers|
    && (forall i :: 0 <= i < |s.eventOf| ==> s.eventOf[i] < |s.events|)
    && (forall i, j :: 0 <= i < j < |s.eventOf| ==> s.eventOf[i] != s.eventOf[j])
    && (forall i :: 0 <= i < |s.subscribers| && !s.subscribers[i].phase.Closed? ==> i in s.store.subscriptions)
  }

  /** Every append in progress can go on. */
  ghost predicate AppendersOk(s: Sys) {
    && (forall x :: x in s.store.subscriptions ==> x < |s.subscribers|)
    && (forall a, x :: 0 <= a < |s.appenders| && x in s.appenders[a].toWake ==> x < |s.subscribers|)
    && (forall a :: 0 <= a < |s.appenders| && s.appenders[a].read.Some? ==> s.appenders[a].read.value < |s.events|)
  }

  /** The appender of this entry will still set the subscriber's current event. */
  ghost predicate WillWake(s: Sys, a: nat, i: nat, id: int) {
    && a < |s.appenders| && s.appenders[a].stored == id && i in s.appenders[a].toWake && i < |s.eventOf|
    && (s.appenders[a].toWake[0] == i && s.appenders[a].read.Some? ==> s.appenders[a].read.value == s.eventOf[i])
  }

  ghost predicate NothingLost(s: Sys, i: nat)
    requires i < |s.subscribers|
  {
    s.subscribers[i].phase.Waiting? && !EventSet(s, i) ==>
      forall e :: e in s.store.entries && e.id > s.subscribers[i].last ==> exists a :: WillWake(s, a, i, e.id)
  }

  ghost predicate WakeupsOk(s: Sys) {
    forall i :: 0 <= i < |s.subscribers| ==> NothingLost(s, i)
  }

  /** Yields go up, and every id passed over has been evicted. */
  ghost predicate YieldOk(u: Subscriber, floor: int, nextId: nat) {
    && u.start <= u.last && Increasing(u.yielded)
    && (forall k :: 0 <= k < |u.yielded| ==> u.start < u.yielded[k] <= u.last)
    && (forall j :: u.start < j <= u.last ==> j in u.yielded || j < floor)
    && (u.phase.Yielding? ==> ItemsOk(u, u.phase.items, floor, nextId))
  }

  ghost predicate ItemsOk(u: Subscriber, items: seq<Entry>, floor: int, nextId: nat) {
    && items != []
    && (forall k :: 0 <= k < |items| ==> items[k].id == items[0].id + k && items[k].id < nextId)
    && items[0].id > u.last
    && (items[0].id == u.last + 1 || items[0].id <= floor)
  }

  ghost predicate YieldsOk(s: Sys) {
    forall i :: 0 <= i < |s.subscribers| ==> YieldOk(s.subscribers[i], Floor(s.store), s.store.nextId)
  }

  ghost predicate Inv(s: Sys) {
    StoreOk(s.store) && ShapeOk(s) && AppendersOk(s) && WakeupsOk(s) && YieldsOk(s)
  }

  lemma StepKeepsStore(s: Sys, step: Step)
    requires StoreOk(s.store) && Enabled(s, step)
    ensures StoreOk(Apply(s, step).store)
    ensures Floor(s.store) <= Floor(Apply(s, step).store) && s.store.nextId <= Apply(s, step).store.nextId
  {
  }

  lemma StepKeepsShape(s: Sys, step: Step)
    requires ShapeOk(s) && Enabled(s, step)
    ensures ShapeOk(Apply(s, step))
  {
  }

  /** Entries are only added by an append, which gives them the next id. */
  lemma EntriesComeFromAppends(s: Sys, step: Step, e: Entry)
    requires Enabled(s, step) && e in Apply(s, step).store.entries
    ensures e in s.store.entries || (step.Append? && e == Entry(s.store.nextId, step.payload))
  {
  }

  lemma WillWakePersists(s: Sys, step: Step, a: nat, i: nat, id: int)
    requires ShapeOk(s) && Enabled(s, step) && WillWake(s, a, i, id) && InPhase(s, i, Waiting)
    requires !EventSet(Apply(s, step), i)
    ensures WillWake(Apply(s, step), a, i, id)
  {
  }

  lemma StepKeepsWakeups(s: Sys, step: Step, i: nat)
    requires StoreOk(s.store) && ShapeOk(s) && WakeupsOk(s) && Enabled(s, step) && i < |Apply(s, step).subscribers|
    ensures NothingLost(Apply(s, step), i)
  {
    var t := Apply(s, step);
    if t.subscribers[i].phase.Waiting? && !EventSet(t, i) {
      if InPhase(s, i, Waiting) {
        assert NothingLost(s, i) && !EventSet(s, i);
        forall e | e in t.store.entries && e.id > t.subscribers[i].last ensures exists a :: WillWake(t, a, i, e.id) {
          EntriesComeFromAppends(s, step, e);
          if e in s.store.entries {
            var a :| WillWake(s, a, i, e.id);
            WillWakePersists(s, step, a, i, e.id);
          } else {
            assert WillWake(t, |s.appenders|, i, e.id);
          }
        }
      } else {
        AfterIsFilter(s.store, s.subscribers[i].last);
      }
    }
  }

  lemma StepKeepsAppenders(s: Sys, step: Step)
    requires ShapeOk(s) && AppendersOk(s) && Enabled(s, step)
    ensures AppendersOk(Apply(s, step))
  {
    var t := Apply(s, step);
    forall a, x | 0 <= a < |t.appenders| && x in t.appenders[a].toWake ensures x < |t.subscribers| {
      assert x in s.store.subscriptions || (a < |s.appenders| && x in s.appenders[a].toWake);
    }
  }

  lemma YieldedIsOk(u: Subscriber, floor: int, nextId: nat)
    requires YieldOk(u, floor, nextId) && u.phase.Yielding?
    ensures YieldOk(Yielded(u), floor, nextId)
  {
  }

  /** What a look finds continues where the subscriber is, or starts at the lowest retained id. */
  lemma FoundIsOk(s: Store, u: Subscriber)
    requires StoreOk(s) && After(s, u.last) != []
    ensures ItemsOk(u, After(s, u.last), Floor(s), s.nextId)
  {
    var items := After(s, u.last);
    assert forall k :: 0 <= k < |items| ==> items[k] == s.entries[Skip(s, u.last) + k];
  }

  /** What is fine stays so while entries are evicted and added. */
  lemma YieldStaysOk(u: Subscriber, floor: int, nextId: nat, floor2: int, nextId2: nat)
    requires YieldOk(u, floor, nextId) && floor <= floor2 && nextId <= nextId2
    ensures YieldOk(u, floor2, nextId2)
  {
  }

  /** What a step makes of a subscriber. */
  lemma SubscriberSteps(s: Sys, step: Step, i: nat)
    requires Enabled(s, step) && i < |Apply(s, step).subscribers|
    ensures var v := Apply(s, step).subscribers[i];
      if i >= |s.subscribers| then v.start == v.last && v.yielded == [] && v.phase == First
      else
        var u := s.subscribers[i];
        || (step == Yield(i) && u.phase.Yielding? && u.phase.items != [] && v == Yielded(u))
        || (v == u.(phase := v.phase) && (v.phase.Yielding? ==>
              v == u || (v.phase.items == After(s.store, u.last) != [] && Apply(s, step).store == s.store)))
  {
  }

  lemma StepKeepsYields(s: Sys, step: Step, i: nat)
    requires StoreOk(s.store) && YieldsOk(s) && Enabled(s, step) && i < |Apply(s, step).subscribers|
    ensures YieldOk(Apply(s, step).subscribers[i], Floor(Apply(s, step).store), Apply(s, step).store.nextId)
  {
    var t := Apply(s, step);
    StepKeepsStore(s, step);
    SubscriberSteps(s, step, i);
    if i < |s.subscribers| {
      var u := s.subscribers[i];
      assert YieldOk(u, Floor(s.store), s.store.nextId);
      YieldStaysOk(u, Floor(s.store), s.store.nextId, Floor(t.store), t.store.nextId);
      if step == Yield(i) {
        YieldedIsOk(u, Floor(t.store), t.store.nextId);
      } else if After(s.store, u.last) != [] {
        FoundIsOk(s.store, u);
      }
    }
  }

  lemma StepKeepsInv(s: Sys, step: Step)
    requires Inv(s) && Enabled(s, step)
    ensures Inv(Apply(s, step))
  {
    StepKeepsStore(s, step);
    StepKeepsShape(s, step);
    StepKeepsAppenders(s, step);
    forall i | 0 <= i < |Apply(s, step).subscribers|
      ensures NothingLost(Apply(s, step), i)
      ensures YieldOk(Apply(s, step).subscribers[i], Floor(Apply(s, step).store), Apply(s, step).store.nextId)
    {
      StepKeepsWakeups(s, step, i);
      StepKeepsYields(s, step, i);
    }
  }

  lemma {:induction false} RunsKeepInv(s0: Sys, steps: seq<Step>)
    requires IsRun(s0, steps)
    ensures Inv(StateAfter(s0, steps))
    decreases |steps|
  {
    if steps != [] {
      RunsKeepInv(s0, Init(steps));
      StepKeepsInv(StateAfter(s0, Init(steps)), Last(steps));
    }
  }

  // ---------- What the store holds ----------

  /** The payloads appended by these steps, in order. */
  ghost function Payloads(steps: seq<Step>): seq<string> {
    if steps == [] then []
    else Payloads(Init(steps)) + if Last(steps).Append? then [Last(steps).payload] else []
  }

  ghost predicate NeverResized(steps: seq<Step>) {
    forall n :: 0 <= n < |steps| ==> !steps[n].Resize?
  }

  /** The store holds the last of these payloads, under their numbers from 1 on. */
  ghost predicate HoldsLast(s: Store, payloads: seq<string>) {
    && s.nextId == |payloads| + 1
    && |s.entries| == (if |payloads| < s.maxEntries then |payloads| else s.maxEntries)
    && forall i :: 0 <= i < |s.entries| ==>
         var n := |payloads| - |s.entries| + i;
         s.entries[i] == Entry(n + 1, payloads[n])
  }

  lemma AppendedHoldsLast(s: Store, payloads: seq<string>, payload: string)
    requires HoldsLast(s, payloads)
    ensures HoldsLast(Appended(s, payload), payloads + [payload])
  {
    var all := s.entries + [Entry(s.nextId, payload)];
    assert forall i :: 0 <= i < |all| ==>
      var n := |payloads| - |s.entries| + i;
      all[i] == Entry(n + 1, (payloads + [payload])[n]);
  }

  /** Without a resize, the store holds exactly the last appends, as many as fit. */
  lemma {:induction false} StoreHoldsLastAppends(s0: Sys, steps: seq<Step>)
    requires IsRun(s0, steps) && NeverResized(steps)
    ensures StateAfter(s0, steps).store.maxEntries == s0.store.maxEntries
    ensures HoldsLast(StateAfter(s0, steps).store, Payloads(steps))
    decreases |steps|
  {
    if steps != [] {
      var step := Last(steps);
      assert step == steps[|steps| - 1];
      assert NeverResized(Init(steps));
      StoreHoldsLastAppends(s0, Init(steps));
      if step.Append? {
        AppendedHoldsLast(StateAfter(s0, Init(steps)).store, Payloads(Init(steps)), step.payload);
      }
    }
  }

  // ---------- What every run guarantees ----------

  /**
    No lost wake-up: when a subscriber waits on an unset event although an unseen entry is stored, the
    append that stored that entry has yet to set this very event, and can go on doing so.
   */
  lemma NoLostWakeup(s0: Sys, steps: seq<Step>, i: nat, e: Entry) returns (a: nat, next: Step)
    requires IsRun(s0, steps) && InPhase(StateAfter(s0, steps), i, Waiting) && !EventSet(StateAfter(s0, steps), i)
    requires e in StateAfter(s0, steps).store.entries && e.id > StateAfter(s0, steps).subscribers[i].last
    ensures WillWake(StateAfter(s0, steps), a, i, e.id)
    ensures next in [ReadEvent(a), SetEvent(a)] && Enabled(StateAfter(s0, steps), next)
  {
    RunsKeepInv(s0, steps);
    var s := StateAfter(s0, steps);
    assert NothingLost(s, i);
    a :| WillWake(s, a, i, e.id);
    next := if s.appenders[a].read.None? then ReadEvent(a) else SetEvent(a);
    assert s.appenders[a].toWake[0] in s.appenders[a].toWake;
  }

  /** Once every append has finished its wake-ups, a subscriber still waiting has seen every retained entry. */
  lemma QuietMeansCaughtUp(s0: Sys, steps: seq<Step>, i: nat)
    requires IsRun(s0, steps) && InPhase(StateAfter(s0, steps), i, Waiting) && !EventSet(StateAfter(s0, steps), i)
    requires forall a :: 0 <= a < |StateAfter(s0, steps).appenders| ==> StateAfter(s0, steps).appenders[a].toWake == []
    ensures forall e :: e in StateAfter(s0, steps).store.entries ==> e.id <= StateAfter(s0, steps).subscribers[i].last
  {
    forall e | e in StateAfter(s0, steps).store.entries ensures e.id <= StateAfter(s0, steps).subscribers[i].last {
      if e.id > StateAfter(s0, steps).subscribers[i].last {
        var a, next := NoLostWakeup(s0, steps, i, e);
      }
    }
  }

  /**
    Retained ids are always the contiguous block ending at nextId - 1; every subscriber yields strictly
    increasing ids and passes over an id only if it has been evicted.
   */
  lemma YieldsAreOrderedAndGapless(s0: Sys, steps: seq<Step>, i: nat)
    requires IsRun(s0, steps) && i < |StateAfter(s0, steps).subscribers|
    ensures var s := StateAfter(s0, steps);
      var u := s.subscribers[i];
      && StoreOk(s.store)
      && Increasing(u.yielded)
      && (forall j :: u.start < j <= u.last && Floor(s.store) <= j ==> j in u.yielded)
  {
    RunsKeepInv(s0, steps);
  }
}
