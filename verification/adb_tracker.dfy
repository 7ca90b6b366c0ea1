/** The device tracker: a mirror of adb's device list, kept by diffing its snapshots. */
module AdbTracker {

  type Serial = string
  type State = string

  datatype Device = Device(serial: Serial, state: State)

  datatype Event = Add(serial: Serial, state: State) | Change(serial: Serial, state: State) | Remove(serial: Serial)

  // ------------------------------------------------------- what a snapshot means

  /** The device map of a snapshot: the last line for a serial counts. */
  function StateMap(devices: seq<Device>): map<Serial, State> {
    if devices == [] then map[] else
    var last := devices[|devices| - 1];
    StateMap(devices[..|devices| - 1])[last.serial := last.state]
  }

  /** Its serials in the order they first appear. */
  function Keys(devices: seq<Device>): seq<Serial> {
    if devices == [] then [] else
    var keys := Keys(devices[..|devices| - 1]);
    var serial := devices[|devices| - 1].serial;
    if serial in keys then keys else keys + [serial]
  }

  ghost predicate Distinct(keys: seq<Serial>) {
    forall i, j | 0 <= i < j < |keys| :: keys[i] != keys[j]
  }

  lemma {:induction false} KeysAreDomain(devices: seq<Device>)
    ensures Distinct(Keys(devices)) && forall s :: s in Keys(devices) <==> s in StateMap(devices)
    decreases |devices|
  {
    if devices != [] { KeysAreDomain(devices[..|devices| - 1]); }
  }

  lemma {:induction false} DomainIsListed(devices: seq<Device>)
    ensures forall s :: s in StateMap(devices) <==> exists d :: d in devices && d.serial == s
    decreases |devices|
  {
    if devices != [] {
      var init, last := devices[..|devices| - 1], devices[|devices| - 1];
      DomainIsListed(init);
      assert devices == init + [last];
      forall s
        ensures s in StateMap(devices) <==> exists d :: d in devices && d.serial == s
      {
        if s == last.serial { assert last in devices; }
        else if s in StateMap(init) { var d :| d in init && d.serial == s; assert d in devices; }
      }
    }
  }

  /** Devices listed behind others take over the serials they mention. */
  lemma {:induction false} StateMapOfAppend(a: seq<Device>, b: seq<Device>)
    ensures StateMap(a + b) == StateMap(a) + StateMap(b)
    decreases |b|
  {
    if b == [] {
      assert a + b == a;
    } else {
      StateMapOfAppend(a, b[..|b| - 1]);
      assert (a + b)[..|a + b| - 1] == a + b[..|b| - 1];
    }
  }

  // -------------------------------------------------------------------- diffing

  /** What a diff says of a serial: one event when its state differs, none when it does not. */
  function Expected(p: map<Serial, State>, n: map<Serial, State>, s: Serial): seq<Event> {
    if s in n then
      if s !in p then [Add(s, n[s])] else if p[s] != n[s] then [Change(s, n[s])] else []
    else if s in p then [Remove(s)] else []
  }

  /** The additions and changes for some serials of the new snapshot. */
  function Upserts(prev: map<Serial, State>, keys: seq<Serial>, next: map<Serial, State>): seq<Event> {
    if keys == [] then [] else
    Upserts(prev, keys[..|keys| - 1], next) + Expected(prev, next, keys[|keys| - 1])
  }

  function Removals(keys: seq<Serial>, next: map<Serial, State>): seq<Event> {
    if keys == [] then [] else
    var serial := keys[|keys| - 1];
    Removals(keys[..|keys| - 1], next) + if serial in next then [] else [Remove(serial)]
  }

  function Diff(prev: seq<Device>, next: seq<Device>): seq<Event> {
    KeysAreDomain(next);
    Upserts(StateMap(prev), Keys(next), StateMap(next)) + Removals(Keys(prev), StateMap(next))
  }

  // The order of a diff.

  /** Where a snapshot first mentions a serial, or its length. */
  function FirstOf(devices: seq<Device>, s: Serial): (k: nat)
    ensures k <= |devices| && (k < |devices| ==> devices[k].serial == s)
    ensures forall i | 0 <= i < k :: devices[i].serial != s
  {
    if devices == [] then 0 else
    var n := |devices| - 1;
    var k := FirstOf(devices[..n], s);
    if k < n || devices[n].serial == s then k else n + 1
  }

  /** Keys in the order their serials are first mentioned. */
  ghost predicate ByFirst(devices: seq<Device>, keys: seq<Serial>) {
    forall i, j | 0 <= i < j < |keys| :: FirstOf(devices, keys[i]) < FirstOf(devices, keys[j])
  }

  lemma {:induction false} KeysByFirst(devices: seq<Device>)
    ensures ByFirst(devices, Keys(devices)) && forall s | s in Keys(devices) :: FirstOf(devices, s) < |devices|
    decreases |devices|
  {
    hide FirstOf, StateMap;
    if devices != [] {
      var init, last := devices[..|devices| - 1], devices[|devices| - 1];
      KeysByFirst(init);
      forall s | s in Keys(init)
        ensures FirstOf(devices, s) == FirstOf(init, s)
      {
        FirstStays(devices, s);
      }
      if last.serial !in Keys(init) { FirstIsLast(devices); }
    }
  }

  lemma FirstStays(devices: seq<Device>, s: Serial)
    requires devices != [] && FirstOf(devices[..|devices| - 1], s) < |devices| - 1
    ensures FirstOf(devices, s) == FirstOf(devices[..|devices| - 1], s)
  {
  }

  lemma FirstIsLast(devices: seq<Device>)
    requires devices != [] && devices[|devices| - 1].serial !in Keys(devices[..|devices| - 1])
    ensures FirstOf(devices, devices[|devices| - 1].serial) == |devices| - 1
  {
    hide StateMap;
    var init, serial := devices[..|devices| - 1], devices[|devices| - 1].serial;
    KeysAreDomain(init);
    DomainIsListed(init);
    assert forall i | 0 <= i < |init| :: init[i] in init && init[i].serial != serial;
  }

  ghost predicate EventsByFirst(devices: seq<Device>, events: seq<Event>) {
    forall i, j | 0 <= i < j < |events| :: FirstOf(devices, events[i].serial) < FirstOf(devices, events[j].serial)
  }

  lemma {:induction false} UpsertsByFirst(devices: seq<Device>, prev: map<Serial, State>, keys: seq<Serial>, next: map<Serial, State>)
    requires ByFirst(devices, keys) && forall s | s in keys :: s in next
    ensures var events := Upserts(prev, keys, next);
      EventsByFirst(devices, events) && forall e | e in events :: !e.Remove? && e.serial in keys
    decreases |keys|
  {
    hide FirstOf, Expected, ByFirst, EventsByFirst;
    if keys == [] {
      NoEvents(devices);
    } else {
      var init, last := keys[..|keys| - 1], keys[|keys| - 1];
      assert keys == init + [last];
      FirstKeys(devices, keys);
      UpsertsByFirst(devices, prev, init, next);
      AtMostOneUpsert(prev, next, last);
      OneMoreByFirst(devices, init, last, Upserts(prev, init, next), Expected(prev, next, last));
    }
  }

  lemma NoEvents(devices: seq<Device>)
    ensures EventsByFirst(devices, [])
  {
  }

  lemma FirstKeys(devices: seq<Device>, keys: seq<Serial>)
    requires keys != [] && ByFirst(devices, keys)
    ensures ByFirst(devices, keys[..|keys| - 1])
  {
    hide FirstOf;
  }

  /** Events about keys, and at most one about the key behind them. */
  lemma OneMoreByFirst(devices: seq<Device>, init: seq<Serial>, last: Serial, events: seq<Event>, more: seq<Event>)
    requires ByFirst(devices, init + [last]) && EventsByFirst(devices, events)
    requires (forall e | e in events :: e.serial in init) && |more| <= 1 && forall e | e in more :: e.serial == last
    ensures EventsByFirst(devices, events + more)
  {
    hide FirstOf;
    var all := events + more;
    forall i, j | 0 <= i < j < |all|
      ensures FirstOf(devices, all[i].serial) < FirstOf(devices, all[j].serial)
    {
      if j == |events| {
        assert all[i] in events && all[j] in more;
        var k :| 0 <= k < |init| && init[k] == all[i].serial;
        assert (init + [last])[k] == all[i].serial && (init + [last])[|init|] == last;
      }
    }
  }

  lemma AtMostOneUpsert(prev: map<Serial, State>, next: map<Serial, State>, s: Serial)
    requires s in next
    ensures var events := Expected(prev, next, s);
      events == [] || (|events| == 1 && !events[0].Remove? && events[0].serial == s)
  {
  }

  lemma {:induction false} RemovalsByFirst(devices: seq<Device>, keys: seq<Serial>, next: map<Serial, State>)
    requires ByFirst(devices, keys)
    ensures var events := Removals(keys, next);
      EventsByFirst(devices, events) && forall e | e in events :: e.Remove? && e.serial in keys
    decreases |keys|
  {
    hide FirstOf;
    if keys != [] {
      var init, last := keys[..|keys| - 1], keys[|keys| - 1];
      assert keys == init + [last];
      RemovalsByFirst(devices, init, next);
      OneMoreByFirst(devices, init, last, Removals(init, next), if last in next then [] else [Remove(last)]);
    }
  }

  /** Additions and changes come in the order of the new snapshot, and then the removals in the order of the old one. */
  lemma DiffIsOrdered(prev: seq<Device>, next: seq<Device>, i: nat, j: nat)
    requires i < j < |Diff(prev, next)|
    ensures var e, f := Diff(prev, next)[i], Diff(prev, next)[j];
      && (e.Remove? ==> f.Remove?)
      && (!e.Remove? && !f.Remove? ==> FirstOf(next, e.serial) < FirstOf(next, f.serial) < |next|)
      && (e.Remove? && f.Remove? ==> FirstOf(prev, e.serial) < FirstOf(prev, f.serial) < |prev|)
  {
    hide FirstOf, Upserts, Removals, Keys, StateMap;
    KeysByFirst(next);
    KeysByFirst(prev);
    KeysAreDomain(next);
    UpsertsByFirst(next, StateMap(prev), Keys(next), StateMap(next));
    RemovalsByFirst(prev, Keys(prev), StateMap(next));
    var ups, gone := Upserts(StateMap(prev), Keys(next), StateMap(next)), Removals(Keys(prev), StateMap(next));
    var e, f := Diff(prev, next)[i], Diff(prev, next)[j];
    assert if i < |ups| then e == ups[i] && e in ups else e == gone[i - |ups|] && e in gone;
    assert if j < |ups| then f == ups[j] && f in ups else f == gone[j - |ups|] && f in gone;
  }

  method IndexDevices(devices: seq<Device>) returns (states: map<Serial, State>, keys: seq<Serial>)
    ensures states == StateMap(devices) && keys == Keys(devices)
  {
    states, keys := map[], [];
    for i := 0 to |devices|
      invariant states == StateMap(devices[..i]) && keys == Keys(devices[..i])
    {
      assert devices[..i + 1][..i] == devices[..i];
      var d := devices[i];
      if d.serial !in keys { keys := keys + [d.serial]; }
      states := states[d.serial := d.state];
    }
    assert devices[..|devices|] == devices;
  }

  method DiffSnapshots(prev: seq<Device>, next: seq<Device>) returns (events: seq<Event>)
    ensures events == Diff(prev, next)
  {
    hide StateMap, Keys, Upserts, Removals;
    var prevMap, prevKeys := IndexDevices(prev);
    var nextMap, nextKeys := IndexDevices(next);
    KeysAreDomain(next);
    var upserts := CollectUpserts(prevMap, nextKeys, nextMap);
    var removals := CollectRemovals(prevKeys, nextMap);
    return upserts + removals;
  }

  method CollectUpserts(prev: map<Serial, State>, keys: seq<Serial>, next: map<Serial, State>) returns (events: seq<Event>)
    requires forall s | s in keys :: s in next
    ensures events == Upserts(prev, keys, next)
  {
    events := [];
    for i := 0 to |keys|
      invariant events == Upserts(prev, keys[..i], next)
    {
      assert keys[..i + 1][..i] == keys[..i];
      var serial := keys[i];
      if serial !in prev {
        events := events + [Add(serial, next[serial])];
      } else if prev[serial] != next[serial] {
        events := events + [Change(serial, next[serial])];
      }
    }
    assert keys[..|keys|] == keys;
  }

  method CollectRemovals(keys: seq<Serial>, next: map<Serial, State>) returns (events: seq<Event>)
    ensures events == Removals(keys, next)
  {
    events := [];
    for i := 0 to |keys|
      invariant events == Removals(keys[..i], next)
    {
      assert keys[..i + 1][..i] == keys[..i];
      if keys[i] !in next { events := events + [Remove(keys[i])]; }
    }
    assert keys[..|keys|] == keys;
  }

  // ------------------------------------------------------------------ replaying

  function ApplyEvent(m: map<Serial, State>, e: Event): map<Serial, State> {
    match e
    case Add(s, state) => m[s := state]
    case Change(s, state) => m[s := state]
    case Remove(s) => m - {s}
  }

  /** An addition is of something new, a change of something known and different, a removal of something known. */
  predicate MakesSense(m: map<Serial, State>, e: Event) {
    match e
    case Add(s, _) => s !in m
    case Change(s, state) => s in m && m[s] != state
    case Remove(s) => s in m
  }

  function Replay(m: map<Serial, State>, events: seq<Event>): map<Serial, State> {
    if events == [] then m else ApplyEvent(Replay(m, events[..|events| - 1]), events[|events| - 1])
  }

  ghost predicate Sensible(m: map<Serial, State>, events: seq<Event>) {
    events == [] ||
    (Sensible(m, events[..|events| - 1]) && MakesSense(Replay(m, events[..|events| - 1]), events[|events| - 1]))
  }

  lemma {:induction false} ReplayAppend(m: map<Serial, State>, a: seq<Event>, b: seq<Event>)
    ensures Replay(m, a + b) == Replay(Replay(m, a), b)
    ensures Sensible(m, a + b) <==> Sensible(m, a) && Sensible(Replay(m, a), b)
    decreases |b|
  {
    if b == [] {
      assert a + b == a;
    } else {
      ReplayAppend(m, a, b[..|b| - 1]);
      assert (a + b)[..|a + b| - 1] == a + b[..|b| - 1];
    }
  }

  /** The states the upserts of some keys leave. */
  ghost predicate Overrides(m: map<Serial, State>, prev: map<Serial, State>, keys: seq<Serial>, next: map<Serial, State>)
    requires forall s | s in keys :: s in next
  {
    && (forall s :: s in m <==> s in keys || s in prev)
    && (forall s | s in m :: m[s] == if s in keys then next[s] else prev[s])
  }

  lemma {:induction false} ReplayUpserts(prev: map<Serial, State>, keys: seq<Serial>, next: map<Serial, State>)
    requires Distinct(keys) && forall s | s in keys :: s in next
    ensures Overrides(Replay(prev, Upserts(prev, keys, next)), prev, keys, next)
    ensures Sensible(prev, Upserts(prev, keys, next))
    decreases |keys|
  {
    hide Overrides, Replay, Sensible, Distinct, Expected;
    if keys == [] {
      UpsertNothing(prev, next);
      assert keys == [];
    } else {
      var init, serial := keys[..|keys| - 1], keys[|keys| - 1];
      DistinctInit(keys);
      ReplayUpserts(prev, init, next);
      var rest := Upserts(prev, init, next);
      OverridesOneMore(Replay(prev, rest), prev, keys, next);
      ReplayAppend(prev, rest, Expected(prev, next, serial));
      ReplayExpected(Replay(prev, rest), prev, next, serial);
    }
  }

  lemma UpsertNothing(prev: map<Serial, State>, next: map<Serial, State>)
    ensures Overrides(Replay(prev, []), prev, [], next) && Sensible(prev, [])
  {
  }

  lemma DistinctInit(keys: seq<Serial>)
    requires Distinct(keys) && keys != []
    ensures Distinct(keys[..|keys| - 1]) && keys[|keys| - 1] !in keys[..|keys| - 1]
  {
  }

  lemma ReplayOne(m: map<Serial, State>, e: Event)
    ensures Replay(m, [e]) == ApplyEvent(m, e) && (Sensible(m, [e]) <==> MakesSense(m, e))
  {
    assert [e][..0] == [];
    assert Sensible(m, []);
  }

  lemma ReplayExpected(m: map<Serial, State>, prev: map<Serial, State>, next: map<Serial, State>, s: Serial)
    requires s in next && (s in m <==> s in prev) && (s in m ==> m[s] == prev[s])
    ensures Replay(m, Expected(prev, next, s)) == m[s := next[s]] && Sensible(m, Expected(prev, next, s))
  {
    var said := Expected(prev, next, s);
    if said == [] {
      assert m[s := next[s]] == m;
    } else {
      ReplayOne(m, said[0]);
    }
  }

  lemma OverridesOneMore(m: map<Serial, State>, prev: map<Serial, State>, keys: seq<Serial>, next: map<Serial, State>)
    requires Distinct(keys) && keys != [] && forall s | s in keys :: s in next
    requires Overrides(m, prev, keys[..|keys| - 1], next)
    ensures var serial := keys[|keys| - 1];
      && (serial in m <==> serial in prev) && (serial in m ==> m[serial] == prev[serial])
      && Overrides(m[serial := next[serial]], prev, keys, next)
  {
    var init, serial := keys[..|keys| - 1], keys[|keys| - 1];
    assert serial !in init;
    assert keys == init + [serial];
  }

  lemma {:induction false} ReplayRemovals(m: map<Serial, State>, keys: seq<Serial>, next: map<Serial, State>)
    requires Distinct(keys) && forall s | s in keys :: s in m
    ensures Replay(m, Removals(keys, next)) == m - (set s | s in keys && s !in next)
    ensures Sensible(m, Removals(keys, next))
    decreases |keys|
  {
    hide Replay, Sensible;
    if keys == [] {
      ReplayNothing(m);
      assert m - (set s | s in keys && s !in next) == m;
    } else {
      var init, serial := keys[..|keys| - 1], keys[|keys| - 1];
      ReplayRemovals(m, init, next);
      assert serial !in init;
      assert keys == init + [serial];
      var gone, gone' := set s | s in init && s !in next, set s | s in keys && s !in next;
      if serial in next {
        assert gone == gone';
        assert Removals(keys, next) == Removals(init, next);
      } else {
        ReplayAppend(m, Removals(init, next), [Remove(serial)]);
        ReplayOne(m - gone, Remove(serial));
        LessOne(m, gone, gone', serial);
      }
    }
  }

  lemma LessOne(m: map<Serial, State>, gone: set<Serial>, gone': set<Serial>, serial: Serial)
    requires gone' == gone + {serial}
    ensures m - gone' == m - gone - {serial}
  {
  }

  lemma ReplayNothing(m: map<Serial, State>)
    ensures Replay(m, []) == m && Sensible(m, [])
  {
  }

  /** Replaying a diff on the old map gives the new map, and every event of it makes sense when it comes. */
  lemma DiffReplays(prev: seq<Device>, next: seq<Device>)
    ensures Replay(StateMap(prev), Diff(prev, next)) == StateMap(next)
    ensures Sensible(StateMap(prev), Diff(prev, next))
  {
    hide StateMap, Keys, Upserts, Removals, Replay, Sensible;
    var p, n := StateMap(prev), StateMap(next);
    KeysAreDomain(prev);
    KeysAreDomain(next);
    var upserts, removals := Upserts(p, Keys(next), n), Removals(Keys(prev), n);
    ReplayUpserts(p, Keys(next), n);
    var m := Replay(p, upserts);
    ReplayRemovals(m, Keys(prev), n);
    ReplayAppend(p, upserts, removals);
    OnlyNextRemains(m, p, Keys(prev), Keys(next), n);
  }

  lemma OnlyNextRemains(m: map<Serial, State>, p: map<Serial, State>, prevKeys: seq<Serial>, nextKeys: seq<Serial>,
                        n: map<Serial, State>)
    requires forall s :: s in nextKeys <==> s in n
    requires forall s :: s in prevKeys <==> s in p
    requires Overrides(m, p, nextKeys, n)
    ensures m - (set s | s in prevKeys && s !in n) == n
  {
  }

  /** The events about one serial. */
  function About(events: seq<Event>, s: Serial): seq<Event> {
    if events == [] then [] else
    About(events[..|events| - 1], s) + if events[|events| - 1].serial == s then [events[|events| - 1]] else []
  }

  lemma {:induction false} AboutAppend(a: seq<Event>, b: seq<Event>, s: Serial)
    ensures About(a + b, s) == About(a, s) + About(b, s)
    decreases |b|
  {
    if b == [] {
      assert a + b == a;
    } else {
      AboutAppend(a, b[..|b| - 1], s);
      assert (a + b)[..|a + b| - 1] == a + b[..|b| - 1];
    }
  }

  lemma {:induction false} AboutUpserts(prev: map<Serial, State>, keys: seq<Serial>, next: map<Serial, State>, s: Serial)
    requires Distinct(keys)
    ensures About(Upserts(prev, keys, next), s) == if s in keys then Expected(prev, next, s) else []
    decreases |keys|
  {
    hide About, Distinct, Expected;
    if keys == [] {
      AboutNothing(s);
    } else {
      var init, serial := keys[..|keys| - 1], keys[|keys| - 1];
      DistinctInit(keys);
      AboutUpserts(prev, init, next, s);
      assert s in keys <==> s in init || s == serial by { assert keys == init + [serial]; }
      AboutAppend(Upserts(prev, init, next), Expected(prev, next, serial), s);
      AboutExpected(prev, next, serial, s);
    }
  }

  lemma AboutNothing(s: Serial)
    ensures About([], s) == []
  {
  }

  lemma AboutOne(e: Event, s: Serial)
    ensures About([e], s) == if e.serial == s then [e] else []
  {
    assert [e][..0] == [];
  }

  lemma AboutExpected(prev: map<Serial, State>, next: map<Serial, State>, serial: Serial, s: Serial)
    ensures About(Expected(prev, next, serial), s) == if s == serial then Expected(prev, next, s) else []
  {
    var said := Expected(prev, next, serial);
    if said != [] { AboutOne(said[0], s); }
  }

  lemma {:induction false} AboutRemovals(keys: seq<Serial>, next: map<Serial, State>, s: Serial)
    requires Distinct(keys)
    ensures About(Removals(keys, next), s) == if s in keys && s !in next then [Remove(s)] else []
    decreases |keys|
  {
    hide About, Distinct;
    if keys != [] {
      var init, serial := keys[..|keys| - 1], keys[|keys| - 1];
      DistinctInit(keys);
      AboutRemovals(init, next, s);
      assert s in keys <==> s in init || s == serial by { assert keys == init + [serial]; }
      var said := if serial in next then [] else [Remove(serial)];
      AboutAppend(Removals(init, next), said, s);
      AboutOne(Remove(serial), s);
      AboutNothing(s);
    } else {
      AboutNothing(s);
    }
  }

  lemma DiffAbout(prev: seq<Device>, next: seq<Device>, s: Serial)
    ensures About(Diff(prev, next), s) == Expected(StateMap(prev), StateMap(next), s)
  {
    hide StateMap, Keys, Upserts, Removals, About;
    KeysAreDomain(prev);
    KeysAreDomain(next);
    AboutUpserts(StateMap(prev), Keys(next), StateMap(next), s);
    AboutRemovals(Keys(prev), StateMap(next), s);
    AboutAppend(Upserts(StateMap(prev), Keys(next), StateMap(next)), Removals(Keys(prev), StateMap(next)), s);
  }

  // ---------------------------------------------------------------- the tracker

  /**
   * `reconnecting` and `backoffMs` belong to the running loop; `emitted` is every event a
   * diff gave rise to, and `told` those the listeners heard.
   */
  datatype Tracker = Tracker(current: seq<Device>, settleUntil: int, reconnecting: bool, backoffMs: int,
                             emitted: seq<Event>, told: seq<Event>)

  const IDLE: Tracker := Tracker([], 0, false, 1000, [], [])

  predicate Settling(t: Tracker, now: int) {
    t.settleUntil > 0 && now < t.settleUntil
  }

  /** The devices of `current` that `next` does not mention. */
  function Carried(current: seq<Device>, next: seq<Device>): seq<Device> {
    if current == [] then [] else
    var d := current[|current| - 1];
    Carried(current[..|current| - 1], next) + if exists n | n in next :: n.serial == d.serial then [] else [d]
  }

  function Effective(t: Tracker, now: int, next: seq<Device>): seq<Device> {
    if Settling(t, now) then next + Carried(t.current, next) else next
  }

  datatype Action =
    | LoopStarts
    | Connects(now: int)
    | HandshakeDone
    | SnapshotRead(now: int, next: seq<Device>, heard: nat) // the events a listener hears before one throws
    | Drops

  const FIRST_BACKOFF := 1000
  const MAX_BACKOFF := 5000

  /** The first `heard` events, or all of them. */
  function Front(events: seq<Event>, heard: nat): seq<Event> {
    if heard < |events| then events[..heard] else events
  }

  function Step(t: Tracker, graceMs: int, a: Action): Tracker {
    match a
    case LoopStarts => t.(reconnecting := false, backoffMs := FIRST_BACKOFF)
    case Connects(now) =>
      t.(settleUntil := if t.reconnecting && graceMs > 0 then now + graceMs else 0, reconnecting := true)
    case HandshakeDone => t.(backoffMs := FIRST_BACKOFF)
    case SnapshotRead(now, next, heard) =>
      var effective := Effective(t, now, next);
      var events := Diff(t.current, effective);
      t.(current := effective, emitted := t.emitted + events, told := t.told + Front(events, heard))
    case Drops => t.(backoffMs := if t.backoffMs * 2 < MAX_BACKOFF then t.backoffMs * 2 else MAX_BACKOFF)
  }

  function Exec(t: Tracker, graceMs: int, actions: seq<Action>): Tracker {
    if actions == [] then t else Step(Exec(t, graceMs, actions[..|actions| - 1]), graceMs, actions[|actions| - 1])
  }

  class DeviceTracker {
    const graceMs: int
    var current: seq<Device>
    var settleUntil: int
    var reconnecting: bool
    var backoffMs: int
    ghost var emitted: seq<Event>
    /** The calls of the listeners. */
    var told: seq<Event>

    ghost function Now(): Tracker
      reads this
    {
      Tracker(current, settleUntil, reconnecting, backoffMs, emitted, told)
    }

    constructor (graceMs: int)
      ensures Now() == IDLE && this.graceMs == graceMs
    {
      this.graceMs := graceMs;
      current, settleUntil, reconnecting, backoffMs, emitted, told := [], 0, false, 1000, [], [];
    }

    /** What the snapshot is diffed as: while settling, with the devices it does not mention. */
    method CarryForward(now: int, next: seq<Device>) returns (effective: seq<Device>)
      ensures effective == Effective(Now(), now, next)
    {
      if settleUntil <= 0 || now >= settleUntil { return next; }
      var carried := [];
      for i := 0 to |current|
        invariant carried == Carried(current[..i], next)
      {
        assert current[..i + 1][..i] == current[..i];
        if !exists n | n in next :: n.serial == current[i].serial { carried := carried + [current[i]]; }
      }
      assert current[..|current|] == current;
      if |carried| == 0 {
        assert next + carried == next;
        return next;
      }
      return next + carried;
    }

    /** Telling the listeners, until one throws at the event numbered `throwsAt`. */
    method Tell(events: seq<Event>, throwsAt: nat) returns (threw: bool)
      modifies this`told
      ensures told == old(told) + Front(events, throwsAt) && threw == (throwsAt < |events|)
    {
      for i := 0 to |events|
        invariant told == old(told) + events[..i] && i <= throwsAt
      {
        if i == throwsAt { return true; }
        assert events[..i + 1] == events[..i] + [events[i]];
        told := told + [events[i]];
      }
      assert events[..|events|] == events;
      return false;
    }

    /** The mirror is replaced before any listener hears of it. */
    method EmitFromSnapshot(now: int, next: seq<Device>, throwsAt: nat) returns (threw: bool)
      modifies this`current, this`emitted, this`told
      ensures Now() == Step(old(Now()), graceMs, SnapshotRead(now, next, throwsAt))
      ensures threw == (throwsAt < |Diff(old(current), current)|)
    {
      hide Diff, Carried, Front;
      var effective := CarryForward(now, next);
      var events := DiffSnapshots(current, effective);
      current, emitted := effective, emitted + events;
      threw := Tell(events, throwsAt);
    }

    method StartLoop()
      modifies this
      ensures Now() == Step(old(Now()), graceMs, LoopStarts)
    {
      reconnecting, backoffMs := false, FIRST_BACKOFF;
    }

    method SocketOpened(now: int)
      modifies this
      ensures Now() == Step(old(Now()), graceMs, Connects(now))
    {
      settleUntil := if reconnecting && graceMs > 0 then now + graceMs else 0;
      reconnecting := true;
    }

    /** How long to sleep before the next attempt. */
    method ConnectionDropped() returns (sleepMs: int)
      modifies this
      ensures sleepMs == old(backoffMs) && Now() == Step(old(Now()), graceMs, Drops)
    {
      sleepMs := backoffMs;
      backoffMs := if backoffMs * 2 < MAX_BACKOFF then backoffMs * 2 else MAX_BACKOFF;
    }
  }

  // --------------------------------------------------------------------- proofs

  lemma {:induction false} CarriedMeans(current: seq<Device>, next: seq<Device>)
    ensures StateMap(Carried(current, next)) == StateMap(current) - StateMap(next).Keys
    decreases |current|
  {
    if current != [] {
      var init, d := current[..|current| - 1], current[|current| - 1];
      CarriedMeans(init, next);
      DomainIsListed(next);
      var carried, all := Carried(init, next), Carried(current, next);
      if d.serial in StateMap(next) {
        assert all == carried;
        assert StateMap(current) - StateMap(next).Keys == StateMap(init) - StateMap(next).Keys;
      } else {
        assert all[..|all| - 1] == carried;
        assert StateMap(current) - StateMap(next).Keys == (StateMap(init) - StateMap(next).Keys)[d.serial := d.state];
      }
    }
  }

  /** A snapshot replaces the map, except while settling, when it only overrides it. */
  lemma SnapshotMeans(t: Tracker, graceMs: int, now: int, next: seq<Device>, heard: nat)
    ensures StateMap(Step(t, graceMs, SnapshotRead(now, next, heard)).current)
         == if Settling(t, now) then StateMap(t.current) + StateMap(next) else StateMap(next)
  {
    if Settling(t, now) {
      CarriedMeans(t.current, next);
      StateMapOfAppend(next, Carried(t.current, next));
      assert StateMap(next) + (StateMap(t.current) - StateMap(next).Keys) == StateMap(t.current) + StateMap(next);
    }
  }

  /**
   * On every run, replaying every event the diffs gave rise to, from nothing, gives the
   * map of the current devices, and no event was out of place.
   */
  lemma {:induction false} EventsReproduceCurrent(graceMs: int, actions: seq<Action>)
    ensures var t := Exec(IDLE, graceMs, actions);
      Replay(map[], t.emitted) == StateMap(t.current) && Sensible(map[], t.emitted)
    decreases |actions|
  {
    if actions != [] {
      var a := actions[|actions| - 1];
      var t := Exec(IDLE, graceMs, actions[..|actions| - 1]);
      EventsReproduceCurrent(graceMs, actions[..|actions| - 1]);
      if a.SnapshotRead? {
        var effective := Effective(t, a.now, a.next);
        DiffReplays(t.current, effective);
        ReplayAppend(map[], t.emitted, Diff(t.current, effective));
      }
    }
  }

  /** The listeners know the mirror: replaying what they heard gives the map of the current devices. */
  ghost predicate InStep(t: Tracker) {
    Replay(map[], t.told) == StateMap(t.current)
  }

  /** The events of a snapshot, all of which are heard. */
  ghost predicate AllHeard(t: Tracker, a: Action) {
    a.SnapshotRead? ==> a.heard >= |Diff(t.current, Effective(t, a.now, a.next))|
  }

  /** Every event of a run from `t` is heard. */
  ghost predicate HeardFrom(t: Tracker, graceMs: int, actions: seq<Action>) {
    actions == [] ||
    var before := actions[..|actions| - 1];
    HeardFrom(t, graceMs, before) && AllHeard(Exec(t, graceMs, before), actions[|actions| - 1])
  }

  /** A serial no event is about keeps what it has. */
  lemma {:induction false} ReplayUntouched(m: map<Serial, State>, events: seq<Event>, s: Serial)
    requires About(events, s) == []
    ensures var m' := Replay(m, events); (s in m' <==> s in m) && (s in m ==> m'[s] == m[s])
    decreases |events|
  {
    if events != [] { ReplayUntouched(m, events[..|events| - 1], s); }
  }

  /** A diff cut short never replays to the new map: what its next event is about stays as it was. */
  lemma CutDiffDiffers(prev: seq<Device>, next: seq<Device>, heard: nat)
    requires heard < |Diff(prev, next)|
    ensures Replay(StateMap(prev), Diff(prev, next)[..heard]) != StateMap(next)
  {
    hide Diff, StateMap, Replay, About;
    var events := Diff(prev, next);
    var s := events[heard].serial;
    DiffAbout(prev, next, s);
    NotYetHeard(events, heard);
    ReplayUntouched(StateMap(prev), events[..heard], s);
  }

  /** Of at most one event about a serial, nothing is heard before it. */
  lemma NotYetHeard(events: seq<Event>, heard: nat)
    requires heard < |events| && |About(events, events[heard].serial)| <= 1
    ensures About(events[..heard], events[heard].serial) == [] && About(events, events[heard].serial) != []
  {
    hide About;
    var e := events[heard];
    var front, back := events[..heard], events[heard + 1..];
    assert events == front + ([e] + back);
    AboutAppend(front, [e] + back, e.serial);
    AboutAppend([e], back, e.serial);
    AboutOne(e, e.serial);
  }

  /** One step keeps the listeners in step exactly when they hear all of it. */
  lemma InStepIff(t: Tracker, graceMs: int, a: Action)
    requires InStep(t)
    ensures InStep(Step(t, graceMs, a)) <==> AllHeard(t, a)
  {
    if a.SnapshotRead? {
      var effective := Effective(t, a.now, a.next);
      var events := Diff(t.current, effective);
      hide Diff, Effective, StateMap, Replay;
      ReplayAppend(map[], t.told, Front(events, a.heard));
      DiffReplays(t.current, effective);
      if a.heard < |events| { CutDiffDiffers(t.current, effective, a.heard); }
    }
  }

  /** After every prefix of the run the listeners are in step. */
  ghost predicate AlwaysInStep(graceMs: int, actions: seq<Action>) {
    forall n | 0 <= n <= |actions| :: InStep(Exec(IDLE, graceMs, actions[..n]))
  }

  /**
   * Replaying what the listeners heard gives the map of the current devices, at every
   * point of a run, if and only if no listener ever threw with an event still to be heard.
   */
  lemma {:induction false} ListenersInStepIff(graceMs: int, actions: seq<Action>)
    ensures AlwaysInStep(graceMs, actions) <==> HeardFrom(IDLE, graceMs, actions)
    decreases |actions|
  {
    hide InStep, AllHeard, Step;
    if actions == [] {
      NobodyHeard(graceMs);
      assert forall n | 0 <= n <= |actions| :: actions[..n] == [];
    } else {
      var before, a := actions[..|actions| - 1], actions[|actions| - 1];
      ListenersInStepIff(graceMs, before);
      assert forall n | 0 <= n <= |before| :: before[..n] == actions[..n];
      assert actions[..|actions|] == actions;
      assert before[..|before|] == before;
      if AlwaysInStep(graceMs, before) {
        assert InStep(Exec(IDLE, graceMs, before[..|before|]));
        InStepIff(Exec(IDLE, graceMs, before), graceMs, a);
      }
    }
  }

  lemma NobodyHeard(graceMs: int)
    ensures InStep(Exec(IDLE, graceMs, []))
  {
  }

  /** What one snapshot gives rise to about a serial, and how much of it is heard. */
  lemma SnapshotSays(t: Tracker, graceMs: int, now: int, next: seq<Device>, heard: nat, s: Serial)
    ensures var t' := Step(t, graceMs, SnapshotRead(now, next, heard));
      var said := Expected(StateMap(t.current), StateMap(t'.current), s);
      && About(t'.emitted, s) == About(t.emitted, s) + said
      && (About(t'.told, s) == About(t.told, s) + said || About(t'.told, s) == About(t.told, s))
      && (AllHeard(t, SnapshotRead(now, next, heard)) ==> About(t'.told, s) == About(t.told, s) + said)
  {
    var effective := Effective(t, now, next);
    var events := Diff(t.current, effective);
    DiffAbout(t.current, effective, s);
    AboutAppend(t.emitted, events, s);
    AboutAppend(t.told, Front(events, heard), s);
    FrontAbout(events, heard, s);
  }

  /** Of at most one event about a serial, a front part has it or has none. */
  lemma FrontAbout(events: seq<Event>, heard: nat, s: Serial)
    requires |About(events, s)| <= 1
    ensures About(Front(events, heard), s) == About(events, s) || About(Front(events, heard), s) == []
  {
    hide About;
    if heard < |events| {
      var front, rest := events[..heard], events[heard..];
      assert events == front + rest;
      AboutAppend(front, rest, s);
      if About(front, s) != [] { assert About(front, s) + About(rest, s) == About(front, s); }
    }
  }

  /** Where the grace window of a run ends, read off its actions: 0 when its last connection was not a reconnection. */
  function WindowEnd(graceMs: int, actions: seq<Action>): int {
    if actions == [] then 0 else
    var init, a := actions[..|actions| - 1], actions[|actions| - 1];
    if a.Connects? then
      if ConnectedInLoop(init) && graceMs > 0 then a.now + graceMs else 0
    else WindowEnd(graceMs, init)
  }

  /** The running loop has connected before. */
  predicate ConnectedInLoop(actions: seq<Action>) {
    actions != [] &&
    var a := actions[|actions| - 1];
    (a.Connects? || (!a.LoopStarts? && ConnectedInLoop(actions[..|actions| - 1])))
  }

  lemma {:induction false} WindowIsTracked(graceMs: int, actions: seq<Action>)
    ensures var t := Exec(IDLE, graceMs, actions);
      t.settleUntil == WindowEnd(graceMs, actions) && t.reconnecting == ConnectedInLoop(actions)
    decreases |actions|
  {
    hide Diff, Effective;
    if actions != [] { WindowIsTracked(graceMs, actions[..|actions| - 1]); }
  }

  /** On every run, a snapshot replaces the map, except inside the grace window of a reconnection, when it only overrides it. */
  lemma SnapshotOnRun(graceMs: int, actions: seq<Action>, now: int, next: seq<Device>, heard: nat)
    ensures var before, after := Exec(IDLE, graceMs, actions).current, Exec(IDLE, graceMs, actions + [SnapshotRead(now, next, heard)]).current;
      StateMap(after) == if 0 < WindowEnd(graceMs, actions) && now < WindowEnd(graceMs, actions)
                         then StateMap(before) + StateMap(next) else StateMap(next)
  {
    hide Diff;
    WindowIsTracked(graceMs, actions);
    assert (actions + [SnapshotRead(now, next, heard)])[..|actions|] == actions;
    SnapshotMeans(Exec(IDLE, graceMs, actions), graceMs, now, next, heard);
  }

  /** A snapshot read inside the grace window of a reconnection removes no device, on any run. */
  lemma NoRemoveWhileSettling(graceMs: int, actions: seq<Action>, now: int, next: seq<Device>, heard: nat, s: Serial)
    requires 0 < WindowEnd(graceMs, actions) && now < WindowEnd(graceMs, actions)
    ensures var t, t' := Exec(IDLE, graceMs, actions), Exec(IDLE, graceMs, actions + [SnapshotRead(now, next, heard)]);
      && (s in StateMap(t.current) ==> s in StateMap(t'.current))
      && (exists said :: About(t'.emitted, s) == About(t.emitted, s) + said && Remove(s) !in said)
      && (exists said :: About(t'.told, s) == About(t.told, s) + said && Remove(s) !in said)
  {
    hide Diff;
    var t := Exec(IDLE, graceMs, actions);
    WindowIsTracked(graceMs, actions);
    assert (actions + [SnapshotRead(now, next, heard)])[..|actions|] == actions;
    SnapshotMeans(t, graceMs, now, next, heard);
    SnapshotSays(t, graceMs, now, next, heard, s);
    var t' := Step(t, graceMs, SnapshotRead(now, next, heard));
    assert Remove(s) !in Expected(StateMap(t.current), StateMap(t'.current), s);
    if About(t'.told, s) == About(t.told, s) { assert About(t'.told, s) == About(t.told, s) + []; }
  }

  /** No snapshot mentions the serial. */
  ghost predicate AbsentFromAll(actions: seq<Action>, s: Serial) {
    forall a | a in actions && a.SnapshotRead? :: s !in StateMap(a.next)
  }

  /** Some snapshot was read outside the grace window there was at its time. */
  ghost predicate ReadOutside(t: Tracker, graceMs: int, actions: seq<Action>) {
    exists n :: 0 <= n < |actions| && OutsideAt(t, graceMs, actions, n)
  }

  predicate OutsideAt(t: Tracker, graceMs: int, actions: seq<Action>, n: nat)
    requires n < |actions|
  {
    actions[n].SnapshotRead? && !Settling(Exec(t, graceMs, actions[..n]), actions[n].now)
  }

  lemma ReadOutsideGrows(t: Tracker, graceMs: int, init: seq<Action>, a: Action)
    ensures ReadOutside(t, graceMs, init + [a])
      <==> ReadOutside(t, graceMs, init) || (a.SnapshotRead? && !Settling(Exec(t, graceMs, init), a.now))
  {
    hide Exec, Settling;
    var actions := init + [a];
    assert actions[..|init|] == init;
    assert forall n | 0 <= n < |init| :: actions[..n] == init[..n];
    if ReadOutside(t, graceMs, init) {
      var n :| 0 <= n < |init| && OutsideAt(t, graceMs, init, n);
      assert OutsideAt(t, graceMs, actions, n);
    }
    if a.SnapshotRead? && !Settling(Exec(t, graceMs, init), a.now) { assert OutsideAt(t, graceMs, actions, |init|); }
    if ReadOutside(t, graceMs, actions) {
      var n :| 0 <= n < |actions| && OutsideAt(t, graceMs, actions, n);
      if n < |init| { assert OutsideAt(t, graceMs, init, n); }
    }
  }

  /**
   * A known device that no snapshot mentions any more is removed exactly once, whatever
   * connections, handshakes, drops and restarts of the loop come in between: not before a
   * snapshot is read outside the window of the last reconnection, and by the first one that
   * is. The listeners hear of it at most once, and for certain if they hear every event.
   * (The statement holds of every prefix of the run, and so says when.)
   */
  lemma {:induction false} AbsentDeviceRemovedOnce(t: Tracker, graceMs: int, actions: seq<Action>, s: Serial)
    requires s in StateMap(t.current) && AbsentFromAll(actions, s)
    ensures var t' := Exec(t, graceMs, actions);
      var outside := ReadOutside(t, graceMs, actions);
      && About(t'.emitted, s) == About(t.emitted, s) + (if outside then [Remove(s)] else [])
      && (s in StateMap(t'.current) <==> !outside)
      && (About(t'.told, s) == About(t.told, s) || (outside && About(t'.told, s) == About(t.told, s) + [Remove(s)]))
      && (HeardFrom(t, graceMs, actions) && outside ==> About(t'.told, s) == About(t.told, s) + [Remove(s)])
    decreases |actions|
  {
    hide Diff, Carried, StateMap, About, ReadOutside, AllHeard;
    if actions == [] {
      assert !ReadOutside(t, graceMs, actions) by { NothingReadOutside(t, graceMs); }
      assert About(t.emitted, s) + [] == About(t.emitted, s);
    } else {
      var init, a := actions[..|actions| - 1], actions[|actions| - 1];
      assert actions == init + [a];
      AbsentDeviceRemovedOnce(t, graceMs, init, s);
      ReadOutsideGrows(t, graceMs, init, a);
      var mid := Exec(t, graceMs, init);
      if a.SnapshotRead? {
        SnapshotMeans(mid, graceMs, a.now, a.next, a.heard);
        SnapshotSays(mid, graceMs, a.now, a.next, a.heard, s);
      }
    }
  }

  lemma NothingReadOutside(t: Tracker, graceMs: int)
    ensures !ReadOutside(t, graceMs, [])
  {
  }

  /** The drops since the loop started or a handshake last succeeded. */
  function FailuresInARow(actions: seq<Action>): nat {
    if actions == [] then 0 else
    var init, a := actions[..|actions| - 1], actions[|actions| - 1];
    if a.LoopStarts? || a.HandshakeDone? then 0
    else FailuresInARow(init) + if a.Drops? then 1 else 0
  }

  /** The sleeps of an outage are 1, 2 and 4 seconds, and 5 from then on. */
  lemma {:induction false} BackoffDoubles(graceMs: int, actions: seq<Action>)
    ensures var n := FailuresInARow(actions);
      Exec(IDLE, graceMs, actions).backoffMs == if n == 0 then 1000 else if n == 1 then 2000 else if n == 2 then 4000 else 5000
    decreases |actions|
  {
    hide Diff, Effective;
    if actions != [] { BackoffDoubles(graceMs, actions[..|actions| - 1]); }
  }
}
