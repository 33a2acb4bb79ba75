/**
 The rendezvous between an on-demand history request and its reply. Callers
 register, receive and release; event handlers deliver in two atomic steps --
 take the channel under the lock, send on it after unlocking. The state machine
 below interleaves those steps in every order; the class performs them.
 */
module Pending {
  import opened Text

  datatype Delivery = Delivery(inserted: int, delivered: int, oldest: Option<int>)

  /** What a deliverer holds between unlocking and sending. */
  datatype Taken = Taken(channel: nat, delivery: Delivery)

  /** Channels are numbered as they are made; `keyOf` is what each release closure captured. */
  datatype State = State(
    waiters: map<string, nat>,
    made: nat,
    keyOf: map<nat, string>,
    buffers: map<nat, seq<Delivery>>,
    inFlight: map<nat, Taken>,
    released: set<nat>)

  const EMPTY := State(map[], 0, map[], map[], map[], {})

  /** Each make(chan historyDelivery, 1). */
  const CAPACITY := 1

  datatype Action =
    | Register(key: string)
    | Take(worker: nat, key: string, delivery: Delivery)
    | Send(worker: nat)
    | Receive(channel: nat)
    | Release(channel: nat)

  /** When a step can be taken: a send needs room in the buffer, a receive something in it. */
  predicate Enabled(s: State, a: Action) {
    match a
    case Register(_) => true
    case Take(worker, _, _) => worker !in s.inFlight
    case Send(worker) =>
      worker in s.inFlight
      && s.inFlight[worker].channel in s.buffers
      && |s.buffers[s.inFlight[worker].channel]| < CAPACITY
    case Receive(channel) => channel in s.buffers && s.buffers[channel] != []
    case Release(channel) => channel in s.keyOf
  }

  function Without<K, V>(m: map<K, V>, k: K): map<K, V> {
    map x | x in m && x != k :: m[x]
  }

  function Step(s: State, a: Action): State
    requires Enabled(s, a)
  {
    match a
    case Register(key) =>
      if key in s.waiters then s
      else s.(waiters := s.waiters[key := s.made], made := s.made + 1,
              keyOf := s.keyOf[s.made := key], buffers := s.buffers[s.made := []])
    case Take(worker, key, delivery) =>
      if key !in s.waiters then s
      else s.(waiters := Without(s.waiters, key), inFlight := s.inFlight[worker := Taken(s.waiters[key], delivery)])
    case Send(worker) =>
      var t := s.inFlight[worker];
      s.(inFlight := Without(s.inFlight, worker), buffers := s.buffers[t.channel := s.buffers[t.channel] + [t.delivery]])
    case Receive(channel) =>
      s.(buffers := s.buffers[channel := s.buffers[channel][1..]])
    case Release(channel) =>
      if channel in s.released then s
      else
        var key := s.keyOf[channel];
        s.(released := s.released + {channel},
           waiters := if key in s.waiters && s.waiters[key] == channel then Without(s.waiters, key) else s.waiters)
  }

  // ------------------------------------------------------------- the invariant

  predicate Waiting(s: State, channel: nat) {
    channel in s.keyOf && s.keyOf[channel] in s.waiters && s.waiters[s.keyOf[channel]] == channel
  }

  ghost predicate InFlight(s: State, channel: nat) {
    exists w :: w in s.inFlight && s.inFlight[w].channel == channel
  }

  ghost predicate Invariant(s: State) {
    && (forall c: nat :: c in s.keyOf <==> c < s.made)
    && s.buffers.Keys == s.keyOf.Keys
    && (forall k :: k in s.waiters ==> s.waiters[k] in s.keyOf && s.keyOf[s.waiters[k]] == k && s.waiters[k] !in s.released)
    && (forall w :: w in s.inFlight ==> s.inFlight[w].channel in s.keyOf && !Waiting(s, s.inFlight[w].channel))
    && (forall v, w :: v in s.inFlight && w in s.inFlight && v != w ==> s.inFlight[v].channel != s.inFlight[w].channel)
    && (forall k :: k in s.waiters ==> s.buffers[s.waiters[k]] == [])
    && (forall w :: w in s.inFlight ==> s.buffers[s.inFlight[w].channel] == [])
    && s.released <= s.keyOf.Keys
  }

  lemma StepKeepsInvariant(s: State, a: Action)
    requires Invariant(s) && Enabled(s, a)
    ensures Invariant(Step(s, a))
  {
    match a {
      case Register(key) => RegisterKeepsInvariant(s, key);
      case Take(worker, key, delivery) => TakeKeepsInvariant(s, worker, key, delivery);
      case Send(worker) => SendKeepsInvariant(s, worker);
      case Receive(channel) =>
      case Release(channel) => ReleaseKeepsInvariant(s, channel);
    }
  }

  lemma RegisterKeepsInvariant(s: State, key: string)
    requires Invariant(s)
    ensures Invariant(Step(s, Register(key)))
  {
    var t := Step(s, Register(key));
    if key !in s.waiters {
      assert s.made !in s.keyOf;
      forall w | w in t.inFlight ensures !Waiting(t, t.inFlight[w].channel) {
        assert !Waiting(s, s.inFlight[w].channel);
      }
    }
  }

  lemma TakeKeepsInvariant(s: State, worker: nat, key: string, delivery: Delivery)
    requires Invariant(s) && Enabled(s, Take(worker, key, delivery))
    ensures Invariant(Step(s, Take(worker, key, delivery)))
  {
    var t := Step(s, Take(worker, key, delivery));
    if key in s.waiters {
      var c := s.waiters[key];
      assert Waiting(s, c) && !Waiting(t, c);
      forall w | w in s.inFlight ensures s.inFlight[w].channel != c && !Waiting(t, s.inFlight[w].channel) {
        assert !Waiting(s, s.inFlight[w].channel);
      }
    }
  }

  lemma SendKeepsInvariant(s: State, worker: nat)
    requires Invariant(s) && Enabled(s, Send(worker))
    ensures Invariant(Step(s, Send(worker)))
  {
    var t := Step(s, Send(worker));
    var c := s.inFlight[worker].channel;
    forall w | w in t.inFlight ensures t.inFlight[w].channel != c && !Waiting(t, t.inFlight[w].channel) {
      assert w in s.inFlight && w != worker && !Waiting(s, s.inFlight[w].channel);
    }
    forall k | k in t.waiters ensures t.waiters[k] != c {
      assert Waiting(s, s.waiters[k]);
    }
  }

  lemma ReleaseKeepsInvariant(s: State, channel: nat)
    requires Invariant(s) && Enabled(s, Release(channel))
    ensures Invariant(Step(s, Release(channel)))
  {
    var t := Step(s, Release(channel));
    forall w | w in t.inFlight ensures !Waiting(t, t.inFlight[w].channel) {
      assert !Waiting(s, s.inFlight[w].channel);
    }
  }

  // --------------------------------------------------------------------- runs

  /** An interleaving: any actions, each enabled when it is taken, from the empty registry. */
  ghost predicate IsRun(states: seq<State>, actions: seq<Action>) {
    && |states| == |actions| + 1
    && states[0] == EMPTY
    && forall i :: 0 <= i < |actions| ==> Enabled(states[i], actions[i]) && states[i + 1] == Step(states[i], actions[i])
  }

  lemma {:induction false} RunKeepsInvariant(states: seq<State>, actions: seq<Action>, n: nat)
    requires IsRun(states, actions) && n <= |actions|
    ensures Invariant(states[n])
  {
    if n > 0 {
      RunKeepsInvariant(states, actions, n - 1);
      StepKeepsInvariant(states[n - 1], actions[n - 1]);
    }
  }

  /** Step `i` puts a delivery on `channel`. */
  ghost predicate SendsTo(states: seq<State>, actions: seq<Action>, i: nat, channel: nat)
    requires IsRun(states, actions) && i < |actions|
  {
    actions[i].Send? && states[i].inFlight[actions[i].worker].channel == channel
  }

  /** Step `i` takes `channel` out of the registry under its key, to deliver `d` on it. */
  ghost predicate TakesFor(states: seq<State>, actions: seq<Action>, i: nat, channel: nat, d: Delivery)
    requires IsRun(states, actions) && i < |actions|
  {
    && actions[i].Take? && actions[i].delivery == d
    && actions[i].key in states[i].waiters && states[i].waiters[actions[i].key] == channel
  }

  ghost predicate Registers(states: seq<State>, actions: seq<Action>, i: nat, channel: nat, key: string)
    requires IsRun(states, actions) && i < |actions|
  {
    actions[i] == Register(key) && key !in states[i].waiters && states[i].made == channel
  }

  /** A deliverer that holds a channel can always send: the buffered send never blocks. */
  lemma SendNeverBlocks(states: seq<State>, actions: seq<Action>, n: nat, worker: nat)
    requires IsRun(states, actions) && n <= |actions| && worker in states[n].inFlight
    ensures Enabled(states[n], Send(worker))
  {
    RunKeepsInvariant(states, actions, n);
  }

  /** Made, but neither registered nor about to be sent to. */
  ghost predicate Spent(s: State, channel: nat) {
    channel in s.keyOf && !Waiting(s, channel) && !InFlight(s, channel)
  }

  lemma SendSpends(s: State, worker: nat)
    requires Invariant(s) && Enabled(s, Send(worker))
    ensures Spent(Step(s, Send(worker)), s.inFlight[worker].channel)
  {
    assert !Waiting(s, s.inFlight[worker].channel);
  }

  lemma SpentStep(s: State, a: Action, channel: nat)
    requires Invariant(s) && Enabled(s, a) && Spent(s, channel)
    ensures Spent(Step(s, a), channel)
  {
    var t := Step(s, a);
    assert !Waiting(t, channel);
    forall w | w in t.inFlight ensures t.inFlight[w].channel != channel {
      if w in s.inFlight && t.inFlight[w] == s.inFlight[w] {
      } else {
        assert a.Take? && w == a.worker && Waiting(s, s.waiters[a.key]);
      }
    }
  }

  lemma {:induction false} SpentChannelStaysSpent(states: seq<State>, actions: seq<Action>, i: nat, n: nat, channel: nat)
    requires IsRun(states, actions) && i < n <= |actions|
    requires SendsTo(states, actions, i, channel)
    ensures Spent(states[n], channel)
    decreases n
  {
    RunKeepsInvariant(states, actions, n - 1);
    if n > i + 1 {
      SpentChannelStaysSpent(states, actions, i, n - 1, channel);
      SpentStep(states[n - 1], actions[n - 1], channel);
    } else {
      SendSpends(states[i], actions[i].worker);
    }
  }

  /** In every interleaving each channel is sent to at most once. */
  lemma ChannelSentToOnce(states: seq<State>, actions: seq<Action>, i: nat, j: nat, channel: nat)
    requires IsRun(states, actions) && i < |actions| && j < |actions|
    requires SendsTo(states, actions, i, channel) && SendsTo(states, actions, j, channel)
    ensures i == j
  {
    if i < j {
      SpentChannelStaysSpent(states, actions, i, j, channel);
    } else if j < i {
      SpentChannelStaysSpent(states, actions, j, i, channel);
    }
  }

  lemma {:induction false} KeysNeverChange(states: seq<State>, actions: seq<Action>, i: nat, n: nat, channel: nat)
    requires IsRun(states, actions) && i <= n <= |actions|
    requires channel in states[i].keyOf
    ensures channel in states[n].keyOf && states[n].keyOf[channel] == states[i].keyOf[channel]
    decreases n
  {
    if i < n {
      KeysNeverChange(states, actions, i, n - 1, channel);
      RunKeepsInvariant(states, actions, n - 1);
    }
  }

  lemma {:induction false} EveryChannelWasRegistered(states: seq<State>, actions: seq<Action>, n: nat, channel: nat) returns (h: nat)
    requires IsRun(states, actions) && n <= |actions| && channel in states[n].keyOf
    ensures h < n && Registers(states, actions, h, channel, states[n].keyOf[channel])
  {
    RunKeepsInvariant(states, actions, n);
    RunKeepsInvariant(states, actions, n - 1);
    if channel in states[n - 1].keyOf {
      KeysNeverChange(states, actions, n - 1, n, channel);
      h := EveryChannelWasRegistered(states, actions, n - 1, channel);
    } else {
      h := n - 1;
    }
  }

  /** Every delivery under way or waiting to be read was taken for that very channel. */
  lemma {:induction false} EveryDeliveryWasTaken(states: seq<State>, actions: seq<Action>, n: nat,
      channel: nat, d: Delivery) returns (i: nat)
    requires IsRun(states, actions) && n <= |actions|
    requires || (exists w :: w in states[n].inFlight && states[n].inFlight[w] == Taken(channel, d))
             || (channel in states[n].buffers && d in states[n].buffers[channel])
    ensures i < n && TakesFor(states, actions, i, channel, d)
  {
    assert n > 0;
    var s, a := states[n - 1], actions[n - 1];
    RunKeepsInvariant(states, actions, n - 1);
    if a.Take? && a.key in s.waiters && s.waiters[a.key] == channel && a.delivery == d {
      i := n - 1;
    } else {
      assert || (exists w :: w in s.inFlight && s.inFlight[w] == Taken(channel, d))
             || (channel in s.buffers && d in s.buffers[channel]) by {
        CarriedOver(s, a, channel, d);
      }
      i := EveryDeliveryWasTaken(states, actions, n - 1, channel, d);
    }
  }

  lemma CarriedOver(s: State, a: Action, channel: nat, d: Delivery)
    requires Invariant(s) && Enabled(s, a)
    requires var t := Step(s, a);
             || (exists w :: w in t.inFlight && t.inFlight[w] == Taken(channel, d))
             || (channel in t.buffers && d in t.buffers[channel])
    requires !(a.Take? && a.key in s.waiters && s.waiters[a.key] == channel && a.delivery == d)
    ensures || (exists w :: w in s.inFlight && s.inFlight[w] == Taken(channel, d))
            || (channel in s.buffers && d in s.buffers[channel])
  {
    var t := Step(s, a);
    if w :| w in t.inFlight && t.inFlight[w] == Taken(channel, d) {
      assert w in s.inFlight && s.inFlight[w] == Taken(channel, d);
    } else if a.Send? && s.inFlight[a.worker].channel == channel {
      assert d in s.buffers[channel] || d == s.inFlight[a.worker].delivery;
    }
  }

  /** A waiter only receives a delivery that was made for its own key, after it registered that
      key and while it was still the registered waiter for it. */
  lemma ReceivesItsOwnReply(states: seq<State>, actions: seq<Action>, j: nat) returns (h: nat, i: nat)
    requires IsRun(states, actions) && j < |actions| && actions[j].Receive?
    ensures var channel := actions[j].channel;
            && channel in states[j].keyOf && h < i < j
            && Registers(states, actions, h, channel, states[j].keyOf[channel])
            && TakesFor(states, actions, i, channel, states[j].buffers[channel][0])
            && actions[i].key == states[j].keyOf[channel]
            && channel !in states[i].released
  {
    var channel := actions[j].channel;
    RunKeepsInvariant(states, actions, j);
    i := EveryDeliveryWasTaken(states, actions, j, channel, states[j].buffers[channel][0]);
    RunKeepsInvariant(states, actions, i);
    KeysNeverChange(states, actions, i, j, channel);
    h := EveryChannelWasRegistered(states, actions, i, channel);
  }

  /** A registered request stays registered until it is taken for a delivery or released. */
  lemma {:induction false} NoLostRequest(states: seq<State>, actions: seq<Action>, n: nat, channel: nat)
    requires IsRun(states, actions) && n <= |actions| && channel in states[n].keyOf
    requires channel !in states[n].released
    requires forall i, d :: 0 <= i < n ==> !TakesFor(states, actions, i, channel, d)
    ensures Waiting(states[n], channel)
  {
    RunKeepsInvariant(states, actions, n);
    RunKeepsInvariant(states, actions, n - 1);
    var s, a := states[n - 1], actions[n - 1];
    if channel in s.keyOf {
      NoLostRequest(states, actions, n - 1, channel);
      if a.Take? && a.key in s.waiters {
        assert !TakesFor(states, actions, n - 1, channel, a.delivery);
      }
    }
  }

  /** The delivery is on its way to the channel, or lies in its buffer. */
  ghost predicate Held(s: State, channel: nat, d: Delivery) {
    || (exists w :: w in s.inFlight && s.inFlight[w] == Taken(channel, d))
    || (Spent(s, channel) && channel in s.buffers && s.buffers[channel] == [d])
  }

  /** The channel has been read, and nothing will ever be put on it again. */
  ghost predicate Read(s: State, channel: nat) {
    Spent(s, channel) && channel in s.buffers && s.buffers[channel] == []
  }

  lemma HeldStep(s: State, a: Action, channel: nat, d: Delivery)
    requires Invariant(s) && Enabled(s, a) && Held(s, channel, d)
    ensures if a == Receive(channel) then Read(Step(s, a), channel) else Held(Step(s, a), channel, d)
  {
    var t := Step(s, a);
    if w :| w in s.inFlight && s.inFlight[w] == Taken(channel, d) {
      if a == Send(w) {
        SendSpends(s, w);
        assert t.buffers[channel] == [] + [d];
      } else {
        assert t.inFlight[w] == s.inFlight[w];
      }
    } else {
      SpentStep(s, a, channel);
      KeepsBuffer(s, a, channel);
    }
  }

  lemma KeepsBuffer(s: State, a: Action, channel: nat)
    requires Invariant(s) && Enabled(s, a) && Spent(s, channel)
    ensures channel in Step(s, a).buffers
    ensures a != Receive(channel) ==> Step(s, a).buffers[channel] == s.buffers[channel]
    ensures a == Receive(channel) ==> Step(s, a).buffers[channel] == s.buffers[channel][1..]
  {
  }

  lemma ReadIsNotHeld(s: State, channel: nat, d: Delivery)
    requires Read(s, channel)
    ensures !Held(s, channel, d)
  {
    assert !InFlight(s, channel);
  }

  lemma ReadStep(s: State, a: Action, channel: nat)
    requires Invariant(s) && Enabled(s, a) && Read(s, channel)
    ensures Read(Step(s, a), channel)
  {
    SpentStep(s, a, channel);
    KeepsBuffer(s, a, channel);
  }

  lemma HeldOrReadStep(s: State, a: Action, channel: nat, d: Delivery)
    requires Invariant(s) && Enabled(s, a) && (Held(s, channel, d) || Read(s, channel))
    ensures Held(Step(s, a), channel, d) <==> Held(s, channel, d) && a != Receive(channel)
    ensures Held(Step(s, a), channel, d) || Read(Step(s, a), channel)
  {
    if Held(s, channel, d) {
      HeldStep(s, a, channel, d);
    } else {
      ReadStep(s, a, channel);
    }
    if Read(Step(s, a), channel) {
      ReadIsNotHeld(Step(s, a), channel, d);
    }
  }

  /** Nobody received on the channel between steps `i` and `n`. */
  ghost predicate Unread(actions: seq<Action>, i: nat, n: nat, channel: nat)
    requires n <= |actions|
  {
    forall j :: i < j < n ==> actions[j] != Receive(channel)
  }

  lemma TakenIsHeld(s: State, a: Action, channel: nat, d: Delivery)
    requires Enabled(s, a) && a.Take? && a.delivery == d && a.key in s.waiters && s.waiters[a.key] == channel
    ensures Held(Step(s, a), channel, d)
  {
    assert Step(s, a).inFlight[a.worker] == Taken(channel, d);
  }

  /** No delivery is lost: what was taken for a channel is on its way or in the buffer exactly
      until somebody receives on that channel. */
  lemma {:induction false} DeliveryWaitsForItsReader(
      states: seq<State>, actions: seq<Action>, i: nat, n: nat, channel: nat, d: Delivery)
    requires IsRun(states, actions) && i < n <= |actions| && TakesFor(states, actions, i, channel, d)
    ensures Held(states[n], channel, d) <==> Unread(actions, i, n, channel)
    ensures Held(states[n], channel, d) || Read(states[n], channel)
    decreases n
  {
    if n == i + 1 {
      TakenIsHeld(states[i], actions[i], channel, d);
    } else {
      DeliveryWaitsForItsReader(states, actions, i, n - 1, channel, d);
      RunKeepsInvariant(states, actions, n - 1);
      HeldOrReadStep(states[n - 1], actions[n - 1], channel, d);
    }
  }

  /** A release, stale or repeated, only ever removes its own entry. */
  lemma ReleaseRemovesOnlyItsOwn(s: State, channel: nat, key: string)
    requires Invariant(s) && Enabled(s, Release(channel))
    ensures var t := Step(s, Release(channel));
            && (key in t.waiters <==> key in s.waiters && s.waiters[key] != channel)
            && (key in t.waiters ==> t.waiters[key] == s.waiters[key])
            && Step(t, Release(channel)) == t
  {
    if key in s.waiters && s.waiters[key] == channel {
      assert s.keyOf[channel] == key;
    }
  }

  /** At most one waiter per key, and once every caller has released nothing is left behind. */
  lemma RegistryIsClean(states: seq<State>, actions: seq<Action>, n: nat)
    requires IsRun(states, actions) && n <= |actions|
    ensures forall c, d :: Waiting(states[n], c) && Waiting(states[n], d) && states[n].keyOf[c] == states[n].keyOf[d] ==> c == d
    ensures (forall c :: c in states[n].keyOf ==> c in states[n].released) ==> states[n].waiters == map[]
  {
    RunKeepsInvariant(states, actions, n);
    NobodyWaits(states[n]);
  }

  lemma NobodyWaits(s: State)
    requires Invariant(s)
    ensures s.keyOf.Keys <= s.released ==> s.waiters == map[]
    ensures (forall c :: c in s.keyOf ==> c in s.released) <==> s.keyOf.Keys <= s.released
  {
    if s.waiters != map[] {
      var k :| k in s.waiters;
      assert s.waiters[k] in s.keyOf && s.waiters[k] !in s.released;
    }
  }

  // ------------------------------------------------------------------ the registry

  class PendingHistory {
    var waiters: map<string, nat>
    var made: nat
    var keyOf: map<nat, string>
    var buffers: map<nat, seq<Delivery>>
    var inFlight: map<nat, Taken>
    var released: set<nat>

    function View(): State reads this {
      State(waiters, made, keyOf, buffers, inFlight, released)
    }

    constructor ()
      ensures View() == EMPTY && Invariant(View())
    {
      waiters, made, keyOf, buffers, inFlight, released := map[], 0, map[], map[], map[], {};
    }

    /** Claims the key; `None` is ErrSyncInProgress. */
    method Register(key: string) returns (channel: Option<nat>)
      requires Invariant(View())
      modifies this
      ensures Invariant(View()) && View() == Step(old(View()), Action.Register(key))
      ensures channel == if key in old(waiters) then None else Some(old(made))
      ensures channel.Some? ==> Waiting(View(), channel.value)
    {
      StepKeepsInvariant(View(), Action.Register(key));
      if key in waiters { return None; }
      channel := Some(made);
      waiters, keyOf, buffers := waiters[key := made], keyOf[made := key], buffers[made := []];
      made := made + 1;
    }

    /** The locked half of a delivery: finds the waiter and takes it out. */
    method TakeWaiter(worker: nat, key: string, delivery: Delivery) returns (found: bool)
      requires Invariant(View()) && Enabled(View(), Take(worker, key, delivery))
      modifies this
      ensures Invariant(View()) && View() == Step(old(View()), Take(worker, key, delivery))
      ensures found <==> key in old(waiters)
    {
      StepKeepsInvariant(View(), Take(worker, key, delivery));
      if key !in waiters { return false; }
      inFlight := inFlight[worker := Taken(waiters[key], delivery)];
      waiters := Without(waiters, key);
      return true;
    }

    /** The unlocked half: the send that must find room. */
    method SendDelivery(worker: nat)
      requires Invariant(View()) && worker in inFlight
      modifies this
      ensures Enabled(old(View()), Send(worker))
      ensures Invariant(View()) && View() == Step(old(View()), Send(worker))
    {
      StepKeepsInvariant(View(), Send(worker));
      var t := inFlight[worker];
      buffers := buffers[t.channel := buffers[t.channel] + [t.delivery]];
      inFlight := Without(inFlight, worker);
    }

    /** The whole of deliver, when nothing runs between its halves. */
    method Deliver(worker: nat, key: string, delivery: Delivery) returns (woken: bool)
      requires Invariant(View()) && worker !in inFlight
      modifies this
      ensures Invariant(View()) && inFlight == old(inFlight)
      ensures woken <==> key in old(waiters)
      ensures woken ==> buffers == old(buffers)[old(waiters)[key] := [delivery]]
      ensures waiters == Without(old(waiters), key)
      ensures !woken ==> View() == old(View())
    {
      assert key in waiters ==> buffers[waiters[key]] == [];
      woken := TakeWaiter(worker, key, delivery);
      if woken {
        assert inFlight[worker] == Taken(old(waiters)[key], delivery);
        assert [] + [delivery] == [delivery];
        SendDelivery(worker);
      }
    }

    /** A second call does nothing, and neither does one whose key has a newer channel. */
    method ReleaseChannel(channel: nat)
      requires Invariant(View()) && channel in keyOf
      modifies this
      ensures Invariant(View()) && View() == Step(old(View()), Release(channel))
      ensures !Waiting(View(), channel)
    {
      StepKeepsInvariant(View(), Release(channel));
      if channel in released { return; }
      released := released + {channel};
      var key := keyOf[channel];
      if key in waiters && waiters[key] == channel { waiters := Without(waiters, key); }
    }

    /** How many keys are waited on: none once every caller has released. */
    method WaiterCount() returns (n: nat)
      requires Invariant(View())
      ensures n == |waiters.Keys|
      ensures keyOf.Keys <= released ==> n == 0
    {
      n := |waiters|;
      NobodyWaits(View());
    }
  }
}
