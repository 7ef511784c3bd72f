/**
 Writing the whole storage out and reading it back. Maps are written as lists in whatever order they
 iterate, nested proposal queues included, and collected into maps again.
 */
module StorageWire {
  import opened Prelude
  import opened Storage

  type Pairs = seq<(Bytes, Bytes)>

  datatype Snapshot = Snapshot(groupStates: States, pastGroupStates: map<Bytes, Bytes>, groupInfos: map<Bytes, Bytes>)

  datatype StateWire = StateWire(
    treesync: Bytes,
    interimTranscriptHash: Bytes,
    context: Bytes,
    confirmationTag: Bytes,
    proposals: Pairs)

  datatype StorageWire = StorageWire(storage: Pairs, pastGroupStates: Pairs, groupInfos: Pairs)

  /** The byte codec of the two structures written. */
  datatype WireCodec = WireCodec(
    state: StateWire -> Bytes,
    fromState: Bytes -> Option<StateWire>,
    storage: StorageWire -> Bytes,
    fromStorage: Bytes -> Option<StorageWire>)

  ghost predicate LosslessWire(c: WireCodec) {
    && (forall w :: c.fromState(c.state(w)) == Some(w))
    && (forall w :: c.fromStorage(c.storage(w)) == Some(w))
  }

  /** The order in which each map's entries come up; the queues' order may depend on the queue. */
  datatype Iteration = Iteration(
    states: seq<Bytes>,
    pastGroupStates: seq<Bytes>,
    groupInfos: seq<Bytes>,
    queue: Queue -> seq<Bytes>)

  ghost predicate OrdersQueues(queue: Queue -> seq<Bytes>) {
    forall q: Queue {:trigger queue(q)} :: Enumerates(queue(q), q)
  }

  ghost predicate Iterates(it: Iteration, s: Snapshot) {
    && Enumerates(it.states, s.groupStates)
    && Enumerates(it.pastGroupStates, s.pastGroupStates)
    && Enumerates(it.groupInfos, s.groupInfos)
    && OrdersQueues(it.queue)
  }

  // ---- Lists of pairs ----

  function ToPairs(m: map<Bytes, Bytes>, order: seq<Bytes>): (ps: Pairs)
    requires forall i | 0 <= i < |order| :: order[i] in m
  {
    if order == [] then []
    else
      var n := |order| - 1;
      ToPairs(m, order[..n]) + [(order[n], m[order[n]])]
  }

  function Collect(ps: Pairs): (m: map<Bytes, Bytes>) {
    if ps == [] then map[] else Collect(ps[..|ps| - 1])[ps[|ps| - 1].0 := ps[|ps| - 1].1]
  }

  lemma {:induction false} CollectIsInverse(m: map<Bytes, Bytes>, order: seq<Bytes>)
    requires forall i | 0 <= i < |order| :: order[i] in m
    ensures Collect(ToPairs(m, order)) == map k | k in m && k in order :: m[k]
    decreases |order|
  {
    if order != [] {
      var n := |order| - 1;
      CollectIsInverse(m, order[..n]);
      var ps := ToPairs(m, order);
      assert ps[..|ps| - 1] == ToPairs(m, order[..n]);
      assert forall k :: k in order <==> k in order[..n] || k == order[n];
    }
  }

  lemma PairsRoundTrip(m: map<Bytes, Bytes>, order: seq<Bytes>)
    requires Enumerates(order, m)
    ensures Collect(ToPairs(m, order)) == m
  {
    CollectIsInverse(m, order);
  }

  // ---- Group records ----

  function StateToWire(g: GroupState, order: seq<Bytes>): (w: StateWire)
    requires Enumerates(order, g.proposals)
  {
    StateWire(g.treesync, g.interimTranscriptHash, g.context, g.confirmationTag, ToPairs(g.proposals, order))
  }

  function StateFromWire(w: StateWire): (g: GroupState) {
    GroupState(w.treesync, w.interimTranscriptHash, w.context, w.confirmationTag, Collect(w.proposals))
  }

  lemma StateRoundTrip(g: GroupState, order: seq<Bytes>)
    requires Enumerates(order, g.proposals)
    ensures StateFromWire(StateToWire(g, order)) == g
  {
    PairsRoundTrip(g.proposals, order);
  }

  ghost function StatePairs(c: WireCodec, queue: Queue -> seq<Bytes>, states: States, order: seq<Bytes>): (ps: Pairs)
    requires (forall i | 0 <= i < |order| :: order[i] in states) && OrdersQueues(queue)
  {
    if order == [] then []
    else
      var n := |order| - 1;
      var g := states[order[n]];
      StatePairs(c, queue, states, order[..n]) + [(order[n], c.state(StateToWire(g, queue(g.proposals))))]
  }

  /** Fails as soon as one record does not decode. */
  function CollectStates(c: WireCodec, ps: Pairs): (r: Option<States>) {
    if ps == [] then Some(map[])
    else
      var n := |ps| - 1;
      match (CollectStates(c, ps[..n]), c.fromState(ps[n].1))
      case (Some(states), Some(w)) => Some(states[ps[n].0 := StateFromWire(w)])
      case _ => None
  }

  lemma {:induction false} CollectStatesIsInverse(c: WireCodec, queue: Queue -> seq<Bytes>, states: States, order: seq<Bytes>)
    requires LosslessWire(c)
    requires (forall i | 0 <= i < |order| :: order[i] in states) && OrdersQueues(queue)
    ensures CollectStates(c, StatePairs(c, queue, states, order)) == Some(map k | k in states && k in order :: states[k])
    decreases |order|
  {
    if order != [] {
      var n := |order| - 1;
      CollectStatesIsInverse(c, queue, states, order[..n]);
      var ps := StatePairs(c, queue, states, order);
      assert ps[..|ps| - 1] == StatePairs(c, queue, states, order[..n]);
      var g := states[order[n]];
      StateRoundTrip(g, queue(g.proposals));
      assert c.fromState(ps[|ps| - 1].1) == Some(StateToWire(g, queue(g.proposals)));
      var front := map k | k in states && k in order[..n] :: states[k];
      assert forall k :: k in order <==> k in order[..n] || k == order[n];
      assert front[order[n] := g] == map k | k in states && k in order :: states[k];
    }
  }

  // ---- The whole storage ----

  ghost function Serialize(c: WireCodec, it: Iteration, s: Snapshot): (b: Bytes)
    requires Iterates(it, s)
  {
    c.storage(StorageWire(StatePairs(c, it.queue, s.groupStates, it.states),
                          ToPairs(s.pastGroupStates, it.pastGroupStates),
                          ToPairs(s.groupInfos, it.groupInfos)))
  }

  function Deserialize(c: WireCodec, b: Bytes): (r: Option<Snapshot>) {
    match c.fromStorage(b)
    case None => None
    case Some(w) =>
      match CollectStates(c, w.storage)
      case None => None
      case Some(states) => Some(Snapshot(states, Collect(w.pastGroupStates), Collect(w.groupInfos)))
  }

  /** Whatever order the maps iterate in, reading back gives an equal storage. */
  lemma DeserializeRestores(c: WireCodec, it: Iteration, s: Snapshot)
    requires LosslessWire(c) && Iterates(it, s)
    ensures Deserialize(c, Serialize(c, it, s)) == Some(s)
  {
    CollectStatesIsInverse(c, it.queue, s.groupStates, it.states);
    assert (map k | k in s.groupStates && k in it.states :: s.groupStates[k]) == s.groupStates;
    PairsRoundTrip(s.pastGroupStates, it.pastGroupStates);
    PairsRoundTrip(s.groupInfos, it.groupInfos);
  }
}
