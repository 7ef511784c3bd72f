/**
 The delivery service's in-memory group storage: packed per-group records, created on first write and
 dropped when empty, behave like one plain map per kind of data plus one of proposals.
 */
module Storage {
  import opened Prelude

  type Bytes = seq<nat>

  datatype Kind = TreeSync | InterimTranscriptHash | Context | ConfirmationTag

  type Queue = map<Bytes, Bytes>

  datatype GroupState = GroupState(
    treesync: Bytes,
    interimTranscriptHash: Bytes,
    context: Bytes,
    confirmationTag: Bytes,
    proposals: Queue)
  {
    predicate IsEmpty() {
      treesync == [] && interimTranscriptHash == [] && context == [] && confirmationTag == [] && proposals == map[]
    }

    function Get(kind: Kind): (b: Bytes) {
      match kind
      case TreeSync => treesync
      case InterimTranscriptHash => interimTranscriptHash
      case Context => context
      case ConfirmationTag => confirmationTag
    }

    /** One payload changes, nothing else does. */
    function Put(kind: Kind, b: Bytes): (r: GroupState)
      ensures r.proposals == proposals && forall k :: r.Get(k) == if k == kind then b else Get(k)
    {
      match kind
      case TreeSync => this.(treesync := b)
      case InterimTranscriptHash => this.(interimTranscriptHash := b)
      case Context => this.(context := b)
      case ConfirmationTag => this.(confirmationTag := b)
    }
  }

  const EMPTY: GroupState := GroupState([], [], [], [], map[])

  type States = map<Bytes, GroupState>

  /** How group ids, payloads and proposal references become bytes and come back. */
  datatype Codec = Codec(
    groupId: nat -> Bytes,
    payload: nat -> Bytes,
    fromPayload: Bytes -> Option<nat>,
    reference: nat -> Bytes,
    fromReference: Bytes -> Option<nat>)

  ghost predicate Lossless(c: Codec) {
    && (forall g: nat, h: nat :: c.groupId(g) == c.groupId(h) ==> g == h)
    && (forall p: nat :: c.fromPayload(c.payload(p)) == Some(p))
    && (forall r: nat :: c.fromReference(c.reference(r)) == Some(r))
  }

  ghost predicate NeverEmpty(c: Codec) { forall p: nat :: c.payload(p) != [] }

  // ---- Operations on the group records ----

  function OrDefault(states: States, id: Bytes): (g: GroupState) { if id in states then states[id] else EMPTY }

  /** A changed record is kept unless it became empty. */
  function KeepOrDrop(states: States, id: Bytes, g: GroupState): (r: States) {
    if g.IsEmpty() then states - {id} else states[id := g]
  }

  datatype Op =
    | Write(group: nat, kind: Kind, payload: nat)
    | Delete(group: nat, kind: Kind)
    | QueueProposal(group: nat, reference: nat, proposal: nat)
    | RemoveProposal(group: nat, reference: nat)
    | ClearProposals(group: nat)

  function Step(c: Codec, states: States, op: Op): (r: States) {
    var id := c.groupId(op.group);
    match op
    case Write(_, kind, p) => states[id := OrDefault(states, id).Put(kind, c.payload(p))]
    case QueueProposal(_, ref, p) =>
      var g := OrDefault(states, id);
      states[id := g.(proposals := g.proposals[c.reference(ref) := c.payload(p)])]
    case Delete(_, kind) => if id in states then KeepOrDrop(states, id, states[id].Put(kind, [])) else states
    case RemoveProposal(_, ref) =>
      if id in states
      then KeepOrDrop(states, id, states[id].(proposals := states[id].proposals - {c.reference(ref)}))
      else states
    case ClearProposals(_) =>
      if id in states then KeepOrDrop(states, id, states[id].(proposals := map[])) else states
  }

  function Read(c: Codec, states: States, group: nat, kind: Kind): (r: Result<Option<nat>, ()>) {
    var id := c.groupId(group);
    if id !in states || states[id].Get(kind) == [] then Ok(None)
    else
      match c.fromPayload(states[id].Get(kind))
      case None => Err(())
      case Some(p) => Ok(Some(p))
  }

  function ProposalsOf(c: Codec, states: States, group: nat): (q: Queue) {
    OrDefault(states, c.groupId(group)).proposals
  }

  class MemoryStorage {
    const codec: Codec
    var states: States

    constructor (codec: Codec)
      ensures this.codec == codec && states == map[]
    {
      this.codec, states := codec, map[];
    }

    method WritePayload(group: nat, kind: Kind, payload: nat)
      modifies this
      ensures states == Step(codec, old(states), Write(group, kind, payload))
    {
      var id := codec.groupId(group);
      if id !in states { states := states[id := EMPTY]; }
      states := states[id := states[id].Put(kind, codec.payload(payload))];
    }

    method ReadPayload(group: nat, kind: Kind) returns (r: Result<Option<nat>, ()>)
      ensures r == Read(codec, states, group, kind)
    {
      var id := codec.groupId(group);
      if id !in states { return Ok(None); }
      var bytes := states[id].Get(kind);
      if bytes == [] { return Ok(None); }
      var payload := codec.fromPayload(bytes);
      r := if payload.Some? then Ok(payload) else Err(());
    }

    method DeletePayload(group: nat, kind: Kind)
      modifies this
      ensures states == Step(codec, old(states), Delete(group, kind))
    {
      var id := codec.groupId(group);
      if id in states {
        states := states[id := states[id].Put(kind, [])];
        if states[id].IsEmpty() { states := states - {id}; }
      }
    }

    method Enqueue(group: nat, reference: nat, proposal: nat)
      modifies this
      ensures states == Step(codec, old(states), QueueProposal(group, reference, proposal))
    {
      var id := codec.groupId(group);
      if id !in states { states := states[id := EMPTY]; }
      var queue := states[id].proposals[codec.reference(reference) := codec.payload(proposal)];
      states := states[id := states[id].(proposals := queue)];
    }

    method Dequeue(group: nat, reference: nat)
      modifies this
      ensures states == Step(codec, old(states), RemoveProposal(group, reference))
    {
      var id := codec.groupId(group);
      if id in states {
        states := states[id := states[id].(proposals := states[id].proposals - {codec.reference(reference)})];
        if states[id].IsEmpty() { states := states - {id}; }
      }
    }

    method ClearQueue(group: nat)
      modifies this
      ensures states == Step(codec, old(states), ClearProposals(group))
    {
      var id := codec.groupId(group);
      if id in states {
        states := states[id := states[id].(proposals := map[])];
        if states[id].IsEmpty() { states := states - {id}; }
      }
    }

    /** `order` is the order in which the queue's entries come up. */
    method QueuedProposals(group: nat, order: seq<Bytes>) returns (r: Result<seq<(nat, nat)>, ()>)
      requires Enumerates(order, ProposalsOf(codec, states, group))
      ensures r == DecodeQueue(codec, ProposalsOf(codec, states, group), order)
    {
      var queue := ProposalsOf(codec, states, group);
      var pairs := [];
      for i := 0 to |order|
        invariant DecodeQueue(codec, queue, order[..i]) == Ok(pairs)
      {
        assert order[..i + 1][..i] == order[..i];
        var ref := codec.fromReference(order[i]);
        var proposal := codec.fromPayload(queue[order[i]]);
        if ref.None? || proposal.None? {
          NeverDecodes(codec, queue, order, i);
          return Err(());
        }
        pairs := pairs + [(ref.value, proposal.value)];
      }
      assert order[..|order|] == order;
      r := Ok(pairs);
    }
  }

  // ---- Reading the queue ----

  /** Each key once. */
  predicate Enumerates<V>(order: seq<Bytes>, m: map<Bytes, V>) {
    && (forall i | 0 <= i < |order| :: order[i] in m)
    && (forall k | k in m :: k in order)
    && (forall i, j | 0 <= i < j < |order| :: order[i] != order[j])
  }

  function DecodeQueue(c: Codec, q: Queue, order: seq<Bytes>): (r: Result<seq<(nat, nat)>, ()>)
    requires forall i | 0 <= i < |order| :: order[i] in q
    decreases |order|
  {
    if order == [] then Ok([])
    else
      var n := |order| - 1;
      var front := DecodeQueue(c, q, order[..n]);
      var (ref, proposal) := (c.fromReference(order[n]), c.fromPayload(q[order[n]]));
      if front.Ok? && ref.Some? && proposal.Some? then Ok(front.value + [(ref.value, proposal.value)]) else Err(())
  }

  lemma {:induction false} NeverDecodes(c: Codec, q: Queue, order: seq<Bytes>, i: nat)
    requires (forall k | 0 <= k < |order| :: order[k] in q) && i < |order|
    requires c.fromReference(order[i]).None? || c.fromPayload(q[order[i]]).None?
    ensures DecodeQueue(c, q, order) == Err(())
    decreases |order|
  {
    if i < |order| - 1 { NeverDecodes(c, q, order[..|order| - 1], i); }
  }

  // ---- The plain maps they stand for ----

  datatype Plain = Plain(payloads: map<(nat, Kind), nat>, proposals: map<(nat, nat), nat>)

  function PlainStep(s: Plain, op: Op): (r: Plain) {
    match op
    case Write(g, kind, p) => s.(payloads := s.payloads[(g, kind) := p])
    case Delete(g, kind) => s.(payloads := s.payloads - {(g, kind)})
    case QueueProposal(g, ref, p) => s.(proposals := s.proposals[(g, ref) := p])
    case RemoveProposal(g, ref) => s.(proposals := s.proposals - {(g, ref)})
    case ClearProposals(g) => s.(proposals := map k | k in s.proposals && k.0 != g :: s.proposals[k])
  }

  function PlainRead(s: Plain, g: nat, kind: Kind): (r: Option<nat>) {
    if (g, kind) in s.payloads then Some(s.payloads[(g, kind)]) else None
  }

  /** The stored queue of a group is the encoded form of its proposals. */
  ghost predicate QueueStandsFor(c: Codec, q: Queue, s: Plain, g: nat) {
    && (forall r: nat :: c.reference(r) in q <==> (g, r) in s.proposals)
    && (forall r: nat :: (g, r) in s.proposals ==> q[c.reference(r)] == c.payload(s.proposals[(g, r)]))
    && (forall k | k in q :: c.fromReference(k).Some? && c.reference(c.fromReference(k).value) == k)
  }

  ghost predicate BytesStandFor(c: Codec, b: Bytes, s: Plain, g: nat, kind: Kind) {
    b == if (g, kind) in s.payloads then c.payload(s.payloads[(g, kind)]) else []
  }

  ghost predicate StandsFor(c: Codec, states: States, s: Plain, g: nat) {
    var state := OrDefault(states, c.groupId(g));
    QueueStandsFor(c, state.proposals, s, g) && forall kind :: BytesStandFor(c, state.Get(kind), s, g, kind)
  }

  ghost predicate Refines(c: Codec, states: States, s: Plain) { forall g: nat :: StandsFor(c, states, s, g) }

  predicate NoEmptyRecord(states: States) { forall id | id in states :: !states[id].IsEmpty() }

  /** Another group's record is not touched. */
  lemma OtherRecord(c: Codec, states: States, op: Op, g: nat)
    requires Lossless(c) && g != op.group
    ensures OrDefault(Step(c, states, op), c.groupId(g)) == OrDefault(states, c.groupId(g))
  {
    assert c.groupId(g) != c.groupId(op.group);
  }

  lemma OtherEntries(s: Plain, op: Op, g: nat)
    requires g != op.group
    ensures var t := PlainStep(s, op);
            && (forall kind :: PlainRead(t, g, kind) == PlainRead(s, g, kind))
            && (forall r: nat :: (g, r) in t.proposals <==> (g, r) in s.proposals)
            && (forall r: nat :: (g, r) in s.proposals ==> t.proposals[(g, r)] == s.proposals[(g, r)])
  {
  }

  /** What a record stands for depends on the entries of its group only. */
  lemma SameEntries(c: Codec, state: GroupState, s: Plain, t: Plain, g: nat)
    requires QueueStandsFor(c, state.proposals, s, g) && forall kind :: BytesStandFor(c, state.Get(kind), s, g, kind)
    requires forall kind :: PlainRead(t, g, kind) == PlainRead(s, g, kind)
    requires forall r: nat :: (g, r) in t.proposals <==> (g, r) in s.proposals
    requires forall r: nat :: (g, r) in s.proposals ==> t.proposals[(g, r)] == s.proposals[(g, r)]
    ensures QueueStandsFor(c, state.proposals, t, g) && forall kind :: BytesStandFor(c, state.Get(kind), t, g, kind)
  {
    forall kind
      ensures BytesStandFor(c, state.Get(kind), t, g, kind)
    {
      assert BytesStandFor(c, state.Get(kind), s, g, kind) && PlainRead(t, g, kind) == PlainRead(s, g, kind);
    }
  }

  lemma OtherGroup(c: Codec, states: States, s: Plain, op: Op, g: nat)
    requires Lossless(c) && g != op.group && StandsFor(c, states, s, g)
    ensures StandsFor(c, Step(c, states, op), PlainStep(s, op), g)
  {
    OtherRecord(c, states, op, g);
    OtherEntries(s, op, g);
    SameEntries(c, OrDefault(states, c.groupId(g)), s, PlainStep(s, op), g);
  }

  /** The changed record; a dropped one reads like an empty one. */
  lemma ChangedRecord(c: Codec, states: States, op: Op)
    ensures var id := c.groupId(op.group);
            var g := OrDefault(states, id);
            OrDefault(Step(c, states, op), id) ==
            match op
            case Write(_, kind, p) => g.Put(kind, c.payload(p))
            case Delete(_, kind) => g.Put(kind, [])
            case QueueProposal(_, ref, p) => g.(proposals := g.proposals[c.reference(ref) := c.payload(p)])
            case RemoveProposal(_, ref) => g.(proposals := g.proposals - {c.reference(ref)})
            case ClearProposals(_) => g.(proposals := map[])
  {
  }

  lemma SameGroupBytes(c: Codec, states: States, s: Plain, op: Op, kind: Kind)
    requires BytesStandFor(c, OrDefault(states, c.groupId(op.group)).Get(kind), s, op.group, kind)
    ensures BytesStandFor(c, OrDefault(Step(c, states, op), c.groupId(op.group)).Get(kind), PlainStep(s, op), op.group, kind)
  {
    ChangedRecord(c, states, op);
  }

  lemma SameGroupQueue(c: Codec, states: States, s: Plain, op: Op)
    requires Lossless(c) && QueueStandsFor(c, OrDefault(states, c.groupId(op.group)).proposals, s, op.group)
    ensures QueueStandsFor(c, OrDefault(Step(c, states, op), c.groupId(op.group)).proposals, PlainStep(s, op), op.group)
  {
    ChangedRecord(c, states, op);
    var g := OrDefault(states, c.groupId(op.group));
    match op
    case QueueProposal(_, ref, p) => QueueGrows(c, g.proposals, s, op.group, ref, p);
    case RemoveProposal(_, ref) => QueueShrinks(c, g.proposals, s, op.group, ref);
    case _ =>
  }

  lemma SameGroup(c: Codec, states: States, s: Plain, op: Op)
    requires Lossless(c) && StandsFor(c, states, s, op.group)
    ensures StandsFor(c, Step(c, states, op), PlainStep(s, op), op.group)
  {
    forall kind
      ensures BytesStandFor(c, OrDefault(Step(c, states, op), c.groupId(op.group)).Get(kind), PlainStep(s, op), op.group, kind)
    {
      SameGroupBytes(c, states, s, op, kind);
    }
    SameGroupQueue(c, states, s, op);
  }

  lemma ReferencesDiffer(c: Codec, r: nat, q: nat)
    requires Lossless(c) && r != q
    ensures c.reference(r) != c.reference(q)
  {
    assert c.fromReference(c.reference(r)) == Some(r) && c.fromReference(c.reference(q)) == Some(q);
  }

  lemma QueueGrows(c: Codec, q: Queue, s: Plain, g: nat, ref: nat, p: nat)
    requires Lossless(c) && QueueStandsFor(c, q, s, g)
    ensures QueueStandsFor(c, q[c.reference(ref) := c.payload(p)], PlainStep(s, QueueProposal(g, ref, p)), g)
  {
    forall r: nat | r != ref ensures c.reference(r) != c.reference(ref) { ReferencesDiffer(c, r, ref); }
    assert c.fromReference(c.reference(ref)) == Some(ref);
  }

  lemma QueueShrinks(c: Codec, q: Queue, s: Plain, g: nat, ref: nat)
    requires Lossless(c) && QueueStandsFor(c, q, s, g)
    ensures QueueStandsFor(c, q - {c.reference(ref)}, PlainStep(s, RemoveProposal(g, ref)), g)
  {
    forall r: nat | r != ref ensures c.reference(r) != c.reference(ref) { ReferencesDiffer(c, r, ref); }
  }

  lemma StepRefines(c: Codec, states: States, s: Plain, op: Op)
    requires Lossless(c) && Refines(c, states, s)
    ensures Refines(c, Step(c, states, op), PlainStep(s, op))
  {
    forall g: nat ensures StandsFor(c, Step(c, states, op), PlainStep(s, op), g) {
      if g == op.group { SameGroup(c, states, s, op); } else { OtherGroup(c, states, s, op, g); }
    }
  }

  lemma StepLeavesNoEmptyRecord(c: Codec, states: States, op: Op)
    requires NeverEmpty(c) && NoEmptyRecord(states)
    ensures NoEmptyRecord(Step(c, states, op))
  {
    match op
    case Write(_, kind, p) =>
      var g := OrDefault(states, c.groupId(op.group)).Put(kind, c.payload(p));
      assert g.Get(kind) != [];
    case QueueProposal(_, ref, p) =>
      var q := OrDefault(states, c.groupId(op.group)).proposals[c.reference(ref) := c.payload(p)];
      assert c.reference(ref) in q;
    case _ =>
  }

  function After(c: Codec, ops: seq<Op>): (states: States) {
    if ops == [] then map[] else Step(c, After(c, ops[..|ops| - 1]), ops[|ops| - 1])
  }

  function PlainAfter(ops: seq<Op>): (s: Plain) {
    if ops == [] then Plain(map[], map[]) else PlainStep(PlainAfter(ops[..|ops| - 1]), ops[|ops| - 1])
  }

  /** After any operations the records stand for the plain maps, and none of them is empty. */
  lemma {:induction false} RunRefines(c: Codec, ops: seq<Op>)
    requires Lossless(c) && NeverEmpty(c)
    ensures Refines(c, After(c, ops), PlainAfter(ops)) && NoEmptyRecord(After(c, ops))
  {
    if ops != [] {
      var n := |ops| - 1;
      RunRefines(c, ops[..n]);
      StepRefines(c, After(c, ops[..n]), PlainAfter(ops[..n]), ops[n]);
      StepLeavesNoEmptyRecord(c, After(c, ops[..n]), ops[n]);
    }
  }

  /** So a read returns what the plain map holds. */
  lemma ReadsAgree(c: Codec, ops: seq<Op>, g: nat, kind: Kind)
    requires Lossless(c) && NeverEmpty(c)
    ensures Read(c, After(c, ops), g, kind) == Ok(PlainRead(PlainAfter(ops), g, kind))
  {
    RunRefines(c, ops);
    var states, s := After(c, ops), PlainAfter(ops);
    assert StandsFor(c, states, s, g);
    assert BytesStandFor(c, OrDefault(states, c.groupId(g)).Get(kind), s, g, kind);
  }

  ghost predicate HasEntries(s: Plain, g: nat) {
    (exists kind :: (g, kind) in s.payloads) || exists ref: nat :: (g, ref) in s.proposals
  }

  lemma OnlyEmptyParts(state: GroupState)
    ensures state == EMPTY <==> state.proposals == map[] && forall kind :: state.Get(kind) == []
  {
    if forall kind :: state.Get(kind) == [] {
      assert state.Get(TreeSync) == [] && state.Get(InterimTranscriptHash) == [];
      assert state.Get(Context) == [] && state.Get(ConfirmationTag) == [];
    }
  }

  lemma EmptyIff(c: Codec, state: GroupState, s: Plain, g: nat)
    requires NeverEmpty(c) && QueueStandsFor(c, state.proposals, s, g)
    requires forall kind :: BytesStandFor(c, state.Get(kind), s, g, kind)
    ensures state == EMPTY <==> !HasEntries(s, g)
  {
    if k :| k in state.proposals { assert (g, c.fromReference(k).value) in s.proposals; }
    if kind :| state.Get(kind) != [] { assert BytesStandFor(c, state.Get(kind), s, g, kind) && (g, kind) in s.payloads; }
    OnlyEmptyParts(state);
    if kind :| (g, kind) in s.payloads { assert BytesStandFor(c, state.Get(kind), s, g, kind) && state.Get(kind) != []; }
    if ref: nat :| (g, ref) in s.proposals { assert c.reference(ref) in state.proposals; }
  }

  /** A group has a record exactly as long as something is stored for it. */
  lemma RecordIff(c: Codec, ops: seq<Op>, g: nat)
    requires Lossless(c) && NeverEmpty(c)
    ensures c.groupId(g) in After(c, ops) <==> HasEntries(PlainAfter(ops), g)
  {
    RunRefines(c, ops);
    assert StandsFor(c, After(c, ops), PlainAfter(ops), g);
    EmptyIff(c, OrDefault(After(c, ops), c.groupId(g)), PlainAfter(ops), g);
  }

  /** And listing the queue returns every proposal of the group, once, and nothing else. */
  lemma QueuesAgree(c: Codec, ops: seq<Op>, g: nat, order: seq<Bytes>)
    requires Lossless(c) && NeverEmpty(c) && Enumerates(order, ProposalsOf(c, After(c, ops), g))
    ensures var r := DecodeQueue(c, ProposalsOf(c, After(c, ops), g), order);
            && r.Ok? && |r.value| == |order|
            && (forall i, j | 0 <= i < j < |order| :: r.value[i].0 != r.value[j].0)
            && forall ref: nat, p: nat :: (ref, p) in r.value <==>
                 (g, ref) in PlainAfter(ops).proposals && PlainAfter(ops).proposals[(g, ref)] == p
  {
    RunRefines(c, ops);
    assert StandsFor(c, After(c, ops), PlainAfter(ops), g);
    QueueIsListed(c, ProposalsOf(c, After(c, ops), g), PlainAfter(ops), g, order);
  }

  lemma QueueIsListed(c: Codec, q: Queue, s: Plain, g: nat, order: seq<Bytes>)
    requires Lossless(c) && QueueStandsFor(c, q, s, g) && Enumerates(order, q)
    ensures var r := DecodeQueue(c, q, order);
            && r.Ok? && |r.value| == |order|
            && (forall i, j | 0 <= i < j < |order| :: r.value[i].0 != r.value[j].0)
            && forall ref: nat, p: nat :: (ref, p) in r.value <==> (g, ref) in s.proposals && s.proposals[(g, ref)] == p
  {
    DecodesEach(c, q, s, g, order);
    var pairs := DecodeQueue(c, q, order).value;
    forall i, j | 0 <= i < j < |order|
      ensures pairs[i].0 != pairs[j].0
    {
      assert order[i] == c.reference(pairs[i].0) && order[j] == c.reference(pairs[j].0);
    }
    forall ref: nat, p: nat
      ensures (ref, p) in pairs <==> (g, ref) in s.proposals && s.proposals[(g, ref)] == p
    {
      if (ref, p) in pairs {
        var i :| 0 <= i < |pairs| && pairs[i] == (ref, p);
        assert order[i] == c.reference(ref) && order[i] in q;
      }
      if (g, ref) in s.proposals && s.proposals[(g, ref)] == p { ProposalIsListed(c, q, s, g, order, ref); }
    }
  }

  lemma ProposalIsListed(c: Codec, q: Queue, s: Plain, g: nat, order: seq<Bytes>, ref: nat)
    requires Lossless(c) && QueueStandsFor(c, q, s, g) && Enumerates(order, q) && (g, ref) in s.proposals
    ensures DecodeQueue(c, q, order).Ok? && (ref, s.proposals[(g, ref)]) in DecodeQueue(c, q, order).value
  {
    DecodesEach(c, q, s, g, order);
    assert c.reference(ref) in q;
    var i :| 0 <= i < |order| && order[i] == c.reference(ref);
    assert c.fromReference(order[i]) == Some(ref);
    assert DecodeQueue(c, q, order).value[i] == (ref, s.proposals[(g, ref)]);
  }

  lemma {:induction false} DecodesEach(c: Codec, q: Queue, s: Plain, g: nat, order: seq<Bytes>)
    requires Lossless(c) && QueueStandsFor(c, q, s, g) && forall i | 0 <= i < |order| :: order[i] in q
    ensures var r := DecodeQueue(c, q, order);
            && r.Ok? && |r.value| == |order|
            && forall i {:trigger r.value[i]} {:trigger order[i]} | 0 <= i < |order| ::
                 var ref := r.value[i].0;
                 && order[i] == c.reference(ref) && (g, ref) in s.proposals && r.value[i].1 == s.proposals[(g, ref)]
    decreases |order|
  {
    if order != [] {
      var n := |order| - 1;
      DecodesEach(c, q, s, g, order[..n]);
      var ref := c.fromReference(order[n]).value;
      assert c.reference(ref) == order[n] && (g, ref) in s.proposals;
      assert c.fromPayload(q[order[n]]) == Some(s.proposals[(g, ref)]);
    }
  }

  /** Why the codec must not emit empty bytes: exactly those payloads would read back as missing. */
  lemma ReadAfterWriteIff(c: Codec, states: States, g: nat, kind: Kind, p: nat)
    requires Lossless(c)
    ensures Read(c, Step(c, states, Write(g, kind, p)), g, kind) == Ok(Some(p)) <==> c.payload(p) != []
  {
  }

  /** A lossless codec that spends no bytes on payload 0. */
  function TerseCodec(): (c: Codec) {
    var encode := (n: nat) => if n == 0 then [] else [n];
    var decode := (b: Bytes) => if b == [] then Some(0) else Some(b[0]);
    Codec((n: nat) => [n], encode, decode, encode, decode)
  }

  /** With it, payload 0 is written and reads back as missing. */
  lemma TersePayloadReadsAsMissing(states: States, g: nat, kind: Kind)
    ensures Lossless(TerseCodec())
    ensures Read(TerseCodec(), Step(TerseCodec(), states, Write(g, kind, 0)), g, kind) == Ok(None)
  {
    var c := TerseCodec();
    assert forall g: nat, h: nat :: c.groupId(g) == c.groupId(h) ==> c.groupId(g)[0] == c.groupId(h)[0];
  }
}
