/**
 One leg of a combined group and the processing of a message pair. OpenMLS is taken at its RFC 9420
 contract: which commits a group accepts, how secrets are joined, mixed and exported are arbitrary
 functions; what is modelled is what the combiner does around them.
 */
module ApqGroup {
  import opened Prelude
  import opened ApqInfo
  import Tree = ApqTree

  type Secret = nat

  datatype PskKey = Application(component: ComponentId, id: Secret) | External(name: nat)

  type PskMap = map<PskKey, Secret>

  datatype Group = Group(id: GroupId, suite: Suite, epoch: nat, dict: Dictionary, leaves: Tree.Leaves, secret: Secret)

  datatype Commit = Commit(changes: Tree.Changes, appData: seq<AppDataUpdate>, psks: seq<PskKey>)

  datatype Label = PskId | PskValue

  /** The MLS layer: its checks and its key schedule, sections 8 and 12.4 of RFC 9420. */
  datatype Mls = Mls(
    accepts: (Group, Commit) -> bool,
    join: (Secret, Commit) -> Secret,
    mix: (Secret, seq<Secret>) -> Secret,
    exported: (Secret, ComponentId) -> Secret,
    derive: (Secret, Suite, Label) -> Secret)

  /** The group one epoch on; `values` are the pre-shared keys the commit names. */
  function Advance(m: Mls, g: Group, c: Commit, values: seq<Secret>, dict: Dictionary): (r: Group)
    ensures r.id == g.id && r.suite == g.suite && r.epoch == g.epoch + 1
  {
    Group(g.id, g.suite, g.epoch + 1, dict, Tree.Apply(g.leaves, c.changes), m.mix(m.join(g.secret, c), values))
  }

  /** The values of the named keys, if all are stored. */
  function Load(psks: PskMap, keys: seq<PskKey>): (r: Option<seq<Secret>>) {
    if forall k | k in keys :: k in psks
    then Some(seq(|keys|, i requires 0 <= i < |keys| => psks[keys[i]]))
    else None
  }

  // ---- The combiner's pre-shared key ----

  datatype Psk = Psk(key: PskKey, value: Secret)

  /** Key name and value, both derived from the secret the PQ group exports for the component. */
  function PskOf(m: Mls, pq: Group, tSuite: Suite): (psk: Psk) {
    var secret := m.exported(pq.secret, APQMLS_COMPONENT_ID);
    Psk(Application(APQMLS_COMPONENT_ID, m.derive(secret, tSuite, PskId)), m.derive(secret, tSuite, PskValue))
  }

  class PskStore {
    var psks: PskMap

    constructor ()
      ensures psks == map[]
    {
      psks := map[];
    }

    /** Deletes, then writes: a stale value under the same key never survives. */
    method Store(psk: Psk)
      modifies this
      ensures psks == old(psks)[psk.key := psk.value]
    {
      psks := psks - {psk.key};
      psks := psks[psk.key := psk.value];
    }

    method DeriveAndStore(m: Mls, pq: Group, tSuite: Suite) returns (key: PskKey)
      modifies this
      ensures key == PskOf(m, pq, tSuite).key == Application(0x8001, m.derive(m.exported(pq.secret, 0x8001), tSuite, PskId))
      ensures psks == old(psks)[key := PskOf(m, pq, tSuite).value]
      ensures psks[key] == m.derive(m.exported(pq.secret, 0x8001), tSuite, PskValue)
    {
      var psk := PskOf(m, pq, tSuite);
      Store(psk);
      key := psk.key;
    }
  }

  // ---- Messages ----

  datatype ProposalInfo = ProposalInfo(kind: nat, credential: Option<Tree.Credential>, leaf: Option<nat>)

  datatype Message =
    | ApplicationMessage
    | OwnPrivateMessage
    | OwnCommitMessage(sender: Tree.Sender)
    | ProposalMessage(sender: Tree.Sender, info: ProposalInfo)
    | CommitMessage(commit: Commit)

  /** A message after the MLS layer is done with it. */
  datatype Content =
    | NothingToCompare
    | OwnPending(sender: Tree.Sender)
    | Proposed(sender: Tree.Sender, info: ProposalInfo)
    | Staged(commit: Commit, after: Group, selfRemoved: bool)

  datatype Error = Processing | InvalidMessageType | Mismatched | MissingApqInfo | InvalidApqInfo

  /** One leg through the MLS layer; a member the commit removes never reaches the key schedule. */
  function ReadLeg(m: Mls, g: Group, own: nat, psks: PskMap, msg: Message): (r: Result<Content, Error>) {
    match msg
    case ApplicationMessage => Ok(NothingToCompare)
    case OwnPrivateMessage => Ok(NothingToCompare)
    case OwnCommitMessage(sender) => Ok(OwnPending(sender))
    case ProposalMessage(sender, info) => Ok(Proposed(sender, info))
    case CommitMessage(c) =>
      if !m.accepts(g, c) then Err(Processing)
      else if own in c.changes.removes then Ok(Staged(c, Advance(m, g, c, [], Resolve(g.dict, c.appData)), true))
      else
        match Load(psks, c.psks)
        case None => Err(Processing)
        case Some(values) => Ok(Staged(c, Advance(m, g, c, values, Resolve(g.dict, c.appData)), false))
  }

  // ---- Do the two legs say the same? ----

  predicate SameOption(same: Tree.Equivalence, pq: Option<Tree.Credential>, t: Option<Tree.Credential>) {
    match (pq, t)
    case (Some(a), Some(b)) => same(a, b)
    case (None, None) => true
    case _ => false
  }

  function PathCredential(c: Tree.Changes): (r: Option<Tree.Credential>) {
    if c.path.Some? then Some(c.path.value.credential) else None
  }

  predicate SameProposal(same: Tree.Equivalence, pq: ProposalInfo, t: ProposalInfo) {
    pq.kind == t.kind && pq.leaf == t.leaf && SameOption(same, pq.credential, t.credential)
  }

  /** The compared content: credentials of path, Adds and Updates, and the set of removed leaves. */
  predicate SameCommit(same: Tree.Equivalence, pq: Tree.Changes, t: Tree.Changes) {
    && SameOption(same, PathCredential(pq), PathCredential(t))
    && Tree.Indices(pq.removes) == Tree.Indices(t.removes)
    && |pq.adds| == |t.adds| && |pq.updates| == |t.updates|
    && (forall i | 0 <= i < |pq.adds| :: same(pq.adds[i].credential, t.adds[i].credential))
    && (forall i | 0 <= i < |pq.updates| :: same(pq.updates[i].node.credential, t.updates[i].node.credential))
  }

  predicate Matching(same: Tree.Equivalence, pq: Content, t: Content) {
    match (pq, t)
    case (OwnPending(a), OwnPending(b)) => a == b
    case (Proposed(a, p), Proposed(b, q)) => SameProposal(same, p, q) && a == b
    case (Staged(p, _, _), Staged(q, _, _)) => SameCommit(same, p.changes, q.changes) && p.changes.sender == q.changes.sender
    case _ => false
  }

  /** The component as both staged commits leave it, against the two groups before the commits. */
  function Validate(pq: Group, t: Group, pqContent: Content, tContent: Content): (r: Option<Error>) {
    if !(pqContent.Staged? && tContent.Staged?) then None
    else
      var pqAfter, tAfter := pqContent.after, tContent.after;
      match (FromExtensions(pqAfter.dict), FromExtensions(tAfter.dict))
      case (Malformed, _) => Some(InvalidApqInfo)
      case (Absent, _) => Some(MissingApqInfo)
      case (Present(_), Malformed) => Some(InvalidApqInfo)
      case (Present(_), Absent) => Some(MissingApqInfo)
      case (Present(pqInfo), Present(tInfo)) =>
        if && pqInfo == tInfo
           && pqInfo.pqEpoch == pqAfter.epoch && tInfo.tEpoch == tAfter.epoch
           && pqInfo.pqEpoch == pq.epoch + 1 && tInfo.tEpoch == t.epoch + 1
           && pqInfo.pqGroupId == pq.id && tInfo.tGroupId == t.id
           && pqInfo.pqSuite == pq.suite && tInfo.tSuite == t.suite
        then None else Some(InvalidApqInfo)
  }

  /**
   What ties the legs together: both store the same component, it names both groups, its PQ epoch is
   the PQ group's, and its T epoch is that of the last combined commit.
   */
  predicate Linked(pq: Group, t: Group) {
    match (FromExtensions(pq.dict), FromExtensions(t.dict))
    case (Present(i), Present(j)) =>
      && i == j
      && i.pqEpoch == pq.epoch && i.tEpoch <= t.epoch
      && i.pqGroupId == pq.id && i.tGroupId == t.id
      && i.pqSuite == pq.suite && i.tSuite == t.suite
    case _ => false
  }

  /** Linked, with no T-only commit since the last combined one. */
  predicate FreshlyLinked(pq: Group, t: Group) {
    Linked(pq, t) && FromExtensions(t.dict).info.tEpoch == t.epoch
  }

  /** Validation passes exactly on the staged pairs that leave the legs linked. */
  lemma ValidateIsLinking(m: Mls, pq: Group, t: Group, p: Commit, c: Commit, pqValues: seq<Secret>, tValues: seq<Secret>,
                          pqDict: Dictionary, tDict: Dictionary, pqSelf: bool, tSelf: bool)
    ensures var pqAfter, tAfter := Advance(m, pq, p, pqValues, pqDict), Advance(m, t, c, tValues, tDict);
            Validate(pq, t, Staged(p, pqAfter, pqSelf), Staged(c, tAfter, tSelf)) == None <==> FreshlyLinked(pqAfter, tAfter)
  {
  }

  // ---- Processing a pair ----

  /** A group and what its owner knows about it: their own leaf, and a commit of theirs not yet merged. */
  datatype Leg = Leg(group: Group, own: nat, pending: Option<Group>)

  datatype Pair = Pair(pq: Content, t: Content)

  /** The store once the PQ message is read: it gets the new key unless the reader is removed. */
  function PsksAfter(m: Mls, psks: PskMap, pqContent: Content, tSuite: Suite): (r: PskMap) {
    if pqContent.Staged? && !pqContent.selfRemoved
    then var psk := PskOf(m, pqContent.after, tSuite); psks[psk.key := psk.value]
    else psks
  }

  function Compare(same: Tree.Equivalence, pq: Group, t: Group, p: Pair): (r: Result<Pair, Error>) {
    if p.t == NothingToCompare then Err(InvalidMessageType)
    else if !Matching(same, p.pq, p.t) then Err(Mismatched)
    else
      match Validate(pq, t, p.pq, p.t)
      case Some(e) => Err(e)
      case None => Ok(p)
  }

  datatype Processed = Processed(psks: PskMap, result: Result<Pair, Error>)

  function Process(m: Mls, same: Tree.Equivalence, pq: Leg, t: Leg, psks: PskMap, pqMsg: Message, tMsg: Message)
    : (r: Processed)
  {
    match ReadLeg(m, pq.group, pq.own, psks, pqMsg)
    case Err(e) => Processed(psks, Err(e))
    case Ok(pqContent) =>
      if pqContent == NothingToCompare then Processed(psks, Err(InvalidMessageType))
      else
        var stored := PsksAfter(m, psks, pqContent, t.group.suite);
        match ReadLeg(m, t.group, t.own, stored, tMsg)
        case Err(e) => Processed(stored, Err(e))
        case Ok(tContent) => Processed(stored, Compare(same, pq.group, t.group, Pair(pqContent, tContent)))
  }

  /** A pair of proposals is accepted exactly when sender, kind, leaf and user are the same in both; nothing is stored. */
  lemma ProposalsAcceptedIff(m: Mls, same: Tree.Equivalence, pq: Leg, t: Leg, psks: PskMap, a: Tree.Sender, p: ProposalInfo,
                             b: Tree.Sender, q: ProposalInfo)
    ensures var r := Process(m, same, pq, t, psks, ProposalMessage(a, p), ProposalMessage(b, q));
            var alike := && a == b && p.kind == q.kind && p.leaf == q.leaf && p.credential.Some? == q.credential.Some?
                         && (p.credential.Some? && q.credential.Some? ==> same(p.credential.value, q.credential.value));
            r == Processed(psks, if alike then Ok(Pair(Proposed(a, p), Proposed(b, q))) else Err(Mismatched))
  {
  }

  /** A proposal and a commit never make a pair. */
  lemma MixedPairsAreRefused(m: Mls, same: Tree.Equivalence, pq: Leg, t: Leg, psks: PskMap, a: Tree.Sender, p: ProposalInfo,
                             c: Commit)
    ensures !Process(m, same, pq, t, psks, ProposalMessage(a, p), CommitMessage(c)).result.Ok?
    ensures !Process(m, same, pq, t, psks, CommitMessage(c), ProposalMessage(a, p)).result.Ok?
  {
  }

  /** The combined group of one client. */
  class ApqMlsGroup {
    var t: Leg
    var pq: Leg

    constructor (t: Leg, pq: Leg)
      ensures this.t == t && this.pq == pq
    {
      this.t, this.pq := t, pq;
    }

    /** PQ first, so that the key the T commit names is in the store when the T leg is read. */
    method ProcessMessage(m: Mls, same: Tree.Equivalence, store: PskStore, pqMsg: Message, tMsg: Message)
      returns (r: Result<Pair, Error>)
      modifies store
      ensures Processed(store.psks, r) == Process(m, same, pq, t, old(store.psks), pqMsg, tMsg)
    {
      var pqRead := ReadLeg(m, pq.group, pq.own, store.psks, pqMsg);
      if pqRead.Err? { return Err(pqRead.error); }
      var pqContent := pqRead.value;
      if pqContent == NothingToCompare { return Err(InvalidMessageType); }
      if pqContent.Staged? && !pqContent.selfRemoved {
        var psk := PskOf(m, pqContent.after, t.group.suite);
        store.Store(psk);
      }
      var tRead := ReadLeg(m, t.group, t.own, store.psks, tMsg);
      if tRead.Err? { return Err(tRead.error); }
      return Compare(same, pq.group, t.group, Pair(pqContent, tRead.value));
    }

    method MergeStagedCommit(tAfter: Group, pqAfter: Group)
      modifies this
      ensures t == old(t).(group := tAfter, pending := None) && pq == old(pq).(group := pqAfter, pending := None)
    {
      t := t.(group := tAfter, pending := None);
      pq := pq.(group := pqAfter, pending := None);
    }

    method MergePendingCommit()
      modifies this
      ensures t == Merged(old(t)) && pq == Merged(old(pq))
    {
      t := Merged(t);
      pq := Merged(pq);
    }

    method ClearPendingCommits()
      modifies this
      ensures t == old(t).(pending := None) && pq == old(pq).(pending := None)
    {
      t := t.(pending := None);
      pq := pq.(pending := None);
    }
  }

  function Merged(leg: Leg): (r: Leg) {
    if leg.pending.Some? then leg.(group := leg.pending.value, pending := None) else leg
  }
}
