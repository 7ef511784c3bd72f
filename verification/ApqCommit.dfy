/**
 Building a commit for both legs, the PQ leg first.
 Every peer in the same state, whatever its key store held before, stages exactly the groups the
 committer staged, secrets and dictionaries included, if and only if the credentials match up.
 */
module ApqCommit {
  import opened Prelude
  import opened ApqInfo
  import opened ApqGroup
  import Tree = ApqTree

  datatype Built = Built(pq: Commit, t: Commit, pqAfter: Group, tAfter: Group)

  datatype BuildError = NoApqInfo | PqRefused | TRefused

  /** How far a build got: the key store, and the PQ group once its commit is staged. */
  datatype Build = Build(psks: PskMap, pqAfter: Option<Group>, result: Result<Built, BuildError>)

  function NextInfo(pq: Group, t: Group): (r: Option<Info>) {
    match FromExtensions(t.dict)
    case Present(info) => Some(info.SetEpoch(t.epoch + 1, pq.epoch + 1))
    case _ => None
  }

  function WithInfo(dict: Dictionary, info: Info): (r: Dictionary) { dict[APQMLS_COMPONENT_ID := Encoded(info)] }

  /** The PQ commit, then the key it yields, then the T commit naming that key between `before` and `after`. */
  function BuildPair(m: Mls, pq: Group, t: Group, psks: PskMap, pqChanges: Tree.Changes, tChanges: Tree.Changes,
                     before: seq<PskKey>, after: seq<PskKey>): (r: Build)
  {
    match NextInfo(pq, t)
    case None => Build(psks, None, Err(NoApqInfo))
    case Some(info) =>
      var update := Update(APQMLS_COMPONENT_ID, Encoded(info));
      var pqCommit := Commit(pqChanges, [update], []);
      if !m.accepts(pq, pqCommit) then Build(psks, None, Err(PqRefused))
      else
        var pqAfter := Advance(m, pq, pqCommit, [], WithInfo(pq.dict, info));
        var psk := PskOf(m, pqAfter, t.suite);
        var stored := psks[psk.key := psk.value];
        var tCommit := Commit(tChanges, [update], before + [psk.key] + after);
        var values := Load(stored, tCommit.psks);
        if values.None? || !m.accepts(t, tCommit) then Build(stored, Some(pqAfter), Err(TRefused))
        else
          var tAfter := Advance(m, t, tCommit, values.value, WithInfo(t.dict, info));
          Build(stored, Some(pqAfter), Ok(Built(pqCommit, tCommit, pqAfter, tAfter)))
  }

  // ---- A member's commit ----

  datatype KeyPackage = KeyPackage(t: Tree.LeafNode, pq: Tree.LeafNode)

  /** New leaf nodes for a self-update; a missing one keeps the current credential. */
  datatype LeafParameters = LeafParameters(t: Option<Tree.LeafNode>, pq: Option<Tree.LeafNode>)

  datatype Config = Config(
    forceSelfUpdate: bool,
    parameters: Option<LeafParameters>,
    adds: seq<KeyPackage>,
    removals: seq<nat>,
    tPsks: seq<PskKey>)

  /** A path is required by section 12.4 of RFC 9420 for removals, and asked for by the self-update options. */
  predicate NeedsPath(cfg: Config) { cfg.forceSelfUpdate || cfg.parameters.Some? || cfg.removals != [] }

  function PathOf(cfg: Config, leg: Leg, replacement: Option<Tree.LeafNode>): (r: Option<Tree.LeafNode>) {
    if !NeedsPath(cfg) then None
    else if replacement.Some? then replacement
    else Tree.LeafAt(leg.group.leaves, leg.own)
  }

  function PqNodes(kps: seq<KeyPackage>): (r: seq<Tree.LeafNode>) {
    seq(|kps|, i requires 0 <= i < |kps| => kps[i].pq)
  }

  function TNodes(kps: seq<KeyPackage>): (r: seq<Tree.LeafNode>) {
    seq(|kps|, i requires 0 <= i < |kps| => kps[i].t)
  }

  function PqChanges(cfg: Config, pq: Leg): (c: Tree.Changes) {
    var replacement := if cfg.parameters.Some? then cfg.parameters.value.pq else None;
    Tree.Changes(Tree.Member(pq.own), [], cfg.removals, PqNodes(cfg.adds), PathOf(cfg, pq, replacement))
  }

  function TChanges(cfg: Config, t: Leg): (c: Tree.Changes) {
    var replacement := if cfg.parameters.Some? then cfg.parameters.value.t else None;
    Tree.Changes(Tree.Member(t.own), [], cfg.removals, TNodes(cfg.adds), PathOf(cfg, t, replacement))
  }

  function Finalize(m: Mls, pq: Leg, t: Leg, psks: PskMap, cfg: Config): (r: Build) {
    BuildPair(m, pq.group, t.group, psks, PqChanges(cfg, pq), TChanges(cfg, t), cfg.tPsks, [])
  }

  /** Stages the PQ commit, stores its key, stages the T commit; a refused T commit leaves the PQ one pending. */
  method FinalizeCommit(m: Mls, group: ApqMlsGroup, store: PskStore, cfg: Config)
    returns (r: Result<Built, BuildError>)
    modifies group, store
    ensures var b := Finalize(m, old(group.pq), old(group.t), old(store.psks), cfg);
            && r == b.result && store.psks == b.psks
            && group.pq == (if b.pqAfter.Some? then old(group.pq).(pending := b.pqAfter) else old(group.pq))
            && group.t == (if r.Ok? then old(group.t).(pending := Some(r.value.tAfter)) else old(group.t))
  {
    var pq, t := group.pq, group.t;
    var next := NextInfo(pq.group, t.group);
    if next.None? { return Err(NoApqInfo); }
    var info := next.value;
    var update := Update(APQMLS_COMPONENT_ID, Encoded(info));

    var pqCommit := Commit(PqChanges(cfg, pq), [update], []);
    if !m.accepts(pq.group, pqCommit) { return Err(PqRefused); }
    var pqAfter := Advance(m, pq.group, pqCommit, [], WithInfo(pq.group.dict, info));
    group.pq := pq.(pending := Some(pqAfter));

    var key := store.DeriveAndStore(m, pqAfter, t.group.suite);

    var tCommit := Commit(TChanges(cfg, t), [update], cfg.tPsks + [key] + []);
    var values := Load(store.psks, tCommit.psks);
    if values.None? || !m.accepts(t.group, tCommit) { return Err(TRefused); }
    var tAfter := Advance(m, t.group, tCommit, values.value, WithInfo(t.group.dict, info));
    group.t := t.(pending := Some(tAfter));
    return Ok(Built(pqCommit, tCommit, pqAfter, tAfter));
  }

  // ---- What peers make of it ----

  /** Two key stores agree on the keys a T commit names besides the combiner's own. */
  predicate AgreeOn(psks: PskMap, theirs: PskMap, keys: seq<PskKey>) {
    forall k | k in keys :: k in psks && k in theirs && psks[k] == theirs[k]
  }

  lemma LoadAgrees(psks: PskMap, theirs: PskMap, psk: Psk, before: seq<PskKey>, after: seq<PskKey>)
    requires AgreeOn(psks, theirs, before + after)
    ensures Load(theirs[psk.key := psk.value], before + [psk.key] + after) ==
            Load(psks[psk.key := psk.value], before + [psk.key] + after)
  {
    var keys := before + [psk.key] + after;
    assert forall k | k in keys :: k == psk.key || k in before + after;
    var ours, yours := psks[psk.key := psk.value], theirs[psk.key := psk.value];
    assert forall k | k in keys :: k in ours && k in yours && ours[k] == yours[k];
    assert Load(yours, keys).value == Load(ours, keys).value;
  }

  /** The dictionary a receiver rebuilds from the proposal is the one the committer set. */
  lemma RebuiltDictionary(dict: Dictionary, info: Info)
    ensures Resolve(dict, [Update(APQMLS_COMPONENT_ID, Encoded(info))]) == WithInfo(dict, info)
  {
    var us := [Update(APQMLS_COMPONENT_ID, Encoded(info))];
    assert us[..0] == [];
  }

  /** After the PQ leg, the key the T commit names maps to the committer's value, whatever was stored before. */
  lemma PeerReads(m: Mls, pq: Leg, t: Leg, psks: PskMap, theirs: PskMap, pqChanges: Tree.Changes, tChanges: Tree.Changes,
                  before: seq<PskKey>, after: seq<PskKey>, b: Built)
    requires BuildPair(m, pq.group, t.group, psks, pqChanges, tChanges, before, after).result == Ok(b)
    requires pq.own !in pqChanges.removes && t.own !in tChanges.removes
    requires AgreeOn(psks, theirs, before + after)
    ensures ReadLeg(m, pq.group, pq.own, theirs, CommitMessage(b.pq)) == Ok(Staged(b.pq, b.pqAfter, false))
    ensures var psk := PskOf(m, b.pqAfter, t.group.suite);
            && psk.key in b.t.psks
            && BuildPair(m, pq.group, t.group, psks, pqChanges, tChanges, before, after).psks[psk.key] == psk.value
            && ReadLeg(m, t.group, t.own, theirs[psk.key := psk.value], CommitMessage(b.t)) ==
               Ok(Staged(b.t, b.tAfter, false))
  {
    var info := NextInfo(pq.group, t.group).value;
    RebuiltDictionary(pq.group.dict, info);
    RebuiltDictionary(t.group.dict, info);
    assert Load(theirs, []).value == [];
    var psk := PskOf(m, b.pqAfter, t.group.suite);
    LoadAgrees(psks, theirs, psk, before, after);
  }

  lemma BuiltIsFreshlyLinked(m: Mls, pq: Group, t: Group, psks: PskMap, pqChanges: Tree.Changes, tChanges: Tree.Changes,
                             before: seq<PskKey>, after: seq<PskKey>, b: Built)
    requires Linked(pq, t)
    requires BuildPair(m, pq, t, psks, pqChanges, tChanges, before, after).result == Ok(b)
    ensures FreshlyLinked(b.pqAfter, b.tAfter)
  {
  }

  lemma BuiltCompares(m: Mls, same: Tree.Equivalence, pq: Group, t: Group, psks: PskMap, pqChanges: Tree.Changes,
                      tChanges: Tree.Changes, before: seq<PskKey>, after: seq<PskKey>, b: Built)
    requires Linked(pq, t)
    requires BuildPair(m, pq, t, psks, pqChanges, tChanges, before, after).result == Ok(b)
    ensures var staged := Pair(Staged(b.pq, b.pqAfter, false), Staged(b.t, b.tAfter, false));
            Compare(same, pq, t, staged) ==
            if SameCommit(same, pqChanges, tChanges) && pqChanges.sender == tChanges.sender then Ok(staged) else Err(Mismatched)
  {
    BuiltIsFreshlyLinked(m, pq, t, psks, pqChanges, tChanges, before, after, b);
    var info := NextInfo(pq, t).value;
    var values := Load(BuildPair(m, pq, t, psks, pqChanges, tChanges, before, after).psks, b.t.psks).value;
    ValidateIsLinking(m, pq, t, b.pq, b.t, [], values, WithInfo(pq.dict, info), WithInfo(t.dict, info), false, false);
  }

  /**
   Every peer in a linked state stages the very groups the committer staged, exactly when the two
   legs' senders and contents compare equal; otherwise it reports a mismatch. Either way its key
   store gains the committer's key.
   */
  lemma BuiltIsAcceptedIff(m: Mls, same: Tree.Equivalence, pq: Leg, t: Leg, psks: PskMap, theirs: PskMap,
                           pqChanges: Tree.Changes, tChanges: Tree.Changes, before: seq<PskKey>, after: seq<PskKey>,
                           b: Built)
    requires Linked(pq.group, t.group)
    requires BuildPair(m, pq.group, t.group, psks, pqChanges, tChanges, before, after).result == Ok(b)
    requires pq.own !in pqChanges.removes && t.own !in tChanges.removes
    requires AgreeOn(psks, theirs, before + after)
    ensures var psk := PskOf(m, b.pqAfter, t.group.suite);
            var alike := SameCommit(same, pqChanges, tChanges) && pqChanges.sender == tChanges.sender;
            Process(m, same, pq, t, theirs, CommitMessage(b.pq), CommitMessage(b.t)) ==
            Processed(theirs[psk.key := psk.value],
                      if alike then Ok(Pair(Staged(b.pq, b.pqAfter, false), Staged(b.t, b.tAfter, false)))
                      else Err(Mismatched))
  {
    PeerReads(m, pq, t, psks, theirs, pqChanges, tChanges, before, after, b);
    BuiltCompares(m, same, pq.group, t.group, psks, pqChanges, tChanges, before, after, b);
  }

  /** What a removed receiver stages for the T leg: the next epoch without the secrets it cannot derive. */
  function LeftBehind(m: Mls, t: Group, b: Built): (g: Group) { Advance(m, t, b.t, [], Resolve(t.dict, b.t.appData)) }

  lemma RemovedReads(m: Mls, pq: Leg, t: Leg, psks: PskMap, theirs: PskMap, pqChanges: Tree.Changes, tChanges: Tree.Changes,
                     before: seq<PskKey>, after: seq<PskKey>, b: Built)
    requires BuildPair(m, pq.group, t.group, psks, pqChanges, tChanges, before, after).result == Ok(b)
    requires pq.own in pqChanges.removes && t.own in tChanges.removes
    ensures ReadLeg(m, pq.group, pq.own, theirs, CommitMessage(b.pq)) == Ok(Staged(b.pq, b.pqAfter, true))
    ensures ReadLeg(m, t.group, t.own, theirs, CommitMessage(b.t)) == Ok(Staged(b.t, LeftBehind(m, t.group, b), true))
  {
    RebuiltDictionary(pq.group.dict, NextInfo(pq.group, t.group).value);
  }

  lemma RemovedCompares(m: Mls, same: Tree.Equivalence, pq: Group, t: Group, psks: PskMap, pqChanges: Tree.Changes,
                        tChanges: Tree.Changes, before: seq<PskKey>, after: seq<PskKey>, b: Built)
    requires Linked(pq, t)
    requires BuildPair(m, pq, t, psks, pqChanges, tChanges, before, after).result == Ok(b)
    ensures var staged := Pair(Staged(b.pq, b.pqAfter, true), Staged(b.t, LeftBehind(m, t, b), true));
            Compare(same, pq, t, staged) ==
            if SameCommit(same, pqChanges, tChanges) && pqChanges.sender == tChanges.sender then Ok(staged) else Err(Mismatched)
  {
    var info := NextInfo(pq, t).value;
    RebuiltDictionary(t.dict, info);
    BuiltIsFreshlyLinked(m, pq, t, psks, pqChanges, tChanges, before, after, b);
    ValidateIsLinking(m, pq, t, b.pq, b.t, [], [], WithInfo(pq.dict, info), WithInfo(t.dict, info), true, true);
  }

  /** A receiver that the commit removes is told so under the same condition, and its key store stays as it was. */
  lemma RemovedIsToldIff(m: Mls, same: Tree.Equivalence, pq: Leg, t: Leg, psks: PskMap, theirs: PskMap,
                         pqChanges: Tree.Changes, tChanges: Tree.Changes, before: seq<PskKey>, after: seq<PskKey>, b: Built)
    requires Linked(pq.group, t.group)
    requires BuildPair(m, pq.group, t.group, psks, pqChanges, tChanges, before, after).result == Ok(b)
    requires pq.own in pqChanges.removes && t.own in tChanges.removes
    ensures var alike := SameCommit(same, pqChanges, tChanges) && pqChanges.sender == tChanges.sender;
            Process(m, same, pq, t, theirs, CommitMessage(b.pq), CommitMessage(b.t)) ==
            Processed(theirs,
                      if alike then Ok(Pair(Staged(b.pq, b.pqAfter, true), Staged(b.t, LeftBehind(m, t.group, b), true)))
                      else Err(Mismatched))
  {
    RemovedReads(m, pq, t, psks, theirs, pqChanges, tChanges, before, after, b);
    RemovedCompares(m, same, pq.group, t.group, psks, pqChanges, tChanges, before, after, b);
  }

  /** What a committer can check before building: key packages and new leaves belong together. */
  predicate Equivalent(same: Tree.Equivalence, pq: Leg, t: Leg, cfg: Config) {
    && (forall i | 0 <= i < |cfg.adds| :: same(cfg.adds[i].pq.credential, cfg.adds[i].t.credential))
    && Tree.SameLeaf(same, PqChanges(cfg, pq).path, TChanges(cfg, t).path)
  }

  lemma ComparesAsEquivalent(same: Tree.Equivalence, pq: Leg, t: Leg, cfg: Config)
    ensures SameCommit(same, PqChanges(cfg, pq), TChanges(cfg, t)) <==> Equivalent(same, pq, t, cfg)
  {
    var p, c := PqChanges(cfg, pq), TChanges(cfg, t);
    assert forall i | 0 <= i < |cfg.adds| :: p.adds[i] == cfg.adds[i].pq && c.adds[i] == cfg.adds[i].t;
  }

  /** A member's bundle is accepted by every remaining member in the same state exactly when that holds. */
  lemma FinalizedIsAcceptedIff(m: Mls, same: Tree.Equivalence, pq: Leg, t: Leg, psks: PskMap, cfg: Config, b: Built,
                               peerPq: Leg, peerT: Leg, theirs: PskMap)
    requires Linked(pq.group, t.group) && pq.own == t.own
    requires Finalize(m, pq, t, psks, cfg).result == Ok(b)
    requires peerPq.group == pq.group && peerT.group == t.group
    requires peerPq.own !in cfg.removals && peerT.own !in cfg.removals && AgreeOn(psks, theirs, cfg.tPsks)
    ensures var p := Process(m, same, peerPq, peerT, theirs, CommitMessage(b.pq), CommitMessage(b.t));
            && (p.result.Ok? <==> Equivalent(same, pq, t, cfg))
            && (p.result.Ok? ==> p.result.value == Pair(Staged(b.pq, b.pqAfter, false), Staged(b.t, b.tAfter, false)))
            && (p.result.Err? ==> p.result.error == Mismatched)
  {
    assert cfg.tPsks + [] == cfg.tPsks;
    ComparesAsEquivalent(same, pq, t, cfg);
    BuiltIsAcceptedIff(m, same, peerPq, peerT, psks, theirs, PqChanges(cfg, pq), TChanges(cfg, t), cfg.tPsks, [], b);
  }

  /** So is every member the bundle removes. */
  lemma FinalizedRemovalIsToldIff(m: Mls, same: Tree.Equivalence, pq: Leg, t: Leg, psks: PskMap, cfg: Config, b: Built,
                                  peerPq: Leg, peerT: Leg, theirs: PskMap)
    requires Linked(pq.group, t.group) && pq.own == t.own
    requires Finalize(m, pq, t, psks, cfg).result == Ok(b)
    requires peerPq.group == pq.group && peerT.group == t.group && peerPq.own in cfg.removals && peerT.own in cfg.removals
    ensures var p := Process(m, same, peerPq, peerT, theirs, CommitMessage(b.pq), CommitMessage(b.t));
            && p.psks == theirs && (p.result.Ok? <==> Equivalent(same, pq, t, cfg))
            && (p.result.Ok? ==> p.result.value.pq.selfRemoved && p.result.value.t.selfRemoved)
            && (p.result.Err? ==> p.result.error == Mismatched)
  {
    ComparesAsEquivalent(same, pq, t, cfg);
    RemovedIsToldIff(m, same, peerPq, peerT, psks, theirs, PqChanges(cfg, pq), TChanges(cfg, t), cfg.tPsks, [], b);
  }

  /** Without replacement credentials the self-update never stands in the way. */
  lemma KeptCredentialsAreEquivalent(same: Tree.Equivalence, pq: Leg, t: Leg, cfg: Config)
    requires Tree.Lockstep(same, pq.group.leaves, t.group.leaves) && pq.own == t.own
    requires cfg.parameters.Some? ==> cfg.parameters.value == LeafParameters(None, None)
    requires forall i | 0 <= i < |cfg.adds| :: same(cfg.adds[i].pq.credential, cfg.adds[i].t.credential)
    ensures Equivalent(same, pq, t, cfg)
  {
    var i := pq.own;
    assert i < |pq.group.leaves| ==> Tree.SameLeaf(same, pq.group.leaves[i], t.group.leaves[i]);
  }

  // ---- What a bundle does to the leaves ----

  /** The committer's own leaf gets the replacement meant for its leg, and stays as it is without one. */
  lemma CommitterLeafIs(m: Mls, pq: Leg, t: Leg, psks: PskMap, cfg: Config, b: Built)
    requires Finalize(m, pq, t, psks, cfg).result == Ok(b) && pq.own !in cfg.removals && t.own !in cfg.removals
    requires Tree.LeafAt(pq.group.leaves, pq.own).Some? && Tree.LeafAt(t.group.leaves, t.own).Some?
    ensures Tree.LeafAt(b.tAfter.leaves, t.own) ==
            if cfg.parameters.Some? && cfg.parameters.value.t.Some? then cfg.parameters.value.t
            else Tree.LeafAt(t.group.leaves, t.own)
    ensures Tree.LeafAt(b.pqAfter.leaves, pq.own) ==
            if cfg.parameters.Some? && cfg.parameters.value.pq.Some? then cfg.parameters.value.pq
            else Tree.LeafAt(pq.group.leaves, pq.own)
  {
    Tree.MembersKeepTheirLeaf(t.group.leaves, b.t.changes, t.own);
    Tree.MembersKeepTheirLeaf(pq.group.leaves, b.pq.changes, pq.own);
  }

  /** A removed member's leaf is empty in both legs, or the k-th added member sits on it in both. */
  lemma RemovedLeafIs(m: Mls, pq: Leg, t: Leg, psks: PskMap, cfg: Config, b: Built, i: nat)
    requires Finalize(m, pq, t, psks, cfg).result == Ok(b) && i in cfg.removals && pq.own != i && t.own != i
    ensures var k := Tree.FreeBelow(t.group.leaves, cfg.removals, i);
            Tree.LeafAt(b.tAfter.leaves, i) == if k < |cfg.adds| then Some(cfg.adds[k].t) else None
    ensures var k := Tree.FreeBelow(pq.group.leaves, cfg.removals, i);
            Tree.LeafAt(b.pqAfter.leaves, i) == if k < |cfg.adds| then Some(cfg.adds[k].pq) else None
  {
    Tree.CommitSeats(t.group.leaves, b.t.changes, i);
    Tree.CommitSeats(pq.group.leaves, b.pq.changes, i);
  }

  /** A bundle that removes anyone or renews the committer carries a path in both legs; otherwise in neither. */
  lemma PathIffNeeded(m: Mls, pq: Leg, t: Leg, psks: PskMap, cfg: Config, b: Built)
    requires Finalize(m, pq, t, psks, cfg).result == Ok(b)
    requires Tree.LeafAt(pq.group.leaves, pq.own).Some? && Tree.LeafAt(t.group.leaves, t.own).Some?
    ensures b.t.changes.path.Some? <==> cfg.removals != [] || cfg.forceSelfUpdate || cfg.parameters.Some?
    ensures b.pq.changes.path.Some? <==> b.t.changes.path.Some?
  {
  }
}
