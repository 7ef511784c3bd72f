/**
 What the T group's secret is made of. Every combined commit, join and external join mixes into the T
 key schedule the value that the PQ group's new secret exports and derives, so different PQ secrets
 never lead to the same T secret. Nothing here refers to how the combiner names or looks up its key.
 */
module ApqSecrets {
  import opened Prelude
  import opened ApqInfo
  import opened ApqGroup
  import opened ApqCommit
  import opened ApqJoin
  import Tree = ApqTree

  /** The name under which a PQ secret's key is stored. */
  function KeyName(m: Mls, pqSecret: Secret, tSuite: Suite): (k: PskKey) {
    Application(0x8001, m.derive(m.exported(pqSecret, 0x8001), tSuite, PskId))
  }

  /** The key itself, under another label. */
  function KeyValue(m: Mls, pqSecret: Secret, tSuite: Suite): (v: Secret) {
    m.derive(m.exported(pqSecret, 0x8001), tSuite, PskValue)
  }

  lemma PskIs(m: Mls, pq: Group, tSuite: Suite)
    ensures PskOf(m, pq, tSuite) == Psk(KeyName(m, pq.secret, tSuite), KeyValue(m, pq.secret, tSuite))
  {
  }

  /** The values are those of the named keys, the PQ secret's own key first, the store's for the others. */
  predicate ValuesOf(m: Mls, pqSecret: Secret, tSuite: Suite, psks: PskMap, keys: seq<PskKey>, values: seq<Secret>) {
    && |values| == |keys|
    && forall i | 0 <= i < |keys| ::
         if keys[i] == KeyName(m, pqSecret, tSuite) then values[i] == KeyValue(m, pqSecret, tSuite)
         else keys[i] in psks && values[i] == psks[keys[i]]
  }

  lemma LoadedValues(m: Mls, pq: Group, tSuite: Suite, psks: PskMap, keys: seq<PskKey>)
    requires Load(psks[PskOf(m, pq, tSuite).key := PskOf(m, pq, tSuite).value], keys).Some?
    ensures ValuesOf(m, pq.secret, tSuite, psks, keys,
                     Load(psks[PskOf(m, pq, tSuite).key := PskOf(m, pq, tSuite).value], keys).value)
  {
    PskIs(m, pq, tSuite);
    assert forall i | 0 <= i < |keys| :: keys[i] in keys;
  }

  /** The legs after a build: the PQ secret without keys, the T secret with the key the new PQ secret gives. */
  lemma BuildMixes(m: Mls, pq: Group, t: Group, psks: PskMap, pqChanges: Tree.Changes, tChanges: Tree.Changes,
                   before: seq<PskKey>, after: seq<PskKey>, b: Built) returns (values: seq<Secret>)
    requires BuildPair(m, pq, t, psks, pqChanges, tChanges, before, after).result == Ok(b)
    ensures b.pqAfter.secret == m.mix(m.join(pq.secret, b.pq), [])
    ensures b.t.psks == before + [KeyName(m, b.pqAfter.secret, t.suite)] + after
    ensures ValuesOf(m, b.pqAfter.secret, t.suite, psks, b.t.psks, values)
    ensures b.tAfter.secret == m.mix(m.join(t.secret, b.t), values)
  {
    var psk := PskOf(m, b.pqAfter, t.suite);
    PskIs(m, b.pqAfter, t.suite);
    LoadedValues(m, b.pqAfter, t.suite, psks, b.t.psks);
    values := Load(psks[psk.key := psk.value], b.t.psks).value;
  }

  /** A member's commit names the key last; without other keys its value is all that is mixed in. */
  lemma CommitterMixes(m: Mls, pq: Leg, t: Leg, psks: PskMap, cfg: Config, b: Built) returns (values: seq<Secret>)
    requires Finalize(m, pq, t, psks, cfg).result == Ok(b)
    ensures |values| == |cfg.tPsks| + 1
    ensures values[|cfg.tPsks|] == m.derive(m.exported(b.pqAfter.secret, 0x8001), t.group.suite, PskValue)
    ensures ValuesOf(m, b.pqAfter.secret, t.group.suite, psks, b.t.psks, values)
    ensures b.tAfter.secret == m.mix(m.join(t.group.secret, b.t), values)
    ensures cfg.tPsks == [] ==>
              b.tAfter.secret == m.mix(m.join(t.group.secret, b.t),
                                       [m.derive(m.exported(b.pqAfter.secret, 0x8001), t.group.suite, PskValue)])
  {
    values := BuildMixes(m, pq.group, t.group, psks, PqChanges(cfg, pq), TChanges(cfg, t), cfg.tPsks, [], b);
    assert b.t.psks[|cfg.tPsks|] == KeyName(m, b.pqAfter.secret, t.group.suite);
    if cfg.tPsks == [] { assert values == [values[0]]; }
  }

  /** An external joiner's commit names it first. */
  lemma ExternalMixes(m: Mls, pq: Group, t: Group, psks: PskMap, e: Entry, b: Built) returns (values: seq<Secret>)
    requires ExternalBuild(m, pq, t, psks, e).result == Ok(b)
    ensures |values| == 1 + |e.tPsks| && values[0] == m.derive(m.exported(b.pqAfter.secret, 0x8001), t.suite, PskValue)
    ensures ValuesOf(m, b.pqAfter.secret, t.suite, psks, b.t.psks, values)
    ensures b.tAfter.secret == m.mix(m.join(t.secret, b.t), values)
  {
    values := BuildMixes(m, pq, t, psks, PqEntry(e), TEntry(e), [], e.tPsks, b);
    assert b.t.psks[0] == KeyName(m, b.pqAfter.secret, t.suite);
  }

  /** Whatever pair a receiver stages, it mixes into the T secret the key of the PQ secret it has just staged. */
  lemma PeerMixes(m: Mls, same: Tree.Equivalence, pq: Leg, t: Leg, theirs: PskMap, p: Commit, c: Commit, pqAfter: Group,
                  tAfter: Group) returns (values: seq<Secret>)
    requires Process(m, same, pq, t, theirs, CommitMessage(p), CommitMessage(c)).result
          == Ok(Pair(Staged(p, pqAfter, false), Staged(c, tAfter, false)))
    ensures ValuesOf(m, pqAfter.secret, t.group.suite, theirs, c.psks, values)
    ensures tAfter.secret == m.mix(m.join(t.group.secret, c), values)
  {
    var psk := PskOf(m, pqAfter, t.group.suite);
    values := Load(theirs[psk.key := psk.value], c.psks).value;
    LoadedValues(m, pqAfter, t.group.suite, theirs, c.psks);
  }

  /** So does a joiner, with the joiner secret of its Welcome. */
  lemma JoinerMixes(m: Mls, w: Welcome, theirs: PskMap, pq: Group, t: Group) returns (values: seq<Secret>)
    requires JoinLeg(m, w.pq, theirs) == Some(pq)
    requires JoinLeg(m, w.t, theirs[PskOf(m, pq, w.t.suite).key := PskOf(m, pq, w.t.suite).value]) == Some(t)
    ensures ValuesOf(m, pq.secret, w.t.suite, theirs, w.t.psks, values)
    ensures t.secret == m.mix(w.t.joiner, values)
  {
    LoadedValues(m, pq, w.t.suite, theirs, w.t.psks);
    values := Load(theirs[PskOf(m, pq, w.t.suite).key := PskOf(m, pq, w.t.suite).value], w.t.psks).value;
  }

  /** Key schedule, exporter and derivation without collisions. */
  ghost predicate Injective(m: Mls) {
    && (forall a, b, xs, ys :: m.mix(a, xs) == m.mix(b, ys) ==> a == b && xs == ys)
    && (forall a, b :: m.exported(a, 0x8001) == m.exported(b, 0x8001) ==> a == b)
    && (forall a, b, s, t, x, y :: m.derive(a, s, x) == m.derive(b, t, y) ==> a == b && x == y)
  }

  /** Then the T secret fixes the PQ secret: commits from whatever groups that differ in one differ in the other. */
  lemma TSecretFixesPqSecret(m: Mls, pq: Leg, t: Leg, psks: PskMap, cfg: Config, b: Built,
                             pq': Leg, t': Leg, psks': PskMap, cfg': Config, b': Built)
    requires Injective(m) && Finalize(m, pq, t, psks, cfg).result == Ok(b) && Finalize(m, pq', t', psks', cfg').result == Ok(b')
    requires b.pqAfter.secret != b'.pqAfter.secret
    ensures b.tAfter.secret != b'.tAfter.secret
  {
    var values := CommitterMixes(m, pq, t, psks, cfg, b);
    var values' := CommitterMixes(m, pq', t', psks', cfg', b');
  }

  /** And the name that the T commit shows is not the key. */
  lemma NameIsNotValue(m: Mls, pqSecret: Secret, tSuite: Suite)
    requires Injective(m)
    ensures KeyName(m, pqSecret, tSuite).id != KeyValue(m, pqSecret, tSuite)
  {
  }
}
