/** Joining a call: the zero block, the self-add block, and runs made of nothing but joins. */
module Join {
  import opened Common
  import opened Crypto
  import opened ChainSpec
  import opened ChainAgreement
  import opened GroupSafety
  import opened GroupKey

  const BOTH_RIGHTS: Flags := {ADD_USERS, REMOVE_USERS}

  function Self(p: Primitives, userId: int64, privateKey: Bytes32): Participant {
    Participant(userId, p.publicKey(privateKey), true, true, 0)
  }

  function Without(ps: seq<Participant>, userId: int64): (r: seq<Participant>)
    ensures |r| <= |ps|
    ensures forall q :: q in r <==> q in ps && q.userId != userId
    ensures DistinctIds(ps) ==> DistinctIds(r)
    ensures DistinctKeys(ps) ==> DistinctKeys(r)
  {
    if ps == [] then []
    else
      var front, last := Without(ps[..|ps| - 1], userId), ps[|ps| - 1];
      assert forall q :: q in ps <==> q in ps[..|ps| - 1] || q == last;
      if last.userId == userId then front else front + [last]
  }

  function WithSelf(gs: GroupState, self: Participant): GroupState {
    gs.(participants := Without(gs.participants, self.userId) + [self])
  }

  function ZeroBlock(env: Env, userId: int64, privateKey: Bytes32, m: KeyMaterial): Option<Block> {
    var gs := GroupState([Self(env.p, userId, privateKey)], BOTH_RIGHTS);
    BuildBlock(env, EMPTY_CHAIN, ChangesForNewState(env.p, gs, m), privateKey)
  }

  function SelfAddBlock(env: Env, previous: Block, userId: int64, privateKey: Bytes32, m: KeyMaterial): Option<Block> {
    var c := CreateFromBlock(env, previous);
    if c.None? then None
    else
      var gs := WithSelf(c.value.ledger.groupState, Self(env.p, userId, privateKey));
      BuildBlock(env, c.value, ChangesForNewState(env.p, gs, m), privateKey)
  }

  function MakeJoinBlock(env: Env, last: Option<Block>, userId: int64, privateKey: Bytes32, m: KeyMaterial): Option<Block> {
    if last.Some? then SelfAddBlock(env, last.value, userId, privateKey, m)
    else ZeroBlock(env, userId, privateKey, m)
  }

  // ---------------------------------------------------------------- when a join builds

  lemma NewStateChanges(l: Ledger, gs: GroupState, k: SharedKey, signer: Bytes32)
    ensures var cs := [SetGroupState(gs), SetSharedKey(k)];
            ApplyChanges(l, cs, signer, ALL_PERMISSIONS) ==
            (if && MaySetGroupState(l.groupState, gs, GetPermissions(l.groupState, signer, ALL_PERMISSIONS))
                && MayChangeSharedKey(GetPermissions(gs, signer, ALL_PERMISSIONS))
                && ValidSharedKey(k, gs)
             then Some(l.(groupState := gs, sharedKey := k, hasGroupStateChange := true, hasSharedKeyChange := true))
             else None)
  {
    var cs, one := [SetGroupState(gs), SetSharedKey(k)], [SetGroupState(gs)];
    assert cs[..1] == one && one[..0] == [];
    assert ApplyChanges(l, [], signer, ALL_PERMISSIONS) == Some(l);
    assert ApplyChanges(l, one, signer, ALL_PERMISSIONS) == ApplyChange(l, SetGroupState(gs), signer, ALL_PERMISSIONS);
    var m := ApplyChanges(l, one, signer, ALL_PERMISSIONS);
    if m.Some? {
      assert ApplyChanges(l, cs, signer, ALL_PERMISSIONS) == ApplyChange(m.value, SetSharedKey(k), signer, ALL_PERMISSIONS);
    }
  }

  /** A new state with its fresh key builds exactly when its signer may set that state and stays in it with a right. */
  lemma NewStateBuildsExactly(env: Env, c: Chain, gs: GroupState, m: KeyMaterial, privateKey: Bytes32)
    requires c.lastBlock.height < INT32_MAX
    ensures var signer := env.p.publicKey(privateKey);
            var before := AtHeight(c.ledger, c.lastBlock.height + 1).groupState;
            BuildBlock(env, c, ChangesForNewState(env.p, gs, m), privateKey).Some? <==>
            && MaySetGroupState(before, gs, GetPermissions(before, signer, ALL_PERMISSIONS))
            && MayChangeSharedKey(GetPermissions(gs, signer, ALL_PERMISSIONS))
  {
    var signer := env.p.publicKey(privateKey);
    var k := SharedKeyFor(env.p, gs.participants, m);
    var l := AtHeight(c.ledger, c.lastBlock.height + 1);
    NewStateChanges(l, gs, k, signer);
    if DistinctIds(gs.participants) {
      FreshKeyIsValid(env.p, gs, m);
    }
    var cs := ChangesForNewState(env.p, gs, m);
    assert cs[0].SetGroupState?;
    assert ChangesGroup(cs);
  }

  /** The group and key a built new-state block leaves on every chain that applies it. */
  lemma NewStateIsInstalled(env: Env, c: Chain, gs: GroupState, m: KeyMaterial, privateKey: Bytes32)
    requires SignaturesVerify(env.p)
    requires BuildBlock(env, c, ChangesForNewState(env.p, gs, m), privateKey).Some?
    ensures var b := BuildBlock(env, c, ChangesForNewState(env.p, gs, m), privateKey).value;
            && Receive(env, c, b).Accepted?
            && Receive(env, c, b).value.ledger.groupState == gs
            && Receive(env, c, b).value.ledger.sharedKey == SharedKeyFor(env.p, gs.participants, m)
            && Receive(env, c, b).value.lastBlock == b
            && b.height == c.lastBlock.height + 1
            && ValidGroupState(gs)
  {
    var b := BuildBlock(env, c, ChangesForNewState(env.p, gs, m), privateKey).value;
    BuiltBlockIsAccepted(env, c, ChangesForNewState(env.p, gs, m), privateKey, false);
    NewStateChanges(AtHeight(c.ledger, b.height), gs, SharedKeyFor(env.p, gs.participants, m), env.p.publicKey(privateKey));
  }

  lemma FindSelf(ps: seq<Participant>, self: Participant)
    requires DistinctKeys(ps) && self in ps
    ensures FindByKey(ps, self.publicKey) == Some(self)
  {
    var i :| 0 <= i < |ps| && ps[i] == self;
    FindByKeyIsUnique(ps, i);
  }

  lemma ZeroBlockBuilds(env: Env, userId: int64, privateKey: Bytes32, m: KeyMaterial)
    ensures ZeroBlock(env, userId, privateKey, m).Some?
  {
    var self := Self(env.p, userId, privateKey);
    var gs := GroupState([self], BOTH_RIGHTS);
    assert FlagTable([self]) == map[MemberOf(self) := BOTH_RIGHTS] by {
      assert [self][..0] == [];
      assert self.Rights() == BOTH_RIGHTS;
    }
    assert FlagTable([]) == map[];
    FindSelf([self], self);
    NewStateBuildsExactly(env, EMPTY_CHAIN, gs, m, privateKey);
  }

  predicate KeyIsFree(gs: GroupState, userId: int64, key: Bytes32) {
    forall p :: p in gs.participants && p.publicKey == key ==> p.userId == userId
  }

  lemma WithSelfIsValid(gs: GroupState, self: Participant)
    requires ValidGroupState(gs)
    ensures ValidGroupState(WithSelf(gs, self)) <==> KeyIsFree(gs, self.userId, self.publicKey)
  {
    var kept := Without(gs.participants, self.userId);
    var ps := WithSelf(gs, self).participants;
    assert forall i :: 0 <= i < |kept| ==> ps[i] == kept[i] && kept[i] in kept;
    assert forall p :: p in ps <==> p in kept || p == self;
    if !KeyIsFree(gs, self.userId, self.publicKey) {
      var p :| p in gs.participants && p.publicKey == self.publicKey && p.userId != self.userId;
      var i :| 0 <= i < |kept| && kept[i] == p;
      assert ps[i].publicKey == ps[|kept|].publicKey;
    }
  }

  /** A joiner may set the state with itself in it exactly when it holds both rights, given that its key is free. */
  lemma MayAddSelfExactly(gs: GroupState, self: Participant, permissions: Flags)
    requires ValidGroupState(gs) && KeyIsFree(gs, self.userId, self.publicKey)
    requires self.Rights() == BOTH_RIGHTS
    requires permissions == GetPermissions(gs, self.publicKey, ALL_PERMISSIONS)
    ensures MaySetGroupState(gs, WithSelf(gs, self), permissions) <==> BOTH_RIGHTS <= permissions
  {
    hide FlagTable;
    var ps, ps' := gs.participants, WithSelf(gs, self).participants;
    var before, after := FlagTable(ps), FlagTable(ps');
    WithSelfIsValid(gs, self);
    assert self in ps';
    TableHoldsFlags(ps', self);
    forall k | k in after && k != MemberOf(self)
      ensures MemberAllowed(before, k, after[k], permissions)
    {
      TableEntry(ps', k);
      var p :| p in ps' && MemberOf(p) == k;
      TableHoldsFlags(ps', p);
      TableHoldsFlags(ps, p);
    }
    var mine := FindByKey(ps, self.publicKey);
    if mine.Some? {
      TableHoldsFlags(ps, mine.value);
    }
    TableEntry(ps, MemberOf(self));
    forall k | k in before && k !in after ensures k.0 == self.userId {
      TableEntry(ps, k);
      TableEntry(ps', k);
    }
  }

  /** On any valid chain a self-add builds exactly when the key is nobody else's and its holder may both add and remove. */
  lemma SelfAddBuildsExactly(env: Env, c: Chain, userId: int64, privateKey: Bytes32, m: KeyMaterial)
    requires 0 <= c.lastBlock.height < INT32_MAX && ValidGroupState(c.ledger.groupState)
    ensures var self := Self(env.p, userId, privateKey);
            var gs := c.ledger.groupState;
            BuildBlock(env, c, ChangesForNewState(env.p, WithSelf(gs, self), m), privateKey).Some? <==>
            && KeyIsFree(gs, userId, self.publicKey)
            && BOTH_RIGHTS <= GetPermissions(gs, self.publicKey, ALL_PERMISSIONS)
  {
    var self := Self(env.p, userId, privateKey);
    var gs := c.ledger.groupState;
    NewStateBuildsExactly(env, c, WithSelf(gs, self), m, privateKey);
    WithSelfIsValid(gs, self);
    assert self.Rights() == BOTH_RIGHTS;
    if KeyIsFree(gs, userId, self.publicKey) {
      MayAddSelfExactly(gs, self, GetPermissions(gs, self.publicKey, ALL_PERMISSIONS));
      assert self in WithSelf(gs, self).participants;
      FindSelf(WithSelf(gs, self).participants, self);
    }
  }

  // ---------------------------------------------------------------- runs of joins

  datatype Joiner = Joiner(userId: int64, privateKey: Bytes32, material: KeyMaterial)

  /** Each joiner sees only the last block, builds its own from it, and the founders' chain receives that block. */
  function JoinRun(env: Env, js: seq<Joiner>): Option<Chain> {
    if js == [] then Some(EMPTY_CHAIN)
    else
      var front, j := js[..|js| - 1], js[|js| - 1];
      var c := JoinRun(env, front);
      if c.None? then None
      else
        var last := if front == [] then None else Some(c.value.lastBlock);
        var b := MakeJoinBlock(env, last, j.userId, j.privateKey, j.material);
        if b.None? then None
        else
          match Receive(env, c.value, b.value)
          case Accepted(c') => Some(c')
          case _ => None
  }

  predicate FreshKeys(p: Primitives, js: seq<Joiner>) {
    forall i, j :: 0 <= i < j < |js| ==> p.publicKey(js[i].privateKey) != p.publicKey(js[j].privateKey)
  }

  /** Joiner i has not joined again under the same user id. */
  predicate IsCurrent(js: seq<Joiner>, i: nat)
    requires i < |js|
  {
    forall j :: i < j < |js| ==> js[j].userId != js[i].userId
  }

  predicate Present(p: Primitives, ps: seq<Participant>, j: Joiner) { Self(p, j.userId, j.privateKey) in ps }

  /** The group consists of the current joiners, all with both rights, and their key was made by the last of them. */
  ghost predicate JoinedGroup(env: Env, js: seq<Joiner>, c: Chain) {
    var gs := c.ledger.groupState;
    && js != []
    && c.lastBlock.height == |js| - 1
    && ValidGroupState(gs)
    && gs.externalPermissions == BOTH_RIGHTS
    && (forall q :: q in gs.participants ==>
          exists i :: 0 <= i < |js| && q == Self(env.p, js[i].userId, js[i].privateKey))
    && (forall i :: 0 <= i < |js| ==> (Present(env.p, gs.participants, js[i]) <==> IsCurrent(js, i)))
    && c.ledger.sharedKey == SharedKeyFor(env.p, gs.participants, js[|js| - 1].material)
  }

  lemma JoinRunStep(env: Env, front: seq<Joiner>, j: Joiner, c: Chain, b: Block)
    requires JoinRun(env, front) == Some(c) && Receive(env, c, b).Accepted?
    requires MakeJoinBlock(env, if front == [] then None else Some(c.lastBlock), j.userId, j.privateKey, j.material) == Some(b)
    ensures JoinRun(env, front + [j]) == Some(Receive(env, c, b).value)
  {
    var js := front + [j];
    assert js[..|js| - 1] == front && js[|js| - 1] == j;
  }

  lemma FounderJoins(env: Env, j: Joiner)
    requires SignaturesVerify(env.p)
    ensures JoinRun(env, [j]).Some? && JoinedGroup(env, [j], JoinRun(env, [j]).value)
    ensures Receive(env, EMPTY_CHAIN, JoinRun(env, [j]).value.lastBlock) == Accepted(JoinRun(env, [j]).value)
  {
    var self := Self(env.p, j.userId, j.privateKey);
    var gs := GroupState([self], BOTH_RIGHTS);
    ZeroBlockBuilds(env, j.userId, j.privateKey, j.material);
    var b := ZeroBlock(env, j.userId, j.privateKey, j.material).value;
    NewStateIsInstalled(env, EMPTY_CHAIN, gs, j.material, j.privateKey);
    JoinRunStep(env, [], j, EMPTY_CHAIN, b);
    assert [] + [j] == [j];
    FounderGroup(env, j, Receive(env, EMPTY_CHAIN, b).value);
  }

  lemma FounderGroup(env: Env, j: Joiner, c: Chain)
    requires var gs := GroupState([Self(env.p, j.userId, j.privateKey)], BOTH_RIGHTS);
             && ValidGroupState(gs) && c.ledger.groupState == gs && c.lastBlock.height == 0
             && c.ledger.sharedKey == SharedKeyFor(env.p, gs.participants, j.material)
    ensures JoinedGroup(env, [j], c)
  {
    var js := [j];
    var self := Self(env.p, j.userId, j.privateKey);
    assert js[0] == j && self == Self(env.p, js[0].userId, js[0].privateKey);
    assert forall q :: q in c.ledger.groupState.participants <==> q == self;
  }

  lemma JoinedGroupGrows(env: Env, front: seq<Joiner>, j: Joiner, c: Chain, c': Chain)
    requires JoinedGroup(env, front, c) && FreshKeys(env.p, front + [j])
    requires var gs := WithSelf(c.ledger.groupState, Self(env.p, j.userId, j.privateKey));
             && ValidGroupState(gs)
             && c'.ledger.groupState == gs
             && c'.ledger.sharedKey == SharedKeyFor(env.p, gs.participants, j.material)
             && c'.lastBlock.height == c.lastBlock.height + 1
    ensures JoinedGroup(env, front + [j], c')
  {
    var js := front + [j];
    var n := |front|;
    var self := Self(env.p, j.userId, j.privateKey);
    var ps, ps' := c.ledger.groupState.participants, c'.ledger.groupState.participants;
    assert js[n] == j && forall i :: 0 <= i < n ==> js[i] == front[i];
    assert forall q :: q in ps' <==> (q in ps && q.userId != j.userId) || q == self;
    forall q | q in ps' ensures exists i :: 0 <= i < |js| && q == Self(env.p, js[i].userId, js[i].privateKey) {
      if q == self {
        assert q == Self(env.p, js[n].userId, js[n].privateKey);
      } else {
        var i :| 0 <= i < n && q == Self(env.p, front[i].userId, front[i].privateKey);
        assert q == Self(env.p, js[i].userId, js[i].privateKey);
      }
    }
    forall i | 0 <= i < |js| ensures Present(env.p, ps', js[i]) <==> IsCurrent(js, i) {
      if i < n {
        assert env.p.publicKey(js[i].privateKey) != env.p.publicKey(js[n].privateKey);
        assert Present(env.p, ps, front[i]) <==> IsCurrent(front, i);
        assert IsCurrent(js, i) <==> IsCurrent(front, i) && js[n].userId != js[i].userId;
      }
    }
  }

  /** Any number of joins with fresh keys all build, are all accepted, and leave exactly the current joiners. */
  lemma {:induction false} JoinsAlwaysSucceed(env: Env, js: seq<Joiner>)
    requires SignaturesVerify(env.p) && FreshKeys(env.p, js) && 0 < |js| <= INT32_MAX + 1
    ensures JoinRun(env, js).Some? && JoinedGroup(env, js, JoinRun(env, js).value)
    ensures CreateFromBlock(env, JoinRun(env, js).value.lastBlock) == JoinRun(env, js)
    decreases |js|
  {
    var front, j := js[..|js| - 1], js[|js| - 1];
    assert js == front + [j];
    if front == [] {
      FounderJoins(env, j);
      SnapshotEqualsApply(env, EMPTY_CHAIN, JoinRun(env, js).value.lastBlock, true);
    } else {
      JoinsAlwaysSucceed(env, front);
      JoinOneMore(env, front, j);
    }
  }

  lemma JoinOneMore(env: Env, front: seq<Joiner>, j: Joiner)
    requires SignaturesVerify(env.p) && FreshKeys(env.p, front + [j]) && 0 < |front| <= INT32_MAX
    requires JoinRun(env, front).Some? && JoinedGroup(env, front, JoinRun(env, front).value)
    requires CreateFromBlock(env, JoinRun(env, front).value.lastBlock) == JoinRun(env, front)
    ensures var js := front + [j];
            && JoinRun(env, js).Some? && JoinedGroup(env, js, JoinRun(env, js).value)
            && CreateFromBlock(env, JoinRun(env, js).value.lastBlock) == JoinRun(env, js)
  {
    var c := JoinRun(env, front).value;
    var gs := WithSelf(c.ledger.groupState, Self(env.p, j.userId, j.privateKey));
    NewcomerHasBothRights(env, front, j, c);
    SelfAddBuildsExactly(env, c, j.userId, j.privateKey, j.material);
    var b := BuildBlock(env, c, ChangesForNewState(env.p, gs, j.material), j.privateKey).value;
    NewStateIsInstalled(env, c, gs, j.material, j.privateKey);
    JoinRunStep(env, front, j, c, b);
    JoinedGroupGrows(env, front, j, c, Receive(env, c, b).value);
    SnapshotEqualsApply(env, c, b, true);
  }

  lemma NewcomerHasBothRights(env: Env, front: seq<Joiner>, j: Joiner, c: Chain)
    requires JoinedGroup(env, front, c) && FreshKeys(env.p, front + [j])
    ensures KeyIsFree(c.ledger.groupState, j.userId, env.p.publicKey(j.privateKey))
    ensures BOTH_RIGHTS <= GetPermissions(c.ledger.groupState, env.p.publicKey(j.privateKey), ALL_PERMISSIONS)
  {
    var js := front + [j];
    var gs := c.ledger.groupState;
    forall q | q in gs.participants ensures q.publicKey != env.p.publicKey(j.privateKey) {
      var i :| 0 <= i < |front| && q == Self(env.p, front[i].userId, front[i].privateKey);
      assert js[i] == front[i] && js[|front|] == j;
    }
  }

  lemma {:induction false} VersionZero(ps: seq<Participant>)
    requires ps != [] && forall q :: q in ps ==> q.version == 0
    ensures MinVersion(ps) == 0
    decreases |ps|
  {
    if |ps| > 1 {
      assert forall q :: q in ps[..|ps| - 1] ==> q in ps;
      VersionZero(ps[..|ps| - 1]);
    }
  }

  /** After any run of joins everyone still in the call recovers the secret drawn by the last joiner. */
  lemma EveryoneHoldsTheLastKey(env: Env, js: seq<Joiner>, i: nat)
    requires Ideal(env.p) && FreshKeys(env.p, js) && 0 < |js| <= INT32_MAX + 1
    requires i < |js| && IsCurrent(js, i)
    ensures JoinRun(env, js).Some?
    ensures var c := JoinRun(env, js).value;
            && |c.ledger.sharedKey.destUserId| == |c.ledger.sharedKey.destHeader|
            && EpochSecret(env.p, c, js[i].userId, js[i].privateKey) == Some(js[|js| - 1].material.groupKey)
  {
    JoinsAlwaysSucceed(env, js);
    var c := JoinRun(env, js).value;
    assert Present(env.p, c.ledger.groupState.participants, js[i]);
    MemberHoldsKey(env, c, js[i], js[|js| - 1].material);
  }

  lemma MemberHoldsKey(env: Env, c: Chain, j: Joiner, m: KeyMaterial)
    requires Ideal(env.p) && ValidGroupState(c.ledger.groupState)
    requires Present(env.p, c.ledger.groupState.participants, j)
    requires forall q :: q in c.ledger.groupState.participants ==> q.version == 0
    requires c.ledger.sharedKey == SharedKeyFor(env.p, c.ledger.groupState.participants, m)
    ensures EpochSecret(env.p, c, j.userId, j.privateKey) == Some(m.groupKey)
  {
    hide SharedKeyFor, DecryptSharedKey, FindByKey;
    var ps := c.ledger.groupState.participants;
    var k :| 0 <= k < |ps| && ps[k] == Self(env.p, j.userId, j.privateKey);
    MemberRecoversGroupKey(env.p, ps, m, k, j.privateKey);
    FindByKeyIsUnique(ps, k);
    VersionZero(ps);
  }
}
