/** What every accepted history keeps: rights never grow, and a shared key fits the group it is used with. */
module GroupSafety {
  import opened Common
  import opened ChainSpec

  // ---------------------------------------------------------------- rights

  /** Every right held by someone, inside or outside the group. */
  function AllRights(gs: GroupState): Flags {
    (set p, b | p in gs.participants && b in p.Rights() :: b) + gs.externalPermissions
  }

  lemma SignerRightsAreContained(gs: GroupState, signer: Bytes32)
    ensures GetPermissions(gs, signer, ALL_PERMISSIONS) * ALL_PERMISSIONS <= AllRights(gs)
  {
  }

  lemma {:induction false} TableEntry(ps: seq<Participant>, k: Member)
    ensures k in FlagTable(ps) <==> exists p :: p in ps && MemberOf(p) == k
    ensures k in FlagTable(ps) ==> exists p :: p in ps && MemberOf(p) == k && p.Rights() == FlagTable(ps)[k]
    decreases |ps|
  {
    if ps == [] {
    } else {
      var front, last := ps[..|ps| - 1], ps[|ps| - 1];
      TableEntry(front, k);
      assert last in ps;
      assert forall p :: p in ps <==> p in front || p == last;
    }
  }

  /** In a valid group the flag table gives each participant its own flags. */
  lemma TableHoldsFlags(ps: seq<Participant>, p: Participant)
    requires DistinctIds(ps) && p in ps
    ensures MemberOf(p) in FlagTable(ps) && FlagTable(ps)[MemberOf(p)] == p.Rights()
  {
    TableEntry(ps, MemberOf(p));
    var q :| q in ps && MemberOf(q) == MemberOf(p) && q.Rights() == FlagTable(ps)[MemberOf(p)];
    var i :| 0 <= i < |ps| && ps[i] == p;
    var j :| 0 <= j < |ps| && ps[j] == q;
    assert i == j;
  }

  lemma GroupChangeKeepsRightsBounded(gs: GroupState, gs': GroupState, signer: Bytes32)
    requires MaySetGroupState(gs, gs', GetPermissions(gs, signer, ALL_PERMISSIONS))
    ensures NoMoreRights(gs', gs)
  {
    SignerRightsAreContained(gs, signer);
    forall p | p in gs'.participants ensures p.Rights() <= AllRights(gs) {
      TableHoldsFlags(gs'.participants, p);
      TableEntry(gs.participants, MemberOf(p));
      var granted := GetPermissions(gs, signer, ALL_PERMISSIONS);
      assert MemberAllowed(FlagTable(gs.participants), MemberOf(p), p.Rights(), granted);
    }
  }

  predicate NoMoreRights(after: GroupState, before: GroupState) {
    AllRights(after) <= AllRights(before) && after.externalPermissions <= before.externalPermissions
  }

  lemma {:induction false} ChangesKeepRightsBounded(l: Ledger, cs: seq<Change>, signer: Bytes32)
    requires ApplyChanges(l, cs, signer, ALL_PERMISSIONS).Some?
    ensures NoMoreRights(ApplyChanges(l, cs, signer, ALL_PERMISSIONS).value.groupState, l.groupState)
    decreases |cs|
  {
    if cs == [] {
    } else {
      var front, last := cs[..|cs| - 1], cs[|cs| - 1];
      ChangesKeepRightsBounded(l, front, signer);
      var m := ApplyChanges(l, front, signer, ALL_PERMISSIONS).value;
      if last.SetGroupState? {
        GroupChangeKeepsRightsBounded(m.groupState, last.groupState, signer);
      }
    }
  }

  lemma {:induction false} FutureHasNoMoreRights(env: Env, c: Chain, future: seq<Block>)
    requires 0 <= c.lastBlock.height && Extend(env, Some(c), future).Some?
    ensures NoMoreRights(Extend(env, Some(c), future).value.ledger.groupState, c.ledger.groupState)
    ensures c.lastBlock.height <= Extend(env, Some(c), future).value.lastBlock.height
    decreases |future|
  {
    if future == [] {
    } else {
      var front, last := future[..|future| - 1], future[|future| - 1];
      FutureHasNoMoreRights(env, c, front);
      var m := Extend(env, Some(c), front).value;
      var start := AtHeight(m.ledger, last.height);
      var signer := SignerOf(start.groupState, last.signaturePublicKey).value;
      ChangesKeepRightsBounded(Unmarked(start), last.changes, signer);
    }
  }

  /** Along every accepted history neither the union of all rights nor the outsiders' rights ever grow. */
  lemma RightsNeverGrow(env: Env, earlier: seq<Block>, later: seq<Block>)
    requires earlier != [] && Replay(env, earlier + later).Some?
    ensures Replay(env, earlier).Some?
    ensures NoMoreRights(
              Replay(env, earlier + later).value.ledger.groupState, Replay(env, earlier).value.ledger.groupState)
  {
    ExtendConcat(env, Some(EMPTY_CHAIN), earlier, later);
    NothingFromNone(env, later);
    ReplayHeight(env, earlier);
    FutureHasNoMoreRights(env, Replay(env, earlier).value, later);
  }

  lemma {:induction false} NothingFromNone(env: Env, future: seq<Block>)
    ensures Extend(env, None, future) == None
    decreases |future|
  {
    if future != [] {
      NothingFromNone(env, future[..|future| - 1]);
    }
  }

  // ---------------------------------------------------------------- who may change the members

  /** The right is the signer's own if it is in the group, and the outsiders' otherwise. */
  predicate HoldsRight(gs: GroupState, key: Bytes32, right: Bit) {
    match FindByKey(gs.participants, key)
    case Some(p) => right in p.Rights()
    case None => right in gs.externalPermissions
  }

  lemma RightsOfSigner(gs: GroupState, key: Bytes32)
    ensures var permissions := GetPermissions(gs, key, ALL_PERMISSIONS);
            && (MayAddUsers(permissions) <==> HoldsRight(gs, key, ADD_USERS))
            && (MayRemoveUsers(permissions) <==> HoldsRight(gs, key, REMOVE_USERS))
            && (MayChangeSharedKey(permissions) ==> exists p :: p in gs.participants && p.publicKey == key)
  {
    var found := FindByKey(gs.participants, key);
    if found.Some? {
      assert found.value in gs.participants;
    }
  }

  predicate IsMember(gs: GroupState, p: Participant) {
    exists q :: q in gs.participants && MemberOf(q) == MemberOf(p)
  }

  /** A member that stays has other rights afterwards. */
  ghost predicate SomeoneChanges(before: GroupState, after: GroupState) {
    exists p, q :: p in before.participants && q in after.participants && MemberOf(p) == MemberOf(q) && p.Rights() != q.Rights()
  }

  lemma ChangingTakesBothRights(before: GroupState, after: GroupState, signer: Bytes32)
    requires ValidGroupState(before) && SomeoneChanges(before, after)
    requires MaySetGroupState(before, after, GetPermissions(before, signer, ALL_PERMISSIONS))
    ensures HoldsRight(before, signer, ADD_USERS) && HoldsRight(before, signer, REMOVE_USERS)
  {
    hide FlagTable;
    RightsOfSigner(before, signer);
    var p, q :| p in before.participants && q in after.participants && MemberOf(p) == MemberOf(q) && p.Rights() != q.Rights();
    TableHoldsFlags(before.participants, p);
    TableHoldsFlags(after.participants, q);
    assert MemberAllowed(FlagTable(before.participants), MemberOf(q), q.Rights(), GetPermissions(before, signer, ALL_PERMISSIONS));
  }

  /**
   * At the change that does it, removing takes the right to remove, adding the right to add, changing the rights of
   * one who stays takes both, and the signer stays in with a right.
   */
  lemma MembershipChangesAreAuthorised(l: Ledger, cs: seq<Change>, i: nat, signer: Bytes32)
    requires i < |cs| && cs[i].SetGroupState? && ApplyChanges(l, cs, signer, ALL_PERMISSIONS).Some?
    ensures ApplyChanges(l, cs[..i], signer, ALL_PERMISSIONS).Some?
    ensures var before := ApplyChanges(l, cs[..i], signer, ALL_PERMISSIONS).value.groupState;
            var after := cs[i].groupState;
            && ((exists p :: p in before.participants && !IsMember(after, p)) ==> HoldsRight(before, signer, REMOVE_USERS))
            && ((exists p :: p in after.participants && !IsMember(before, p)) ==> HoldsRight(before, signer, ADD_USERS))
            && (ValidGroupState(before) && SomeoneChanges(before, after) ==>
                  HoldsRight(before, signer, ADD_USERS) && HoldsRight(before, signer, REMOVE_USERS))
            && (exists p :: p in after.participants && p.publicKey == signer)
            && (HoldsRight(after, signer, ADD_USERS) || HoldsRight(after, signer, REMOVE_USERS))
  {
    PrefixesApply(l, cs, i + 1, signer);
    PrefixesApply(l, cs, i, signer);
    assert cs[..i + 1][..i] == cs[..i];
    var before := ApplyChanges(l, cs[..i], signer, ALL_PERMISSIONS).value.groupState;
    var after := cs[i].groupState;
    RightsOfSigner(before, signer);
    RightsOfSigner(after, signer);
    if ValidGroupState(before) && SomeoneChanges(before, after) {
      ChangingTakesBothRights(before, after, signer);
    }
    var old', new' := FlagTable(before.participants), FlagTable(after.participants);
    forall p | p in before.participants && !IsMember(after, p) ensures HoldsRight(before, signer, REMOVE_USERS) {
      TableEntry(before.participants, MemberOf(p));
      TableEntry(after.participants, MemberOf(p));
      assert MemberOf(p) in old' && MemberOf(p) !in new';
    }
    forall p | p in after.participants && !IsMember(before, p) ensures HoldsRight(before, signer, ADD_USERS) {
      TableEntry(before.participants, MemberOf(p));
      TableEntry(after.participants, MemberOf(p));
      assert MemberOf(p) in new' && MemberOf(p) !in old';
      assert MemberAllowed(old', MemberOf(p), new'[MemberOf(p)], GetPermissions(before, signer, ALL_PERMISSIONS));
    }
  }

  lemma {:induction false} PrefixesApply(l: Ledger, cs: seq<Change>, i: nat, signer: Bytes32)
    requires i <= |cs| && ApplyChanges(l, cs, signer, ALL_PERMISSIONS).Some?
    ensures ApplyChanges(l, cs[..i], signer, ALL_PERMISSIONS).Some?
    decreases |cs|
  {
    if i == |cs| {
      assert cs[..i] == cs;
    } else {
      assert cs[..|cs| - 1][..i] == cs[..i];
      PrefixesApply(l, cs[..|cs| - 1], i, signer);
    }
  }

  // ---------------------------------------------------------------- the shared key

  function Ids(ps: seq<Participant>): (r: seq<int64>)
    ensures |r| == |ps|
  {
    seq(|ps|, i requires 0 <= i < |ps| => ps[i].userId)
  }

  /** Each current participant is addressed exactly once, with one header, and nobody else is. */
  ghost predicate AddressedToExactly(k: SharedKey, gs: GroupState) {
    && |k.destHeader| == |k.destUserId|
    && multiset(k.destUserId) == multiset(Ids(gs.participants))
  }

  lemma DistinctMultiset(s: seq<int64>)
    requires forall i, j :: 0 <= i < j < |s| ==> s[i] != s[j]
    ensures multiset(s) == multiset(Elements(s))
    decreases |s|
  {
    if s == [] {
    } else {
      var front, last := s[..|s| - 1], s[|s| - 1];
      DistinctMultiset(front);
      assert s == front + [last];
      assert Elements(s) == Elements(front) + {last};
    }
  }

  /** Equal sizes and inclusion leave no room for anyone else. */
  lemma SizeAndInclusionAddressExactly(k: SharedKey, gs: GroupState)
    requires ValidGroupState(gs) && ValidSharedKey(k, gs) && k != NO_KEY
    ensures AddressedToExactly(k, gs)
  {
    var ids := Ids(gs.participants);
    var dest, present := Elements(k.destUserId), Elements(ids);
    DistinctIffFullSet(k.destUserId);
    DistinctIffFullSet(ids);
    forall u | u in present ensures u in dest {
      var i :| 0 <= i < |ids| && ids[i] == u;
      assert gs.participants[i] in gs.participants;
    }
    SubsetOfEqualSize(present, dest);
    DistinctMultiset(k.destUserId);
    DistinctMultiset(ids);
  }

  /** In every reachable state ids and keys are unique and the shared key is absent or addressed to exactly the members. */
  lemma ReachableStatesAreCovered(env: Env, history: seq<Block>)
    requires history != [] && Replay(env, history).Some?
    ensures var l := Replay(env, history).value.ledger;
            && DistinctIds(l.groupState.participants) && DistinctKeys(l.groupState.participants)
            && l.groupState.externalPermissions <= ALL_PERMISSIONS
            && (l.sharedKey == NO_KEY || AddressedToExactly(l.sharedKey, l.groupState))
  {
    var l := Replay(env, history).value.ledger;
    if l.sharedKey != NO_KEY {
      SizeAndInclusionAddressExactly(l.sharedKey, l.groupState);
    }
  }

  predicate InstallsAt(cs: seq<Change>, j: int, k: SharedKey) {
    && 0 <= j < |cs|
    && cs[j] == SetSharedKey(k)
    && (forall i :: j < i < |cs| ==> !cs[i].SetGroupState?)
  }

  ghost predicate Installs(cs: seq<Change>, k: SharedKey) { exists j :: InstallsAt(cs, j, k) }

  lemma InstallsInOneMore(front: seq<Change>, last: Change, k: SharedKey)
    ensures ChangesGroup(front + [last]) <==> ChangesGroup(front) || last.SetGroupState?
    ensures last == SetSharedKey(k) ==> Installs(front + [last], k)
    ensures Installs(front, k) && !last.SetGroupState? ==> Installs(front + [last], k)
  {
    var cs := front + [last];
    assert forall c :: c in cs <==> c in front || c == last;
    if last == SetSharedKey(k) {
      assert InstallsAt(cs, |front|, k);
    }
    if j :| InstallsAt(front, j, k) {
      if !last.SetGroupState? {
        assert InstallsAt(cs, j, k);
      }
    }
  }

  /** Either the run of changes left the key and the group alone, or it installed the key over nothing or over a new group. */
  ghost predicate KeepsOrInstalls(l: Ledger, cs: seq<Change>, l': Ledger) {
    || (!ChangesGroup(cs) && l'.sharedKey == l.sharedKey && l'.groupState == l.groupState)
    || (Installs(cs, l'.sharedKey) && (ChangesGroup(cs) || l.sharedKey == NO_KEY))
  }

  /** A key is gone only if the group changed or there was none; otherwise it was kept or installed. */
  ghost predicate KeyFate(l: Ledger, cs: seq<Change>, l': Ledger) {
    if l'.sharedKey == NO_KEY then ChangesGroup(cs) || l.sharedKey == NO_KEY
    else KeepsOrInstalls(l, cs, l')
  }

  /** What one accepted change does to the key and the group. */
  predicate KeyStep(m: Ledger, last: Change, m': Ledger) {
    if last.SetGroupState? then m'.sharedKey == NO_KEY
    else
      && m'.groupState == m.groupState
      && (if last.SetSharedKey? then m.sharedKey == NO_KEY && m'.sharedKey == last.sharedKey
          else m'.sharedKey == m.sharedKey)
  }

  lemma KeyFateOneMore(l: Ledger, front: seq<Change>, m: Ledger, last: Change, m': Ledger)
    requires KeyFate(l, front, m) && KeyStep(m, last, m')
    ensures KeyFate(l, front + [last], m')
  {
    InstallsInOneMore(front, last, m'.sharedKey);
  }

  lemma ChangeIsKeyStep(l: Ledger, change: Change, signer: Bytes32, limit: Flags)
    requires ApplyChange(l, change, signer, limit).Some?
    ensures KeyStep(l, change, ApplyChange(l, change, signer, limit).value)
  {
  }

  lemma {:induction false} KeyAfterChanges(l: Ledger, cs: seq<Change>, signer: Bytes32, limit: Flags)
    requires ApplyChanges(l, cs, signer, limit).Some?
    ensures KeyFate(l, cs, ApplyChanges(l, cs, signer, limit).value)
    decreases |cs|
  {
    if cs == [] {
    } else {
      var front, last := cs[..|cs| - 1], cs[|cs| - 1];
      var m := ApplyChanges(l, front, signer, limit).value;
      KeyAfterChanges(l, front, signer, limit);
      ChangeIsKeyStep(m, last, signer, limit);
      KeyFateOneMore(l, front, m, last, ApplyChange(m, last, signer, limit).value);
      assert cs == front + [last];
    }
  }

  /** A key in use was installed by some change after which no change touched the group. */
  lemma {:induction false} KeyIsFresh(env: Env, history: seq<Block>)
    requires Replay(env, history).Some? && Replay(env, history).value.ledger.sharedKey != NO_KEY
    ensures exists i :: InstalledIn(env, history, i)
    decreases |history|
  {
    if history == [] {
    } else {
      var n := |history| - 1;
      var front, last := history[..n], history[n];
      var c := Replay(env, front).value;
      var k := Replay(env, history).value.ledger.sharedKey;
      ReplayHeight(env, front);
      var start := AtHeight(c.ledger, last.height);
      var signer := SignerOf(start.groupState, last.signaturePublicKey).value;
      KeyAfterChanges(Unmarked(start), last.changes, signer, ALL_PERMISSIONS);
      assert history == front + [last];
      if Installs(last.changes, k) {
        assert history[..n + 1] == history;
        assert InstalledIn(env, history, n);
      } else {
        KeyIsFresh(env, front);
        var i :| InstalledIn(env, front, i);
        assert history[..i + 1] == front[..i + 1];
        assert InstalledIn(env, history, i);
      }
    }
  }

  /** Block i installs the final key, and from that change on the group is the final group. */
  ghost predicate InstalledIn(env: Env, history: seq<Block>, i: int)
  {
    && 0 <= i < |history|
    && Replay(env, history).Some?
    && Replay(env, history[..i + 1]).Some?
    && Replay(env, history[..i + 1]).value.ledger.groupState == Replay(env, history).value.ledger.groupState
    && Installs(history[i].changes, Replay(env, history).value.ledger.sharedKey)
    && (forall m :: i < m < |history| ==> !ChangesGroup(history[m].changes))
  }

  /** One key gives way to another only in a block that also changes the group. */
  lemma KeyReplacedOnlyWithGroup(env: Env, c: Chain, b: Block)
    requires 0 < b.height && Receive(env, c, b).Accepted?
    requires c.ledger.sharedKey != NO_KEY && Receive(env, c, b).value.ledger.sharedKey !in {NO_KEY, c.ledger.sharedKey}
    ensures ChangesGroup(b.changes)
  {
    var start := AtHeight(c.ledger, b.height);
    var signer := SignerOf(start.groupState, b.signaturePublicKey).value;
    KeyAfterChanges(Unmarked(start), b.changes, signer, ALL_PERMISSIONS);
  }
}
