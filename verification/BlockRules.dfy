/** Exactly which blocks are accepted, and from which a member can join, in terms of the block and the group it meets. */
module BlockRules {
  import opened Common
  import opened ChainSpec
  import opened ChainAgreement
  import opened GroupSafety

  // ---------------------------------------------------------------- signatures

  /** The key a block has to be signed with: the one it names, or that of the first participant of a group past its start. */
  predicate SignsFor(c: Chain, b: Block, k: Bytes32) {
    if b.signaturePublicKey.Some? then k == b.signaturePublicKey.value
    else
      var ps := c.ledger.groupState.participants;
      b.height != 0 && ps != [] && k == ps[0].publicKey
  }

  /** The signature is over the whole block with zeros in the place of the signature. */
  predicate SignedWith(env: Env, b: Block, k: Bytes32) {
    env.p.verify(k, env.encodeBlock(b.(signature := Zeros(64))), b.signature)
  }

  lemma AcceptedIsSigned(env: Env, c: Chain, b: Block)
    requires Receive(env, c, b).Accepted?
    ensures exists k :: SignsFor(c, b, k) && SignedWith(env, b, k)
  {
    var k := SignerOf(AtHeight(c.ledger, b.height).groupState, b.signaturePublicKey).value;
    assert SignsFor(c, b, k) && SignedWith(env, b, k);
  }

  /** A built block whose signature is replaced by one that does not verify is turned away. */
  lemma ForeignSignatureIsRejected(env: Env, c: Chain, cs: seq<Change>, key: Bytes32, signature: Bytes64)
    requires BuildBlock(env, c, cs, key).Some?
    requires var b := BuildBlock(env, c, cs, key).value.(signature := signature);
             !SignedWith(env, b, env.p.publicKey(key))
    ensures Receive(env, c, BuildBlock(env, c, cs, key).value.(signature := signature)) == Rejected
  {
  }

  /** Two blocks that are signed alike differ in nothing but the signature, or have one encoding. */
  lemma SignatureCoversTheBlock(env: Env, a: Block, b: Block)
    requires DataToSign(env, a) == DataToSign(env, b)
    ensures || b == a.(signature := b.signature)
            || exists x, y :: x != y && env.encodeBlock(x) == env.encodeBlock(y)
  {
    var x, y := a.(signature := Zeros(64)), b.(signature := Zeros(64));
    if x == y {
      assert a.(signature := b.signature) == x.(signature := b.signature) == y.(signature := b.signature) == b;
    }
  }

  // ---------------------------------------------------------------- who may change what

  /** The key belongs to a participant that may add or remove. */
  ghost predicate Governs(gs: GroupState, key: Bytes32) {
    exists p :: p in gs.participants && p.publicKey == key && (p.addUsers || p.removeUsers)
  }

  predicate HoldsAll(gs: GroupState, key: Bytes32, rights: Flags) {
    forall r :: r in rights ==> HoldsRight(gs, key, r)
  }

  /**
   * What the holder of a key may do to the members of a group: remove with the right to remove, add with the right to
   * add, change with both, and grant only what it holds; outsiders never gain rights.
   */
  ghost predicate MayReplace(before: GroupState, after: GroupState, key: Bytes32) {
    && after.externalPermissions <= before.externalPermissions
    && (forall p :: p in before.participants && !IsMember(after, p) ==> HoldsRight(before, key, REMOVE_USERS))
    && (forall q :: q in after.participants && !IsMember(before, q) ==>
          HoldsRight(before, key, ADD_USERS) && HoldsAll(before, key, q.Rights()))
    && (forall p, q :: p in before.participants && q in after.participants && MemberOf(p) == MemberOf(q) && p.Rights() != q.Rights() ==>
          && HoldsRight(before, key, ADD_USERS) && HoldsRight(before, key, REMOVE_USERS)
          && HoldsAll(before, key, q.Rights() - p.Rights()))
  }

  lemma GrantsExactly(gs: GroupState, key: Bytes32, rights: Flags)
    requires rights <= {ADD_USERS, REMOVE_USERS}
    ensures rights - GetPermissions(gs, key, ALL_PERMISSIONS) * ALL_PERMISSIONS == {} <==> HoldsAll(gs, key, rights)
  {
    var granted := GetPermissions(gs, key, ALL_PERMISSIONS) * ALL_PERMISSIONS;
    RightsOfSigner(gs, key);
    forall r | r in rights ensures r in granted <==> HoldsRight(gs, key, r) {
      assert r == ADD_USERS || r == REMOVE_USERS;
    }
    NothingMissing(rights, granted);
  }

  lemma GovernsExactly(gs: GroupState, key: Bytes32)
    requires DistinctKeys(gs.participants)
    ensures MayChangeSharedKey(GetPermissions(gs, key, ALL_PERMISSIONS)) <==> Governs(gs, key)
  {
    var found := FindByKey(gs.participants, key);
    forall p | p in gs.participants && p.publicKey == key ensures found == Some(p) {
      var i :| 0 <= i < |gs.participants| && gs.participants[i] == p;
      FirstMatchIsFound(gs.participants, i);
    }
  }

  lemma StayingMemberExactly(before: GroupState, after: GroupState, key: Bytes32, p: Participant, q: Participant)
    requires DistinctIds(before.participants) && DistinctIds(after.participants)
    requires p in before.participants && q in after.participants && MemberOf(p) == MemberOf(q)
    ensures var old', new' := FlagTable(before.participants), FlagTable(after.participants);
            && MemberOf(q) in old' && MemberOf(q) in new'
            && (MemberAllowed(old', MemberOf(q), new'[MemberOf(q)], GetPermissions(before, key, ALL_PERMISSIONS)) <==>
                  p.Rights() == q.Rights() ||
                  (&& HoldsRight(before, key, ADD_USERS) && HoldsRight(before, key, REMOVE_USERS)
                   && HoldsAll(before, key, q.Rights() - p.Rights())))
  {
    hide FlagTable, HoldsAll, HoldsRight, GetPermissions;
    TableHoldsFlags(before.participants, p);
    TableHoldsFlags(after.participants, q);
    RightsOfSigner(before, key);
    GrantsExactly(before, key, q.Rights() - p.Rights());
  }

  lemma NewMemberExactly(before: GroupState, after: GroupState, key: Bytes32, q: Participant)
    requires DistinctIds(after.participants) && q in after.participants && !IsMember(before, q)
    ensures var old', new' := FlagTable(before.participants), FlagTable(after.participants);
            && MemberOf(q) !in old' && MemberOf(q) in new'
            && (MemberAllowed(old', MemberOf(q), new'[MemberOf(q)], GetPermissions(before, key, ALL_PERMISSIONS)) <==>
                  HoldsRight(before, key, ADD_USERS) && HoldsAll(before, key, q.Rights()))
  {
    hide FlagTable, HoldsAll, HoldsRight, GetPermissions;
    TableEntry(before.participants, MemberOf(q));
    TableHoldsFlags(after.participants, q);
    RightsOfSigner(before, key);
    GrantsExactly(before, key, q.Rights());
  }

  /** A new group is let in exactly if it is valid and its members are what the signer may make them. */
  lemma ReplacedExactly(before: GroupState, after: GroupState, key: Bytes32)
    requires ValidGroupState(before)
    ensures MaySetGroupState(before, after, GetPermissions(before, key, ALL_PERMISSIONS)) <==>
            ValidGroupState(after) && MayReplace(before, after, key)
  {
    hide FlagTable, GetPermissions, HoldsAll, HoldsRight, MemberAllowed;
    var granted := GetPermissions(before, key, ALL_PERMISSIONS);
    if ValidGroupState(after) {
      NothingMissing(after.externalPermissions, before.externalPermissions);
      if MaySetGroupState(before, after, granted) {
        AllowedMeansMayReplace(before, after, key);
      }
      if MayReplace(before, after, key) {
        MayReplaceMeansAllowed(before, after, key);
      }
    }
  }

  lemma NothingMissing(a: Flags, b: Flags)
    ensures a - b == {} <==> a <= b
  {
    if a - b == {} {
      forall r | r in a ensures r in b {
        assert r !in a - b;
      }
    }
  }

  lemma AllowedMeansMayReplace(before: GroupState, after: GroupState, key: Bytes32)
    requires ValidGroupState(before) && ValidGroupState(after)
    requires MaySetGroupState(before, after, GetPermissions(before, key, ALL_PERMISSIONS))
    ensures MayReplace(before, after, key)
  {
    hide FlagTable, GetPermissions, HoldsAll, HoldsRight, MemberAllowed;
    var granted := GetPermissions(before, key, ALL_PERMISSIONS);
    var old', new' := FlagTable(before.participants), FlagTable(after.participants);
    RightsOfSigner(before, key);
    NothingMissing(after.externalPermissions, before.externalPermissions);
    forall p | p in before.participants && !IsMember(after, p) ensures HoldsRight(before, key, REMOVE_USERS) {
      TableEntry(before.participants, MemberOf(p));
      TableEntry(after.participants, MemberOf(p));
      assert MemberOf(p) in old' && MemberOf(p) !in new';
    }
    forall q | q in after.participants && !IsMember(before, q)
      ensures HoldsRight(before, key, ADD_USERS) && HoldsAll(before, key, q.Rights())
    {
      NewMemberExactly(before, after, key, q);
      assert MemberAllowed(old', MemberOf(q), new'[MemberOf(q)], granted);
    }
    forall p, q | p in before.participants && q in after.participants && MemberOf(p) == MemberOf(q) && p.Rights() != q.Rights()
      ensures && HoldsRight(before, key, ADD_USERS) && HoldsRight(before, key, REMOVE_USERS)
              && HoldsAll(before, key, q.Rights() - p.Rights())
    {
      StayingMemberExactly(before, after, key, p, q);
      assert MemberAllowed(old', MemberOf(q), new'[MemberOf(q)], granted);
    }
  }

  lemma MayReplaceMeansAllowed(before: GroupState, after: GroupState, key: Bytes32)
    requires ValidGroupState(before) && ValidGroupState(after) && MayReplace(before, after, key)
    ensures MaySetGroupState(before, after, GetPermissions(before, key, ALL_PERMISSIONS))
  {
    hide FlagTable, GetPermissions, HoldsAll, HoldsRight, MemberAllowed;
    var granted := GetPermissions(before, key, ALL_PERMISSIONS);
    var old', new' := FlagTable(before.participants), FlagTable(after.participants);
    RightsOfSigner(before, key);
    forall k | k in old' && k !in new' ensures MayRemoveUsers(granted) {
      TableEntry(before.participants, k);
      TableEntry(after.participants, k);
      var p :| p in before.participants && MemberOf(p) == k;
      assert !IsMember(after, p);
    }
    forall k | k in new' ensures MemberAllowed(old', k, new'[k], granted) {
      TableEntry(after.participants, k);
      var q :| q in after.participants && MemberOf(q) == k;
      if IsMember(before, q) {
        var p :| p in before.participants && MemberOf(p) == MemberOf(q);
        StayingMemberExactly(before, after, key, p, q);
      } else {
        NewMemberExactly(before, after, key, q);
      }
    }
  }

  /** What a change takes, kind by kind. */
  ghost predicate MayChange(l: Ledger, change: Change, key: Bytes32) {
    match change
    case Noop(_) => true
    case SetValue(_, _) => true
    case SetGroupState(gs) => ValidGroupState(gs) && MayReplace(l.groupState, gs, key) && Governs(gs, key)
    case SetSharedKey(k) =>
      l.sharedKey == NO_KEY && Governs(l.groupState, key) && (k == NO_KEY || AddressedToExactly(k, l.groupState))
  }

  /** A change is applied exactly if its signer may make it. */
  lemma ChangedExactly(l: Ledger, change: Change, key: Bytes32)
    requires ValidGroupState(l.groupState)
    ensures ApplyChange(l, change, key, ALL_PERMISSIONS).Some? <==> MayChange(l, change, key)
  {
    hide GetPermissions, MaySetGroupState, MayReplace, Governs, ValidSharedKey, AddressedToExactly;
    match change
    case Noop(_) =>
    case SetValue(_, _) =>
    case SetGroupState(gs) =>
      ReplacedExactly(l.groupState, gs, key);
      if ValidGroupState(gs) {
        GovernsExactly(gs, key);
      }
    case SetSharedKey(k) =>
      GovernsExactly(l.groupState, key);
      FitsExactly(k, l.groupState);
  }

  /** A shared key fits a valid group exactly if there is none or it addresses each member once and nobody else. */
  lemma FitsExactly(k: SharedKey, gs: GroupState)
    requires ValidGroupState(gs)
    ensures ValidSharedKey(k, gs) <==> k == NO_KEY || AddressedToExactly(k, gs)
  {
    if k != NO_KEY && ValidSharedKey(k, gs) {
      SizeAndInclusionAddressExactly(k, gs);
    }
    if k != NO_KEY && AddressedToExactly(k, gs) {
      AddressedFits(k, gs);
    }
  }

  lemma AddressedFits(k: SharedKey, gs: GroupState)
    requires ValidGroupState(gs) && AddressedToExactly(k, gs)
    ensures ValidSharedKey(k, gs)
  {
    var ids, dest := Ids(gs.participants), k.destUserId;
    assert |dest| == |multiset(dest)| == |multiset(ids)| == |ids|;
    DistinctMultiset(ids);
    forall i, j | 0 <= i < j < |dest| ensures dest[i] != dest[j] {
      ListedOnce(dest, Elements(ids), i, j);
    }
    forall p | p in gs.participants ensures p.userId in dest {
      var i :| 0 <= i < |gs.participants| && gs.participants[i] == p;
      assert ids[i] in multiset(ids);
    }
  }

  lemma ListedOnce(s: seq<int64>, all: set<int64>, i: nat, j: nat)
    requires i < j < |s| && multiset(s) == multiset(all)
    ensures s[i] != s[j]
  {
    assert s == s[..j] + [s[j]] + s[j + 1..];
    assert s[i] in s[..j];
    assert multiset(all)[s[j]] <= 1;
  }

  // ---------------------------------------------------------------- accepted blocks

  /** The changes of a block one after the other, each one something the signer may do to what is there then. */
  ghost predicate MayChangeAll(l: Ledger, cs: seq<Change>, key: Bytes32) {
    forall i :: 0 <= i < |cs| ==>
      ApplyChanges(l, cs[..i], key, ALL_PERMISSIONS).Some? &&
      MayChange(ApplyChanges(l, cs[..i], key, ALL_PERMISSIONS).value, cs[i], key)
  }

  lemma {:induction false} ChangesKeepValid(l: Ledger, cs: seq<Change>, key: Bytes32, limit: Flags)
    requires ValidGroupState(l.groupState) && ApplyChanges(l, cs, key, limit).Some?
    ensures ValidGroupState(ApplyChanges(l, cs, key, limit).value.groupState)
    decreases |cs|
  {
    hide GetPermissions, ValidGroupState, FlagTable;
    if cs != [] {
      ChangesKeepValid(l, cs[..|cs| - 1], key, limit);
      OneChangeKeepsValid(ApplyChanges(l, cs[..|cs| - 1], key, limit).value, cs[|cs| - 1], key, limit);
    }
  }

  lemma OneChangeKeepsValid(l: Ledger, change: Change, key: Bytes32, limit: Flags)
    requires ValidGroupState(l.groupState) && ApplyChange(l, change, key, limit).Some?
    ensures ValidGroupState(ApplyChange(l, change, key, limit).value.groupState)
  {
  }

  /** A list of changes is applied exactly if the signer may make each of them in its turn. */
  lemma {:induction false} AllChangedExactly(l: Ledger, cs: seq<Change>, key: Bytes32)
    requires ValidGroupState(l.groupState)
    ensures ApplyChanges(l, cs, key, ALL_PERMISSIONS).Some? <==> MayChangeAll(l, cs, key)
    decreases |cs|
  {
    hide MayChange, ApplyChange, ValidGroupState;
    if cs != [] {
      var front, last := cs[..|cs| - 1], cs[|cs| - 1];
      AllChangedExactly(l, front, key);
      assert forall i :: 0 <= i < |front| ==> front[..i] == cs[..i] && front[i] == cs[i];
      if ApplyChanges(l, front, key, ALL_PERMISSIONS).Some? {
        ChangesKeepValid(l, front, key, ALL_PERMISSIONS);
        ChangedExactly(ApplyChanges(l, front, key, ALL_PERMISSIONS).value, last, key);
      }
    }
  }

  /** The proof of a block repeats what its changes leave alone, and nothing else. */
  predicate ProofFits(b: Block, l: Ledger) {
    && b.stateProof.groupState == (if ChangesGroup(b.changes) then None else Some(l.groupState))
    && b.stateProof.sharedKey == (if ChangesGroup(b.changes) || ChangesKey(b.changes) then None else Some(l.sharedKey))
  }

  /** A block that follows the chain, is signed by k, changes something, and k may make each of its changes in turn. */
  ghost predicate IsNextBy(env: Env, c: Chain, b: Block, k: Bytes32) {
    && b.height == c.lastBlock.height + 1 && b.prevBlockHash == c.lastHash
    && SignsFor(c, b, k) && SignedWith(env, b, k)
    && (ChangesGroup(b.changes) || ChangesValue(b.changes))
    && var start := Unmarked(AtHeight(c.ledger, b.height));
       && MayChangeAll(start, b.changes, k)
       && ApplyChanges(start, b.changes, k, ALL_PERMISSIONS).Some?
       && ProofFits(b, ApplyChanges(start, b.changes, k, ALL_PERMISSIONS).value)
  }

  predicate Sane(l: Ledger) { ValidGroupState(l.groupState) && ValidSharedKey(l.sharedKey, l.groupState) }

  lemma OneChangeKeepsSane(l: Ledger, change: Change, key: Bytes32, limit: Flags)
    requires Sane(l) && ApplyChange(l, change, key, limit).Some?
    ensures Sane(ApplyChange(l, change, key, limit).value)
  {
    hide GetPermissions, FlagTable, MemberAllowed;
  }

  lemma {:induction false} ChangesKeepSane(l: Ledger, cs: seq<Change>, key: Bytes32, limit: Flags)
    requires Sane(l) && ApplyChanges(l, cs, key, limit).Some?
    ensures Sane(ApplyChanges(l, cs, key, limit).value)
    decreases |cs|
  {
    hide ApplyChange, Sane;
    if cs != [] {
      ChangesKeepSane(l, cs[..|cs| - 1], key, limit);
      OneChangeKeepsSane(ApplyChanges(l, cs[..|cs| - 1], key, limit).value, cs[|cs| - 1], key, limit);
    }
  }

  lemma StartIsSane(env: Env, history: seq<Block>, c: Chain, height: int32)
    requires Replay(env, history) == Some(c) && height == c.lastBlock.height + 1
    ensures Sane(Unmarked(AtHeight(c.ledger, height))) && 0 <= height
  {
    ReplayHeight(env, history);
  }

  lemma AppliedExactly(env: Env, l: Ledger, b: Block, k: Bytes32)
    requires Sane(Unmarked(AtHeight(l, b.height)))
    requires SignerOf(AtHeight(l, b.height).groupState, b.signaturePublicKey) == Accepted(k)
    ensures ApplyBlock(env, l, b, true, false, ALL_PERMISSIONS).Accepted? <==>
            && SignedWith(env, b, k)
            && (ChangesGroup(b.changes) || ChangesValue(b.changes))
            && var start := Unmarked(AtHeight(l, b.height));
               && MayChangeAll(start, b.changes, k)
               && ApplyChanges(start, b.changes, k, ALL_PERMISSIONS).Some?
               && ProofFits(b, ApplyChanges(start, b.changes, k, ALL_PERMISSIONS).value)
  {
    hide MayChangeAll, ChangesGroup, ChangesKey, ChangesValue, ValidGroupState, ValidSharedKey;
    var start := AtHeight(l, b.height);
    AllChangedExactly(Unmarked(start), b.changes, k);
    ChangesIgnoreMarks(start, b.changes, k, ALL_PERMISSIONS);
    if ApplyChanges(Unmarked(start), b.changes, k, ALL_PERMISSIONS).Some? {
      ChangesKeepSane(Unmarked(start), b.changes, k, ALL_PERMISSIONS);
    }
  }

  /** After any accepted history: the next block is accepted exactly if it is signed, and by someone who may do what it does. */
  lemma AcceptedExactly(env: Env, history: seq<Block>, c: Chain, b: Block)
    requires Replay(env, history) == Some(c)
    ensures Receive(env, c, b).Accepted? <==> exists k :: IsNextBy(env, c, b, k)
  {
    hide Sane, MayChangeAll;
    if b.height == c.lastBlock.height + 1 {
      var start := AtHeight(c.ledger, b.height);
      StartIsSane(env, history, c, b.height);
      if Receive(env, c, b).Accepted? {
        var k := SignerOf(start.groupState, b.signaturePublicKey).value;
        AppliedExactly(env, c.ledger, b, k);
        assert IsNextBy(env, c, b, k);
      }
      forall k | IsNextBy(env, c, b, k) ensures Receive(env, c, b).Accepted? {
        assert SignerOf(start.groupState, b.signaturePublicKey) == Accepted(k);
        AppliedExactly(env, c.ledger, b, k);
      }
    }
  }

  /** The first block may set up any valid group in which its signer governs. */
  lemma AnyoneMayFound(l: Ledger, gs: GroupState, key: Bytes32)
    ensures ApplyChange(AtHeight(l, 0), SetGroupState(gs), key, ALL_PERMISSIONS).Some? <==>
            ValidGroupState(gs) && Governs(gs, key)
  {
    hide FlagTable, GetPermissions, MemberAllowed;
    var open := AtHeight(l, 0);
    ChangedExactly(open, SetGroupState(gs), key);
    if ValidGroupState(gs) && Governs(gs, key) {
      assert MayReplace(open.groupState, gs, key);
    }
  }

  // ---------------------------------------------------------------- joining from a block

  /** The group the changes leave, if any of them sets one. */
  function LastGroup(cs: seq<Change>): Option<GroupState> {
    if cs == [] then None
    else
      var last := cs[|cs| - 1];
      if last.SetGroupState? then Some(last.groupState) else LastGroup(cs[..|cs| - 1])
  }

  /** The key the changes leave, if any of them sets one or a group, which takes the key away. */
  function LastKey(cs: seq<Change>): Option<SharedKey> {
    if cs == [] then None
    else
      match cs[|cs| - 1]
      case SetSharedKey(k) => Some(k)
      case SetGroupState(_) => Some(NO_KEY)
      case _ => LastKey(cs[..|cs| - 1])
  }

  function Or<T>(a: Option<T>, b: Option<T>): Option<T> { if a.Some? then a else b }

  lemma {:induction false} OverlayExactly(l: Ledger, cs: seq<Change>)
    requires l == Unmarked(l)
    ensures Overlay(l, cs) == Marked(
                                l.(groupState := Or(LastGroup(cs), Some(l.groupState)).value,
                                   sharedKey := Or(LastKey(cs), Some(l.sharedKey)).value), cs)
    ensures LastGroup(cs).Some? <==> ChangesGroup(cs)
    ensures LastKey(cs).Some? <==> ChangesGroup(cs) || ChangesKey(cs)
    decreases |cs|
  {
    if cs != [] {
      var front, last := cs[..|cs| - 1], cs[|cs| - 1];
      OverlayExactly(l, front);
      MarksOfOneMore(front, last);
      assert cs == front + [last];
    }
  }

  /** The group and the key a block says there are: set by its changes, or else given by its proof. */
  function GroupOf(b: Block): Option<GroupState> { Or(LastGroup(b.changes), b.stateProof.groupState) }

  function KeyOf(b: Block): Option<SharedKey> { Or(LastKey(b.changes), b.stateProof.sharedKey) }

  /**
   * A block can be joined from exactly if it is past the start, changes something, its proof gives just what its changes
   * do not, and the group and the key there are then are valid. That group and key are what the chain has.
   */
  lemma JoinableExactly(env: Env, b: Block)
    ensures CreateFromBlock(env, b).Some? <==>
            && 0 <= b.height
            && (ChangesGroup(b.changes) || ChangesValue(b.changes))
            && (b.stateProof.groupState.Some? <==> !ChangesGroup(b.changes))
            && (b.stateProof.sharedKey.Some? <==> !ChangesGroup(b.changes) && !ChangesKey(b.changes))
            && GroupOf(b).Some? && ValidGroupState(GroupOf(b).value)
            && KeyOf(b).Some? && ValidSharedKey(KeyOf(b).value, GroupOf(b).value)
    ensures CreateFromBlock(env, b).Some? ==>
              var c := CreateFromBlock(env, b).value;
              && c.lastBlock == b && Some(c.ledger.groupState) == GroupOf(b) && Some(c.ledger.sharedKey) == KeyOf(b)
              && c.ledger.kvHash == b.stateProof.kvHash
  {
    hide ValidGroupState, ValidSharedKey, ChangesGroup, ChangesKey, ChangesValue;
    OverlayExactly(AtHeight(NEW_LEDGER, b.height), b.changes);
  }

  /** A group that lists one participant twice cannot be joined. */
  lemma DoubledMemberIsRefused(env: Env, b: Block, a: Participant)
    requires b.changes == [SetGroupState(GroupState([a, a], {}))]
    ensures CreateFromBlock(env, b) == None
  {
    var gs := GroupState([a, a], {});
    JoinableExactly(env, b);
    assert LastGroup(b.changes) == Some(gs);
    assert gs.participants[0].userId == gs.participants[1].userId;
  }
}
