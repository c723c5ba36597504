/** Group state, permissions, blocks and what it means for a chain to accept a block. */
module ChainSpec {
  import opened Common
  import opened Crypto

  // ---------------------------------------------------------------- permissions

  /** A 32-bit flag word as the set of its one bits: & is intersection, | is union, a & ~b is difference. */
  type Bit = b: int | 0 <= b < 32
  type Flags = set<Bit>

  const ADD_USERS: Bit := 0
  const REMOVE_USERS: Bit := 1
  const SET_VALUE: Bit := 2
  const IS_PARTICIPANT: Bit := 30
  const ALL_PERMISSIONS: Flags := {ADD_USERS, REMOVE_USERS, SET_VALUE}

  predicate MayAddUsers(flags: Flags) { ADD_USERS in flags }

  predicate MayRemoveUsers(flags: Flags) { REMOVE_USERS in flags }

  predicate MayChangeSharedKey(flags: Flags) {
    IS_PARTICIPANT in flags && (MayRemoveUsers(flags) || MayAddUsers(flags))
  }

  // ---------------------------------------------------------------- data

  datatype Participant = Participant(userId: int64, publicKey: Bytes32, addUsers: bool, removeUsers: bool, version: int32) {
    function Rights(): Flags {
      (if addUsers then {ADD_USERS} else {}) + (if removeUsers then {REMOVE_USERS} else {})
    }
  }

  datatype GroupState = GroupState(participants: seq<Participant>, externalPermissions: Flags)

  datatype SharedKey = SharedKey(
    ek: Bytes32, encryptedSharedKey: Binary, destUserId: seq<int64>, destHeader: seq<Binary>)

  datatype Change =
    | Noop(nonce: Bytes32)
    | SetValue(key: Binary, value: Binary)
    | SetGroupState(groupState: GroupState)
    | SetSharedKey(sharedKey: SharedKey)

  datatype StateProof = StateProof(kvHash: Bytes32, groupState: Option<GroupState>, sharedKey: Option<SharedKey>)

  datatype Block = Block(
    signature: Bytes64, prevBlockHash: Bytes32, changes: seq<Change>, height: int32,
    stateProof: StateProof, signaturePublicKey: Option<Bytes32>)

  /** The state a chain carries between blocks, with the marks left by the last block. */
  datatype Ledger = Ledger(
    sharedKey: SharedKey, groupState: GroupState, kvHash: Bytes32,
    hasSetValue: bool, hasSharedKeyChange: bool, hasGroupStateChange: bool)

  datatype Chain = Chain(ledger: Ledger, lastBlock: Block, lastHash: Bytes32)

  /** Undefined: the code would read the first element of an empty participant list. */
  datatype Outcome<+T> = Accepted(value: T) | Rejected | Undefined

  /** The primitives and the boxed block encoding. */
  datatype Env = Env(p: Primitives, encodeBlock: Block -> Binary)

  const TRIE_HASH_LOW: Bytes16 := [
    0xdf, 0x3f, 0x61, 0x98, 0x04, 0xa9, 0x2f, 0xdb, 0x40, 0x57, 0x19, 0x2d, 0xc4, 0x3d, 0xd7, 0x48]
  const TRIE_HASH_HIGH: Bytes16 := [
    0xea, 0x77, 0x8a, 0xdc, 0x52, 0xbc, 0x49, 0x8c, 0xe8, 0x05, 0x24, 0xc0, 0x14, 0xb8, 0x11, 0x19]
  const EMPTY_TRIE_HASH: Bytes32 := TRIE_HASH_LOW + TRIE_HASH_HIGH

  const NO_KEY := SharedKey(Zeros(32), [], [], [])
  const NO_GROUP := GroupState([], {})
  const OPEN_GROUP := GroupState([], ALL_PERMISSIONS)
  const NEW_LEDGER := Ledger(NO_KEY, NO_GROUP, EMPTY_TRIE_HASH, false, false, false)
  const NO_BLOCK := Block(Zeros(64), Zeros(32), [], -1, StateProof(Zeros(32), None, None), None)
  const EMPTY_CHAIN := Chain(NEW_LEDGER, NO_BLOCK, Zeros(32))

  // ---------------------------------------------------------------- participants

  predicate DistinctIds(ps: seq<Participant>) {
    forall i, j :: 0 <= i < j < |ps| ==> ps[i].userId != ps[j].userId
  }

  predicate DistinctKeys(ps: seq<Participant>) {
    forall i, j :: 0 <= i < j < |ps| ==> ps[i].publicKey != ps[j].publicKey
  }

  function FindByKey(ps: seq<Participant>, key: Bytes32): (r: Option<Participant>)
    ensures r.Some? ==> r.value in ps && r.value.publicKey == key
    ensures r.None? ==> forall p :: p in ps ==> p.publicKey != key
  {
    if ps == [] then None
    else if ps[0].publicKey == key then Some(ps[0])
    else FindByKey(ps[1..], key)
  }

  function FindById(ps: seq<Participant>, userId: int64): (r: Option<Participant>)
    ensures r.Some? ==> r.value in ps && r.value.userId == userId
    ensures r.None? ==> forall p :: p in ps ==> p.userId != userId
  {
    if ps == [] then None
    else if ps[0].userId == userId then Some(ps[0])
    else FindById(ps[1..], userId)
  }

  /** Both searches stop at the first match. */
  lemma {:induction false} FirstMatchIsFound(ps: seq<Participant>, i: nat)
    requires i < |ps|
    ensures (forall j :: 0 <= j < i ==> ps[j].publicKey != ps[i].publicKey) ==> FindByKey(ps, ps[i].publicKey) == Some(ps[i])
    ensures (forall j :: 0 <= j < i ==> ps[j].userId != ps[i].userId) ==> FindById(ps, ps[i].userId) == Some(ps[i])
    decreases i
  {
    if i > 0 {
      var rest := ps[1..];
      assert rest[i - 1] == ps[i] && forall j :: 0 <= j < i - 1 ==> rest[j] == ps[j + 1];
      FirstMatchIsFound(rest, i - 1);
    }
  }

  type Member = (int64, Bytes32)

  function MemberOf(p: Participant): Member { (p.userId, p.publicKey) }

  /** The participants as a table from identity to flags; a later duplicate replaces an earlier one. */
  function FlagTable(ps: seq<Participant>): map<Member, Flags> {
    if ps == [] then map[]
    else FlagTable(ps[..|ps| - 1])[MemberOf(ps[|ps| - 1]) := ps[|ps| - 1].Rights()]
  }

  function GetPermissions(gs: GroupState, key: Bytes32, limit: Flags): Flags {
    var found := FindByKey(gs.participants, key);
    if found.Some? then found.value.Rights() * (limit * ALL_PERMISSIONS) + {IS_PARTICIPANT}
    else gs.externalPermissions * (limit * ALL_PERMISSIONS)
  }

  // ---------------------------------------------------------------- validity

  predicate ValidGroupState(gs: GroupState) {
    && (forall p :: p in gs.participants ==> p.Rights() - ALL_PERMISSIONS == {})
    && gs.externalPermissions - ALL_PERMISSIONS == {}
    && DistinctIds(gs.participants)
    && DistinctKeys(gs.participants)
  }

  predicate ValidSharedKey(k: SharedKey, gs: GroupState) {
    k == NO_KEY ||
    (&& |k.destUserId| == |k.destHeader|
     && |k.destUserId| == |gs.participants|
     && (forall i, j :: 0 <= i < j < |k.destUserId| ==> k.destUserId[i] != k.destUserId[j])
     && (forall p :: p in gs.participants ==> p.userId in k.destUserId))
  }

  predicate ValidState(l: Ledger, proof: StateProof) {
    && proof.kvHash == l.kvHash
    && (l.hasGroupStateChange || l.hasSetValue)
    && proof.groupState == (if l.hasGroupStateChange then None else Some(l.groupState))
    && proof.sharedKey == (if l.hasGroupStateChange || l.hasSharedKeyChange then None else Some(l.sharedKey))
    && ValidGroupState(l.groupState)
    && ValidSharedKey(l.sharedKey, l.groupState)
  }

  // ---------------------------------------------------------------- changes

  predicate MemberAllowed(oldFlags: map<Member, Flags>, k: Member, flags: Flags, permissions: Flags) {
    if k !in oldFlags then
      MayAddUsers(permissions) && flags - permissions * ALL_PERMISSIONS == {}
    else
      flags == oldFlags[k] ||
      (&& MayAddUsers(permissions) && MayRemoveUsers(permissions)
       && (flags - oldFlags[k]) - permissions * ALL_PERMISSIONS == {})
  }

  predicate MaySetGroupState(gs: GroupState, gs': GroupState, permissions: Flags) {
    var before, after := FlagTable(gs.participants), FlagTable(gs'.participants);
    && ValidGroupState(gs')
    && gs'.externalPermissions - gs.externalPermissions == {}
    && (forall k :: k in before && k !in after ==> MayRemoveUsers(permissions))
    && (forall k :: k in after ==> MemberAllowed(before, k, after[k], permissions))
  }

  function ApplyChange(l: Ledger, change: Change, signer: Bytes32, limit: Flags): Option<Ledger> {
    match change
    case Noop(_) => Some(l)
    case SetValue(_, _) => Some(l.(hasSetValue := true))
    case SetGroupState(gs) =>
      if && MaySetGroupState(l.groupState, gs, GetPermissions(l.groupState, signer, limit))
         && MayChangeSharedKey(GetPermissions(gs, signer, limit))
      then Some(l.(groupState := gs, sharedKey := NO_KEY, hasGroupStateChange := true))
      else None
    case SetSharedKey(k) =>
      if && l.sharedKey == NO_KEY
         && MayChangeSharedKey(GetPermissions(l.groupState, signer, limit))
         && ValidSharedKey(k, l.groupState)
      then Some(l.(sharedKey := k, hasSharedKeyChange := true))
      else None
  }

  function ApplyChanges(l: Ledger, cs: seq<Change>, signer: Bytes32, limit: Flags): Option<Ledger> {
    if cs == [] then Some(l)
    else
      var before := ApplyChanges(l, cs[..|cs| - 1], signer, limit);
      if before.None? then None else ApplyChange(before.value, cs[|cs| - 1], signer, limit)
  }

  function Unmarked(l: Ledger): Ledger {
    l.(hasSetValue := false, hasSharedKeyChange := false, hasGroupStateChange := false)
  }

  predicate ChangesGroup(cs: seq<Change>) { exists c :: c in cs && c.SetGroupState? }

  predicate ChangesKey(cs: seq<Change>) { exists c :: c in cs && c.SetSharedKey? }

  predicate ChangesValue(cs: seq<Change>) { exists c :: c in cs && c.SetValue? }

  function Marked(l: Ledger, cs: seq<Change>): Ledger {
    l.(hasSetValue := ChangesValue(cs), hasSharedKeyChange := ChangesKey(cs), hasGroupStateChange := ChangesGroup(cs))
  }

  // ---------------------------------------------------------------- blocks

  function DataToSign(env: Env, b: Block): Binary { env.encodeBlock(b.(signature := Zeros(64))) }

  function CalcHash(env: Env, b: Block): Bytes32 {
    if b.height == -1 then Zeros(32) else env.p.sha256(env.encodeBlock(b))
  }

  /** The first block starts from an empty group open to everyone. */
  function AtHeight(l: Ledger, height: int32): Ledger {
    if height == 0 then l.(groupState := OPEN_GROUP) else l
  }

  /** Without an explicit key the first participant signs; a group with nobody and no rights has no signer. */
  function SignerOf(gs: GroupState, explicit: Option<Bytes32>): Outcome<Bytes32> {
    if explicit.Some? then Accepted(explicit.value)
    else if gs == NO_GROUP then Rejected
    else if gs.participants == [] then Undefined
    else Accepted(gs.participants[0].publicKey)
  }

  function ApplyBlock(env: Env, l: Ledger, b: Block, checkSignature: bool, checkStateHash: bool, limit: Flags): Outcome<Ledger> {
    var start := AtHeight(l, b.height);
    match SignerOf(start.groupState, b.signaturePublicKey)
    case Rejected => Rejected
    case Undefined => Undefined
    case Accepted(signer) =>
      if checkSignature && !env.p.verify(signer, DataToSign(env, b), b.signature) then Rejected
      else
        var applied := ApplyChanges(Unmarked(start), b.changes, signer, limit);
        if applied.None? then Rejected
        else
          var l' := if checkStateHash then applied.value else applied.value.(kvHash := b.stateProof.kvHash);
          if ValidState(l', b.stateProof) then Accepted(l') else Rejected
  }

  predicate Follows(c: Chain, b: Block) {
    b.height == c.lastBlock.height + 1 && b.prevBlockHash == c.lastHash
  }

  function TryApply(env: Env, c: Chain, b: Block, checkSignature: bool, checkStateHash: bool): Outcome<Chain> {
    if !Follows(c, b) then Rejected
    else
      match ApplyBlock(env, c.ledger, b, checkSignature, checkStateHash, ALL_PERMISSIONS)
      case Rejected => Rejected
      case Undefined => Undefined
      case Accepted(l) => Accepted(Chain(l, b, CalcHash(env, b)))
  }

  /** What a client does with a block it receives: the signature is checked, the value hash is taken over. */
  function Receive(env: Env, c: Chain, b: Block): Outcome<Chain> { TryApply(env, c, b, true, false) }

  // ---------------------------------------------------------------- building and joining

  function ProofFor(l: Ledger, cs: seq<Change>): StateProof {
    StateProof(
      l.kvHash,
      if ChangesGroup(cs) then None else Some(l.groupState),
      if ChangesGroup(cs) || ChangesKey(cs) then None else Some(l.sharedKey))
  }

  function BuildBlock(env: Env, c: Chain, cs: seq<Change>, key: Bytes32): Option<Block> {
    if c.lastBlock.height == INT32_MAX then None
    else
      var height: int32 := c.lastBlock.height + 1;
      var applied := ApplyChanges(AtHeight(c.ledger, height), cs, env.p.publicKey(key), ALL_PERMISSIONS);
      if applied.None? then None
      else
        var proof := ProofFor(applied.value, cs);
        if !ValidState(Marked(applied.value, cs), proof) then None
        else
          var unsigned := Block(Zeros(64), c.lastHash, cs, height, proof, Some(env.p.publicKey(key)));
          Some(unsigned.(signature := env.p.sign(key, DataToSign(env, unsigned))))
  }

  /** The effect of the changes read without any authorisation. */
  function Overlay(l: Ledger, cs: seq<Change>): Ledger {
    if cs == [] then l
    else
      var m := Overlay(l, cs[..|cs| - 1]);
      match cs[|cs| - 1]
      case Noop(_) => m
      case SetValue(_, _) => m.(hasSetValue := true)
      case SetGroupState(gs) => m.(groupState := gs, sharedKey := NO_KEY, hasGroupStateChange := true)
      case SetSharedKey(k) => m.(sharedKey := k, hasSharedKeyChange := true)
  }

  function SnapshotLedger(b: Block): Ledger {
    var m := Overlay(AtHeight(NEW_LEDGER, b.height), b.changes);
    m.(groupState := if b.stateProof.groupState.Some? then b.stateProof.groupState.value else m.groupState,
       sharedKey := if b.stateProof.sharedKey.Some? then b.stateProof.sharedKey.value else m.sharedKey,
       kvHash := b.stateProof.kvHash)
  }

  function CreateFromBlock(env: Env, b: Block): Option<Chain> {
    if b.height < 0 || !ValidState(SnapshotLedger(b), b.stateProof) then None
    else Some(Chain(SnapshotLedger(b), b, CalcHash(env, b)))
  }

  // ---------------------------------------------------------------- runs

  /** A client that goes on from c; None once any block is not accepted. */
  function Extend(env: Env, c: Option<Chain>, blocks: seq<Block>): Option<Chain> {
    if blocks == [] then c
    else
      var before := Extend(env, c, blocks[..|blocks| - 1]);
      if before.None? then None
      else
        match Receive(env, before.value, blocks[|blocks| - 1])
        case Accepted(c') => Some(c')
        case _ => None
  }

  /** A client that replays a history from the very beginning. */
  function Replay(env: Env, blocks: seq<Block>): Option<Chain> { Extend(env, Some(EMPTY_CHAIN), blocks) }

  lemma {:induction false} ExtendConcat(env: Env, c: Option<Chain>, a: seq<Block>, b: seq<Block>)
    ensures Extend(env, c, a + b) == Extend(env, Extend(env, c, a), b)
    decreases |b|
  {
    if b == [] {
      assert a + b == a;
    } else {
      var front := b[..|b| - 1];
      ExtendConcat(env, c, a, front);
      assert (a + b)[..|a + b| - 1] == a + front;
      assert (a + b)[|a + b| - 1] == b[|b| - 1];
    }
  }

  lemma {:induction false} ReplayHeight(env: Env, blocks: seq<Block>)
    requires Replay(env, blocks).Some?
    ensures Replay(env, blocks).value.lastBlock.height == |blocks| - 1
    ensures blocks != [] ==> Replay(env, blocks).value.lastBlock == blocks[|blocks| - 1]
    decreases |blocks|
  {
    if blocks == [] {
    } else {
      ReplayHeight(env, blocks[..|blocks| - 1]);
    }
  }
}
