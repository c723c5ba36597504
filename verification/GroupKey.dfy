/** Distributing a group key to the participants of a new state, and recovering it. */
module GroupKey {
  import opened Common
  import opened Crypto
  import opened MessageEncryption
  import opened ChainSpec

  /** What the sender draws at random for one change of the group. */
  datatype KeyMaterial = KeyMaterial(
    ephemeral: Bytes32, groupKey: Bytes32, oneTimeSecret: Bytes32, random: nat -> byte)

  function EncryptedGroupKey(p: Primitives, m: KeyMaterial): (r: Binary)
    ensures |r| >= 16
  {
    EncryptData(p, m.groupKey, m.oneTimeSecret, [], m.random).0
  }

  /** The one-time secret encrypted for the holder of a public key. */
  function HeaderFor(p: Primitives, m: KeyMaterial, recipient: Bytes32): Binary {
    EncryptHeader(p, m.oneTimeSecret, EncryptedGroupKey(p, m), p.sharedSecret(m.ephemeral, recipient)).value
  }

  function SharedKeyFor(p: Primitives, ps: seq<Participant>, m: KeyMaterial): SharedKey {
    SharedKey(
      p.publicKey(m.ephemeral),
      EncryptedGroupKey(p, m),
      seq(|ps|, i requires 0 <= i < |ps| => ps[i].userId),
      seq(|ps|, i requires 0 <= i < |ps| => HeaderFor(p, m, ps[i].publicKey)))
  }

  function ChangesForNewState(p: Primitives, gs: GroupState, m: KeyMaterial): seq<Change> {
    [SetGroupState(gs), SetSharedKey(SharedKeyFor(p, gs.participants, m))]
  }

  method MakeChangesForNewState(p: Primitives, gs: GroupState, m: KeyMaterial) returns (changes: seq<Change>)
    ensures changes == ChangesForNewState(p, gs, m)
  {
    var encrypted := EncryptData(p, m.groupKey, m.oneTimeSecret, [], m.random).0;
    var ids, headers := [], [];
    for i := 0 to |gs.participants|
      invariant |ids| == |headers| == i
      invariant forall j :: 0 <= j < i ==> ids[j] == gs.participants[j].userId
      invariant forall j :: 0 <= j < i ==> headers[j] == HeaderFor(p, m, gs.participants[j].publicKey)
    {
      var participant := gs.participants[i];
      var secret := p.sharedSecret(m.ephemeral, participant.publicKey);
      var header := EncryptHeader(p, m.oneTimeSecret, encrypted, secret);
      if header.None? {
        return [];
      }
      ids := ids + [participant.userId];
      headers := headers + [header.value];
    }
    var key := SharedKey(p.publicKey(m.ephemeral), encrypted, ids, headers);
    assert key == SharedKeyFor(p, gs.participants, m);
    changes := [SetGroupState(gs), SetSharedKey(key)];
  }

  // ---------------------------------------------------------------- recovery

  /** The first position a user id is listed at. */
  function PositionOf(ids: seq<int64>, userId: int64): (r: Option<nat>)
    ensures r.Some? ==> r.value < |ids| && ids[r.value] == userId && userId !in ids[..r.value]
    ensures r.None? ==> userId !in ids
  {
    if ids == [] then None
    else if ids[0] == userId then Some(0)
    else
      var rest := PositionOf(ids[1..], userId);
      if rest.None? then None
      else
        assert ids[..rest.value + 1] == [ids[0]] + ids[1..][..rest.value];
        Some(rest.value + 1)
  }

  lemma {:induction false} PositionIsFirst(ids: seq<int64>, userId: int64, i: nat)
    requires i < |ids| && ids[i] == userId && userId !in ids[..i]
    ensures PositionOf(ids, userId) == Some(i)
    decreases i
  {
    if i > 0 {
      assert ids[0] in ids[..i];
      assert ids[1..][..i - 1] == ids[..i][1..];
      PositionIsFirst(ids[1..], userId, i - 1);
    }
  }

  function OpenHeader(p: Primitives, k: SharedKey, header: Binary, privateKey: Bytes32): Option<Bytes32> {
    var oneTime := DecryptHeader(p, header, k.encryptedSharedKey, p.sharedSecret(privateKey, k.ek));
    if oneTime.None? then None
    else
      var message := DecryptData(p, k.encryptedSharedKey, oneTime.value, []);
      if message.None? || |message.value.0| != 32 then None else Some(message.value.0)
  }

  function DecryptSharedKey(p: Primitives, k: SharedKey, userId: int64, privateKey: Bytes32): Option<Bytes32>
    requires |k.destUserId| == |k.destHeader|
  {
    var i := PositionOf(k.destUserId, userId);
    if i.None? then None else OpenHeader(p, k, k.destHeader[i.value], privateKey)
  }

  method FindAndDecrypt(p: Primitives, k: SharedKey, userId: int64, privateKey: Bytes32) returns (r: Option<Bytes32>)
    requires |k.destUserId| == |k.destHeader|
    ensures r == DecryptSharedKey(p, k, userId, privateKey)
  {
    for i := 0 to |k.destUserId|
      invariant userId !in k.destUserId[..i]
    {
      if k.destUserId[i] == userId {
        PositionIsFirst(k.destUserId, userId, i);
        var oneTime := DecryptHeader(p, k.destHeader[i], k.encryptedSharedKey, p.sharedSecret(privateKey, k.ek));
        if oneTime.None? {
          return None;
        }
        var message := DecryptData(p, k.encryptedSharedKey, oneTime.value, []);
        if message.None? || |message.value.0| != 32 {
          return None;
        }
        return Some(message.value.0);
      }
    }
    return None;
  }

  // ---------------------------------------------------------------- epoch secrets

  function MinVersion(ps: seq<Participant>): (v: int32)
    requires ps != []
    ensures forall q :: q in ps ==> v <= q.version
    ensures exists q :: q in ps && q.version == v
  {
    if |ps| == 1 then ps[0].version
    else
      var rest := MinVersion(ps[..|ps| - 1]);
      assert forall q :: q in ps <==> q in ps[..|ps| - 1] || q == ps[|ps| - 1];
      if ps[|ps| - 1].version < rest then ps[|ps| - 1].version else rest
  }

  function GroupStateVersion(gs: GroupState): (v: int32)
    ensures 0 <= v <= 255
    ensures gs.participants == [] ==> v == 0
    ensures 0 < v ==> forall q :: q in gs.participants ==> v <= q.version
    ensures gs.participants != [] && v < 255 ==> exists q :: q in gs.participants && q.version <= v
  {
    if gs.participants == [] then 0
    else
      var v := MinVersion(gs.participants);
      if v < 0 then 0 else if v > 255 then 255 else v
  }

  /** What a member ends up encrypting packets with: the recovered secret, rehashed with the block hash from version 1 on. */
  function EpochSecret(p: Primitives, c: Chain, userId: int64, privateKey: Bytes32): Option<Binary>
    requires |c.ledger.sharedKey.destUserId| == |c.ledger.sharedKey.destHeader|
  {
    var me := FindByKey(c.ledger.groupState.participants, p.publicKey(privateKey));
    if me.None? || me.value.userId != userId then None
    else
      var secret := DecryptSharedKey(p, c.ledger.sharedKey, userId, privateKey);
      if secret.None? then None
      else if GroupStateVersion(c.ledger.groupState) >= 1 then Some(p.hmacSha512(secret.value, c.lastHash)[..32])
      else Some(secret.value)
  }

  // ---------------------------------------------------------------- theorems

  lemma MemberRecoversGroupKey(p: Primitives, ps: seq<Participant>, m: KeyMaterial, i: nat, privateKey: Bytes32)
    requires CbcInverts(p) && SecretsAgree(p) && DistinctIds(ps)
    requires i < |ps| && ps[i].publicKey == p.publicKey(privateKey)
    ensures DecryptSharedKey(p, SharedKeyFor(p, ps, m), ps[i].userId, privateKey) == Some(m.groupKey)
  {
    var k := SharedKeyFor(p, ps, m);
    assert k.destUserId[i] == ps[i].userId;
    var first := PositionOf(k.destUserId, ps[i].userId).value;
    assert first == i by {
      assert ps[first].userId == ps[i].userId;
    }
    assert p.sharedSecret(m.ephemeral, ps[i].publicKey) == p.sharedSecret(privateKey, k.ek);
    HeaderRoundTrip(p, m.oneTimeSecret, k.encryptedSharedKey, p.sharedSecret(privateKey, k.ek));
    DataRoundTrip(p, m.groupKey, m.oneTimeSecret, [], m.random);
  }

  lemma FindByKeyIsUnique(ps: seq<Participant>, i: nat)
    requires DistinctKeys(ps) && i < |ps|
    ensures FindByKey(ps, ps[i].publicKey) == Some(ps[i])
  {
    var found := FindByKey(ps, ps[i].publicKey);
    assert ps[i] in ps;
    var j :| 0 <= j < |ps| && ps[j] == found.value;
    assert i == j;
  }

  /** All participants of a group whose key was made for it end up with the same epoch secret. */
  lemma MembersShareEpochSecret(p: Primitives, c: Chain, m: KeyMaterial, i: nat, j: nat, keyI: Bytes32, keyJ: Bytes32)
    requires CbcInverts(p) && SecretsAgree(p) && ValidGroupState(c.ledger.groupState)
    requires c.ledger.sharedKey == SharedKeyFor(p, c.ledger.groupState.participants, m)
    requires var ps := c.ledger.groupState.participants;
             && i < |ps| && j < |ps|
             && ps[i].publicKey == p.publicKey(keyI) && ps[j].publicKey == p.publicKey(keyJ)
    ensures var ps := c.ledger.groupState.participants;
            && EpochSecret(p, c, ps[i].userId, keyI).Some?
            && EpochSecret(p, c, ps[i].userId, keyI) == EpochSecret(p, c, ps[j].userId, keyJ)
  {
    var ps := c.ledger.groupState.participants;
    MemberRecoversGroupKey(p, ps, m, i, keyI);
    MemberRecoversGroupKey(p, ps, m, j, keyJ);
    FindByKeyIsUnique(ps, i);
    FindByKeyIsUnique(ps, j);
  }

  /** A freshly made key always fits the group it was made for. */
  lemma FreshKeyIsValid(p: Primitives, gs: GroupState, m: KeyMaterial)
    requires DistinctIds(gs.participants)
    ensures ValidSharedKey(SharedKeyFor(p, gs.participants, m), gs)
  {
    var k := SharedKeyFor(p, gs.participants, m);
    forall q | q in gs.participants ensures q.userId in k.destUserId {
      var i :| 0 <= i < |gs.participants| && gs.participants[i] == q;
      assert k.destUserId[i] == q.userId;
    }
  }

  /** That secret is the group key, hashed with the hash of the block once every participant is at version 1 or later. */
  lemma EpochSecretExactly(p: Primitives, c: Chain, m: KeyMaterial, i: nat, key: Bytes32)
    requires CbcInverts(p) && SecretsAgree(p) && ValidGroupState(c.ledger.groupState)
    requires c.ledger.sharedKey == SharedKeyFor(p, c.ledger.groupState.participants, m)
    requires i < |c.ledger.groupState.participants| && c.ledger.groupState.participants[i].publicKey == p.publicKey(key)
    ensures var ps := c.ledger.groupState.participants;
            EpochSecret(p, c, ps[i].userId, key) ==
            Some(if forall q :: q in ps ==> 1 <= q.version then p.hmacSha512(m.groupKey, c.lastHash)[..32] else m.groupKey)
  {
    var ps := c.ledger.groupState.participants;
    MemberRecoversGroupKey(p, ps, m, i, key);
    FindByKeyIsUnique(ps, i);
    assert ps[i] in ps;
  }
}
