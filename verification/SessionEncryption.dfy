/** The packet layer of a session: sequence numbers, active epochs and what was seen of whom. */
module SessionEncryption {
  import opened Common
  import opened Crypto
  import opened ChainSpec
  import opened MessageEncryption
  import opened Epochs
  import opened Packets
  import opened ReplayWindow

  class SessionEncryption {
    const p: Primitives
    const selfUserId: int64
    const privateKey: Bytes32

    var seqno: map<int, uint32>
    var epochs: map<int, EpochInfo>
    var epochByHash: map<Bytes32, int>
    var epochsToForget: seq<(int, int)>
    var seen: map<(Bytes32, int), set<uint32>>

    ghost function Table(): Epochs
      reads this
    {
      Epochs(epochs, epochByHash, epochsToForget)
    }

    function SeenAt(sender: Bytes32, channel: int): set<uint32>
      reads this
    {
      if (sender, channel) in seen then seen[(sender, channel)] else {}
    }

    function LastSeqno(channel: int): uint32
      reads this
    {
      if channel in seqno then seqno[channel] else 0
    }

    /** In every active epoch the member itself is a participant; no set of seen numbers outgrows the window. */
    ghost predicate Valid()
      reads this
    {
      && (forall k :: k in epochs ==> Belongs(epochs[k].groupState, selfUserId, p.publicKey(privateKey)))
      && (forall k :: k in seen ==> |seen[k]| <= WINDOW)
    }

    constructor (p: Primitives, selfUserId: int64, privateKey: Bytes32)
      ensures Valid() && Table() == NO_EPOCHS
      ensures this.p == p && this.selfUserId == selfUserId && this.privateKey == privateKey
      ensures forall c :: LastSeqno(c) == 0
      ensures forall s, c :: SeenAt(s, c) == {}
    {
      this.p, this.selfUserId, this.privateKey := p, selfUserId, privateKey;
      seqno, epochs, epochByHash, epochsToForget, seen := map[], map[], map[], [], map[];
    }

    // -------------------------------------------------------------- epochs

    method Sync(now: int)
      requires Valid()
      modifies this`epochs, this`epochByHash, this`epochsToForget
      ensures Valid() && Table() == Synced(old(Table()), now)
    {
      hide Belongs;
      while epochsToForget != [] && (epochsToForget[0].0 <= now || |epochs| > MAX_ACTIVE)
        invariant Valid() && Synced(Table(), now) == Synced(old(Table()), now)
        decreases |epochsToForget|
      {
        var epoch := epochsToForget[0].1;
        if epoch in epochs {
          epochByHash := epochByHash - {epochs[epoch].hash};
          epochs := epochs - {epoch};
        }
        epochsToForget := epochsToForget[1..];
      }
    }

    method ForgetSharedKey(epoch: int, t1: int, t2: int)
      requires Valid()
      modifies this`epochs, this`epochByHash, this`epochsToForget
      ensures Valid() && Table() == Superseded(Synced(old(Table()), t1), t2, epoch)
    {
      Sync(t1);
      epochsToForget := epochsToForget + [(t2 + FORGET_DELAY, epoch)];
    }

    /** Enters an epoch, if the member finds itself in its group. */
    method AddSharedKey(epoch: int, hash: Bytes32, secret: Binary, groupState: GroupState, now: int) returns (added: bool)
      requires Valid()
      modifies this`epochs, this`epochByHash, this`epochsToForget
      ensures Valid()
      ensures added == Belongs(groupState, selfUserId, p.publicKey(privateKey))
      ensures Table() == var s := Synced(old(Table()), now);
                         if added then Entered(s, EpochInfo(epoch, hash, selfUserId, secret, groupState)) else s
    {
      Sync(now);
      var self := FindByKey(groupState.participants, p.publicKey(privateKey));
      if self.None? || self.value.userId != selfUserId {
        return false;
      }
      epochByHash := epochByHash[hash := epoch];
      epochs := epochs[epoch := EpochInfo(epoch, hash, self.value.userId, secret, groupState)];
      return true;
    }

    // -------------------------------------------------------------- replay protection

    method CheckNotSeen(sender: Bytes32, channel: int, q: uint32) returns (unseen: bool)
      requires Valid()
      modifies this`seen
      ensures Valid() && unseen == NotSeen(old(SeenAt(sender, channel)), q)
      ensures forall s, c :: SeenAt(s, c) == old(SeenAt(s, c))
    {
      if (sender, channel) !in seen {
        seen := seen[(sender, channel) := {}];
      }
      var s := seen[(sender, channel)];
      if s == {} {
        return true;
      }
      if q < Min(s) {
        return false;
      }
      return q !in s;
    }

    method RememberSeen(sender: Bytes32, channel: int, q: uint32)
      requires Valid()
      modifies this`seen
      ensures Valid() && SeenAt(sender, channel) == Trim(old(SeenAt(sender, channel)) + {q}, q)
      ensures forall s, c :: (s, c) != (sender, channel) ==> SeenAt(s, c) == old(SeenAt(s, c))
    {
      var kept := MarkAsSeen(SeenAt(sender, channel), q);
      seen := seen[(sender, channel) := kept];
    }

    // -------------------------------------------------------------- packets

    /** Takes the next sequence number of the channel and seals under it; refuses once the numbers are used up. */
    method EncryptPacketWithSecret(channel: int32, part: Binary, packet: Binary, oneTime: Bytes32, random: nat -> byte)
      returns (r: Option<Binary>)
      requires Valid()
      modifies this`seqno
      ensures Valid()
      ensures var q := old(LastSeqno(channel));
              if !ValidChannel(channel) || q == TWO_TO_THE_32 - 1 then r.None? && forall c :: LastSeqno(c) == old(LastSeqno(c))
              else
                && r == Some(SealInner(p, privateKey, channel, q + 1, part, packet, oneTime, random))
                && LastSeqno(channel) == q + 1
                && forall c :: c != channel ==> LastSeqno(c) == old(LastSeqno(c))
    {
      if !ValidChannel(channel) {
        return None;
      }
      if channel !in seqno {
        seqno := seqno[channel := 0];
      }
      if seqno[channel] == TWO_TO_THE_32 - 1 {
        return None;
      }
      seqno := seqno[channel := seqno[channel] + 1];
      var extra := Magic(CALL_PACKET_MAGIC) + part;
      var (encrypted, id) := EncryptData(p, Payload(channel, seqno[channel], packet), oneTime, extra, random);
      var signature := p.sign(privateKey, Magic(LARGE_MESSAGE_ID_MAGIC) + id);
      return Some(encrypted + signature);
    }

    method Encrypt(channel: int32, data: Binary, prefixLength: nat, now: int, oneTime: Bytes32, random: nat -> byte)
      returns (r: Option<Binary>)
      requires Valid()
      modifies this`epochs, this`epochByHash, this`epochsToForget, this`seqno
      ensures Valid() && Table() == Synced(old(Table()), now)
      ensures var q := old(LastSeqno(channel));
              if || prefixLength > |data| || prefixLength >= PREFIX_LIMIT || epochs == map[]
                 || !ValidChannel(channel) || q == TWO_TO_THE_32 - 1 then
                r.None? && forall c :: LastSeqno(c) == old(LastSeqno(c))
              else
                && r == Seal(p, privateKey, Active(epochs), channel, q + 1, data, prefixLength, oneTime, random)
                && LastSeqno(channel) == q + 1
                && forall c :: c != channel ==> LastSeqno(c) == old(LastSeqno(c))
    {
      hide SealInner, EncryptHeader, Synced, Belongs, Active, LittleEndian;
      Sync(now);
      if prefixLength > |data| || prefixLength >= PREFIX_LIMIT || epochs == map[] {
        return None;
      }
      var prefix, rest := data[..prefixLength], data[prefixLength..];
      var infos := Active(epochs);
      var headerA := ListHashes(infos);
      var inner := EncryptPacketWithSecret(channel, headerA + prefix, rest, oneTime, random);
      if inner.None? {
        return None;
      }
      var headerB := ListHeaders(infos, oneTime, inner.value);
      if headerB.None? {
        return None;
      }
      return Some(prefix + headerA + headerB.value + inner.value + LittleEndian(prefixLength, 4));
    }

    method ListHashes(infos: seq<EpochInfo>) returns (header: Binary)
      ensures header == HeaderA(infos)
    {
      header := LittleEndian(|infos|, 4);
      for i := 0 to |infos|
        invariant header == LittleEndian(|infos|, 4) + Hashes(infos[..i])
      {
        assert infos[..i + 1][..i] == infos[..i];
        header := header + infos[i].hash;
      }
      assert infos[..|infos|] == infos;
    }

    method ListHeaders(infos: seq<EpochInfo>, oneTime: Bytes32, inner: Binary) returns (header: Option<Binary>)
      ensures header == HeaderB(p, infos, oneTime, inner)
    {
      var all: Binary := [];
      for i := 0 to |infos|
        invariant HeaderB(p, infos[..i], oneTime, inner) == Some(all)
      {
        assert infos[..i + 1][..i] == infos[..i];
        var one := EncryptHeader(p, oneTime, inner, infos[i].secret);
        if one.None? || |one.value| != 32 {
          NoneStaysNone(p, infos, i + 1, oneTime, inner);
          return None;
        }
        all := all + one.value;
      }
      assert infos[..|infos|] == infos;
      return Some(all);
    }

    /** Opens a packet once; a second copy, and anything older than what is remembered, is refused. */
    method Decrypt(userId: int64, packet: Binary, now: int) returns (r: Option<Binary>)
      requires Valid()
      modifies this`epochs, this`epochByHash, this`epochsToForget, this`seen
      ensures Valid() && Table() == Synced(old(Table()), now)
      ensures Receives(Open(p, Table(), selfUserId, userId, packet), r)
      ensures r.Some? ==>
                && userId != selfUserId && Parse(packet).Some?
                && exists o :: Attributed(p, Table(), userId, Parse(packet).value, o) && o.data == r.value
    {
      r := OpenAny(userId, packet, now);
      if r.Some? {
        OpenedIsSigned(p, Table(), selfUserId, userId, packet, Open(p, Table(), selfUserId, userId, packet).value);
      }
    }

    /** Tries the listed epochs in order. */
    method OpenAny(userId: int64, packet: Binary, now: int) returns (r: Option<Binary>)
      requires Valid()
      modifies this`epochs, this`epochByHash, this`epochsToForget, this`seen
      ensures Valid() && Table() == Synced(old(Table()), now)
      ensures Receives(Open(p, Table(), selfUserId, userId, packet), r)
    {
      hide OpenInner, Parse, Synced, Belongs, DecryptHeader, NotSeen, Trim, SentBy;
      Sync(now);
      var parsed := Parse(packet);
      if parsed.None? || userId == selfUserId {
        return None;
      }
      var q := parsed.value;
      var i := 0;
      while i < q.count
        invariant 0 <= i <= q.count
        invariant Open(p, Table(), selfUserId, userId, packet) == OpenFrom(p, Table(), userId, q, i)
      {
        var hash := q.ListedHash(i);
        if hash in epochByHash && epochByHash[hash] in epochs {
          var info := epochs[epochByHash[hash]];
          var oneTime := DecryptHeader(p, q.ListedHeader(i), q.inner, info.secret);
          if oneTime.Some? {
            r := DecryptPacketWithSecret(userId, q.HeaderPart(), q.prefix, q.inner, oneTime.value, info.groupState);
            return;
          }
        }
        i := i + 1;
      }
      return None;
    }

    /** What becomes of an opened packet, and of the numbers seen. */
    twostate predicate Receives(new o: Option<Opened>, new r: Option<Binary>)
      reads this
    {
      if o.Some? && NotSeen(old(SeenAt(o.value.sender, o.value.channel)), o.value.seqno) then
        && r == Some(o.value.data)
        && SeenAt(o.value.sender, o.value.channel)
        == Trim(old(SeenAt(o.value.sender, o.value.channel)) + {o.value.seqno}, o.value.seqno)
        && forall s, c :: (s, c) != (o.value.sender, o.value.channel) ==> SeenAt(s, c) == old(SeenAt(s, c))
      else
        r == None && forall s, c :: SeenAt(s, c) == old(SeenAt(s, c))
    }

    method DecryptPacketWithSecret(userId: int64, header: Binary, prefix: Binary, inner: Binary, oneTime: Binary, gs: GroupState)
      returns (r: Option<Binary>)
      requires Valid()
      modifies this`seen
      ensures Valid() && Receives(OpenInner(p, userId, header, prefix, inner, oneTime, gs), r)
      ensures r.Some? ==> exists o :: SentBy(p, gs, userId, o, header, prefix, inner) && o.data == r.value
    {
      hide NotSeen, Trim, OpenInner;
      var o := OpenInner(p, userId, header, prefix, inner, oneTime, gs);
      if o.None? {
        return None;
      }
      var unseen := CheckNotSeen(o.value.sender, o.value.channel, o.value.seqno);
      if !unseen {
        return None;
      }
      RememberSeen(o.value.sender, o.value.channel, o.value.seqno);
      OpenedInnerIsSigned(p, userId, header, prefix, inner, oneTime, gs, o.value);
      return Some(o.value.data);
    }
  }

  // ---------------------------------------------------------------- between two members

  lemma OwnIdIsFound(gs: GroupState, userId: int64, publicKey: Bytes32)
    requires Belongs(gs, userId, publicKey) && DistinctIds(gs.participants)
    ensures FindById(gs.participants, userId).Some? && FindById(gs.participants, userId).value.publicKey == publicKey
  {
    var ps := gs.participants;
    var me, found := FindByKey(ps, publicKey).value, FindById(ps, userId);
    assert me in ps && me.userId == userId;
    var i :| 0 <= i < |ps| && ps[i] == me;
    var j :| 0 <= j < |ps| && ps[j] == found.value;
    assert ps[i].userId == ps[j].userId;
  }

  /** Where both know an epoch they know it alike. */
  ghost predicate KnownAlike(table: map<int, EpochInfo>, e: Epochs) {
    forall k :: k in table && Lookup(e, table[k].hash).Some? ==>
      var known := Lookup(e, table[k].hash).value;
      && known.secret == table[k].secret && known.groupState == table[k].groupState
      && DistinctIds(known.groupState.participants)
  }

  /** The receiver finds the sender in the matched epoch because the sender entered only epochs it belongs to. */
  lemma AlikeMeansAgreed(sender: SessionEncryption, e: Epochs)
    requires sender.Valid() && KnownAlike(sender.epochs, e)
    ensures Agrees(Active(sender.epochs), e, sender.selfUserId, sender.p.publicKey(sender.privateKey))
  {
    hide Belongs;
    var infos := Active(sender.epochs);
    forall i | 0 <= i < |infos| && Lookup(e, infos[i].hash).Some?
      ensures Knows(Lookup(e, infos[i].hash).value, infos[i].secret, sender.selfUserId, sender.p.publicKey(sender.privateKey))
    {
      var k :| k in sender.epochs && infos[i] == sender.epochs[k];
      OwnIdIsFound(infos[i].groupState, sender.selfUserId, sender.p.publicKey(sender.privateKey));
    }
  }

  lemma StillAlike(table: map<int, EpochInfo>, e: Epochs, now: int)
    requires KnownAlike(table, e)
    ensures KnownAlike(table, Synced(e, now))
  {
    SyncOnlyForgets(e, now);
  }

  /** The group key of the next block replaces that of the previous one. */
  method UpdateGroupSharedKey(x: SessionEncryption, height: int, hash: Bytes32, secret: Binary, gs: GroupState,
                              t1: int, t2: int, t3: int)
    returns (done: bool)
    requires x.Valid()
    modifies x`epochs, x`epochByHash, x`epochsToForget
    ensures x.Valid() && done == Belongs(gs, x.selfUserId, x.p.publicKey(x.privateKey))
    ensures done ==> x.Table() == Rekeyed(old(x.Table()), t1, t2, t3, EpochInfo(height, hash, x.selfUserId, secret, gs))
  {
    x.ForgetSharedKey(height - 1, t1, t2);
    done := x.AddSharedKey(height, hash, secret, gs, t3);
  }

  /** One member sends, another receives, and receives the copy again: the data arrives once. */
  method SendAndReceiveTwice(a: SessionEncryption, b: SessionEncryption, channel: int32, data: Binary, prefixLength: nat,
                             oneTime: Bytes32, random: nat -> byte, sent: int, received: int, again: int,
                             ghost newest: int, ghost clock: int)
    returns (first: Option<Binary>, second: Option<Binary>)
    requires a != b && a.Valid() && b.Valid() && a.p == b.p && SignaturesVerify(a.p) && CbcInverts(a.p)
    requires a.selfUserId != b.selfUserId
    requires ValidChannel(channel) && prefixLength <= |data| && prefixLength < PREFIX_LIMIT
    requires a.LastSeqno(channel) < TWO_TO_THE_32 - 1
    requires Tidy(a.Table(), newest, clock) && clock <= sent
    requires var table, e := Synced(a.Table(), sent).table, Synced(b.Table(), received);
             KnownAlike(table, e) && Shares(Active(table), e)
    requires NotSeen(b.SeenAt(a.p.publicKey(a.privateKey), channel), a.LastSeqno(channel) + 1)
    modifies a, b
    ensures first == Some(data)
    ensures old(a.LastSeqno(channel)) < LAST_SAFE ==> second == None
  {
    hide Open, Seal, Synced, Trim, NotSeen, Belongs, Active, Shares, KnownAlike, Agrees, Tidy, Attributed;
    ghost var q, e, sender := a.LastSeqno(channel) + 1, Synced(b.Table(), received), a.p.publicKey(a.privateKey);
    ghost var kept := b.SeenAt(sender, channel);
    SyncKeepsTidy(a.Table(), newest, clock, sent);
    var packet := a.Encrypt(channel, data, prefixLength, sent, oneTime, random);
    SharedIsThere(a.epochs, e);
    AlikeMeansAgreed(a, e);
    PacketRoundTrip(a.p, a.privateKey, Active(a.epochs), channel, q, data, prefixLength, oneTime, random, e,
                    b.selfUserId, a.selfUserId);
    first := b.Decrypt(a.selfUserId, packet.value, received);
    assert b.SeenAt(sender, channel) == Trim(kept + {q}, q);
    StillAlike(a.epochs, e, again);
    AlikeMeansAgreed(a, Synced(e, again));
    PacketRoundTrip(a.p, a.privateKey, Active(a.epochs), channel, q, data, prefixLength, oneTime, random, Synced(e, again),
                    b.selfUserId, a.selfUserId);
    ReplayedAtOnceExactly(kept, q);
    second := b.Decrypt(a.selfUserId, packet.value, again);
  }

  lemma SharedIsThere(table: map<int, EpochInfo>, e: Epochs)
    requires Shares(Active(table), e)
    ensures table != map[]
  {
  }

  lemma {:induction false} NoneStaysNone(p: Primitives, infos: seq<EpochInfo>, i: nat, oneTime: Bytes32, inner: Binary)
    requires i <= |infos| && HeaderB(p, infos[..i], oneTime, inner).None?
    ensures HeaderB(p, infos, oneTime, inner).None?
    decreases |infos|
  {
    if i < |infos| {
      assert infos[..|infos| - 1][..i] == infos[..i];
      NoneStaysNone(p, infos[..|infos| - 1], i, oneTime, inner);
    } else {
      assert infos[..i] == infos;
    }
  }
}
