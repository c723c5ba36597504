/** How a media packet is framed, sealed and signed, and how it is opened again. */
module Packets {
  import opened Common
  import opened Crypto
  import opened ChainSpec
  import opened MessageEncryption
  import opened Epochs

  const CALL_PACKET_MAGIC: int32 := 0x40a6bee9
  const LARGE_MESSAGE_ID_MAGIC: int32 := 0x1ce56c2d
  const PREFIX_LIMIT := 65536

  function Magic(id: int32): Binary { LittleEndian(ToUInt32(id), 4) }

  predicate ValidChannel(channel: int) { 0 <= channel <= 1023 }

  // ---------------------------------------------------------------- sealing

  /** The active epochs in the order of their table. */
  function Active(table: map<int, EpochInfo>): (infos: seq<EpochInfo>)
    ensures |infos| == |table|
    ensures forall i :: 0 <= i < |infos| ==> exists k :: k in table && infos[i] == table[k]
    ensures forall k :: k in table ==> table[k] in infos
  {
    AscendingListsAll(table.Keys);
    var keys := Ascending(table.Keys);
    var infos := seq(|keys|, i requires 0 <= i < |keys| => assert keys[i] in table.Keys; table[keys[i]]);
    assert forall i :: 0 <= i < |keys| ==> infos[i] == table[keys[i]];
    infos
  }

  /** They are listed by epoch, oldest first. */
  lemma ActiveIsAscending(table: map<int, EpochInfo>, i: nat, j: nat)
    requires forall k :: k in table ==> table[k].epoch == k
    requires i < j < |table|
    ensures Active(table)[i].epoch < Active(table)[j].epoch
  {
    AscendingListsAll(table.Keys);
    var keys := Ascending(table.Keys);
    assert keys[i] in table.Keys && keys[j] in table.Keys;
    assert Active(table)[i] == table[keys[i]] && Active(table)[j] == table[keys[j]];
  }

  function Hashes(infos: seq<EpochInfo>): Binary {
    if infos == [] then [] else Hashes(infos[..|infos| - 1]) + infos[|infos| - 1].hash
  }

  function HeaderA(infos: seq<EpochInfo>): Binary { LittleEndian(|infos|, 4) + Hashes(infos) }

  /** The one-time secret under the secret of each active epoch. */
  function HeaderB(p: Primitives, infos: seq<EpochInfo>, oneTime: Bytes32, inner: Binary): Option<Binary> {
    if infos == [] then Some([])
    else
      var front := HeaderB(p, infos[..|infos| - 1], oneTime, inner);
      var one := EncryptHeader(p, oneTime, inner, infos[|infos| - 1].secret);
      if front.None? || one.None? || |one.value| != 32 then None else Some(front.value + one.value)
  }

  function Payload(channel: int32, seqno: uint32, packet: Binary): Binary {
    LittleEndian(ToUInt32(channel), 4) + LittleEndian(seqno, 4) + packet
  }

  function SealInner(p: Primitives, privateKey: Bytes32, channel: int32, seqno: uint32, part: Binary, packet: Binary,
                     oneTime: Bytes32, random: nat -> byte): Binary
  {
    var (encrypted, id) := EncryptData(p, Payload(channel, seqno, packet), oneTime, Magic(CALL_PACKET_MAGIC) + part, random);
    encrypted + p.sign(privateKey, Magic(LARGE_MESSAGE_ID_MAGIC) + id)
  }

  function Frame(prefix: Binary, headerA: Binary, headerB: Binary, inner: Binary): Binary {
    prefix + headerA + headerB + inner + LittleEndian(|prefix|, 4)
  }

  function Seal(p: Primitives, privateKey: Bytes32, infos: seq<EpochInfo>, channel: int32, seqno: uint32, data: Binary,
                prefixLength: nat, oneTime: Bytes32, random: nat -> byte): Option<Binary>
    requires prefixLength <= |data|
  {
    var prefix := data[..prefixLength];
    var inner := SealInner(p, privateKey, channel, seqno, HeaderA(infos) + prefix, data[prefixLength..], oneTime, random);
    var headerB := HeaderB(p, infos, oneTime, inner);
    if headerB.None? then None else Some(Frame(prefix, HeaderA(infos), headerB.value, inner))
  }

  // ---------------------------------------------------------------- opening

  /** A packet whose header, decryption and signature are in order; whether it was seen is for the receiver to say. */
  datatype Opened = Opened(sender: Bytes32, channel: int, seqno: uint32, data: Binary)

  datatype Parsed = Parsed(prefix: Binary, count: nat, headers: Binary, inner: Binary) {
    predicate Whole() { |headers| == 4 + 64 * count }

    function HeaderPart(): Binary
      requires Whole()
    {
      headers[..4 + 32 * count]
    }

    function ListedHash(i: nat): Bytes32
      requires Whole() && i < count
    {
      headers[4 + 32 * i..4 + 32 * i + 32]
    }

    function ListedHeader(i: nat): Bytes32
      requires Whole() && i < count
    {
      headers[4 + 32 * count + 32 * i..4 + 32 * count + 32 * i + 32]
    }
  }

  function Read32(s: Binary, at: nat): uint32
    requires at + 4 <= |s|
  {
    assert Pow256(4) == TWO_TO_THE_32;
    FromLittleEndian(s[at..at + 4])
  }

  /** Splits a frame body after its prefix. */
  function ParseBody(prefix: Binary, encrypted: Binary): (r: Option<Parsed>)
    ensures r.Some? ==> r.value.Whole() && r.value.count <= MAX_ACTIVE
  {
    if |encrypted| < 4 then None
    else
      var head := Read32(encrypted, 0);
      var count, version, reserved := head % 256, head / 256 % 256, head / 65536;
      if version != 0 || reserved != 0 || count > MAX_ACTIVE then None
      else if |encrypted| < 4 + 64 * count then None
      else Some(Parsed(prefix, count, encrypted[..4 + 64 * count], encrypted[4 + 64 * count..]))
  }

  function Parse(packet: Binary): (r: Option<Parsed>)
    ensures r.Some? ==> r.value.Whole() && r.value.count <= MAX_ACTIVE
  {
    if |packet| < 4 then None
    else
      var size := Read32(packet, |packet| - 4);
      var body := packet[..|packet| - 4];
      if size > |body| || size >= PREFIX_LIMIT then None
      else
        ParseBody(body[..size], body[size..])
  }

  function Lookup(e: Epochs, hash: Bytes32): Option<EpochInfo> {
    if hash in e.byHash && e.byHash[hash] in e.table then Some(e.table[e.byHash[hash]]) else None
  }

  function OpenInner(p: Primitives, userId: int64, header: Binary, prefix: Binary, inner: Binary, oneTime: Binary,
                     gs: GroupState): Option<Opened>
  {
    var participant := FindById(gs.participants, userId);
    if participant.None? || |inner| < 64 then None
    else
      var n := |inner| - 64;
      var payload := DecryptData(p, inner[..n], oneTime, Magic(CALL_PACKET_MAGIC) + header + prefix);
      if payload.None? then None
      else
        var (content, id) := payload.value;
        if !p.verify(participant.value.publicKey, Magic(LARGE_MESSAGE_ID_MAGIC) + id, inner[n..]) then None
        else if |content| < 8 then None
        else
          var channel := ToInt32(Read32(content, 0));
          if !ValidChannel(channel) then None
          else Some(Opened(participant.value.publicKey, channel, Read32(content, 4), prefix + content[8..]))
  }

  /** The first listed epoch that is known decides. */
  function OpenFrom(p: Primitives, e: Epochs, userId: int64, q: Parsed, i: nat): Option<Opened>
    requires q.Whole() && i <= q.count
    decreases q.count - i
  {
    if i == q.count then None
    else
      var info := Lookup(e, q.ListedHash(i));
      if info.None? then OpenFrom(p, e, userId, q, i + 1)
      else
        var oneTime := DecryptHeader(p, q.ListedHeader(i), q.inner, info.value.secret);
        if oneTime.None? then OpenFrom(p, e, userId, q, i + 1)
        else OpenInner(p, userId, q.HeaderPart(), q.prefix, q.inner, oneTime.value, info.value.groupState)
  }

  function Open(p: Primitives, e: Epochs, selfId: int64, userId: int64, packet: Binary): Option<Opened> {
    var q := Parse(packet);
    if q.None? || userId == selfId then None else OpenFrom(p, e, userId, q.value, 0)
  }

  // ---------------------------------------------------------------- round trip

  lemma SliceOfFront(a: Binary, b: Binary, lo: nat, hi: nat)
    requires lo <= hi <= |a|
    ensures (a + b)[lo..hi] == a[lo..hi]
  {
  }

  lemma SliceOfBack(a: Binary, b: Binary, lo: nat, hi: nat)
    requires lo <= hi <= |b|
    ensures (a + b)[|a| + lo..|a| + hi] == b[lo..hi]
  {
  }

  lemma {:induction false} HashAt(infos: seq<EpochInfo>, i: nat)
    requires i < |infos|
    ensures |Hashes(infos)| == 32 * |infos|
    ensures Hashes(infos)[32 * i..32 * i + 32] == infos[i].hash
    decreases |infos|
  {
    var n := |infos| - 1;
    if n > 0 {
      HashAt(infos[..n], if i < n then i else 0);
    }
    assert |Hashes(infos[..n])| == 32 * n;
    if i < n {
      SliceOfFront(Hashes(infos[..n]), infos[n].hash, 32 * i, 32 * i + 32);
    }
  }

  lemma {:induction false} HeaderAt(p: Primitives, infos: seq<EpochInfo>, oneTime: Bytes32, inner: Binary, i: nat)
    requires CbcInverts(p) && |inner| >= 16 && i < |infos|
    ensures var b := HeaderB(p, infos, oneTime, inner);
            && b.Some? && |b.value| == 32 * |infos|
            && DecryptHeader(p, b.value[32 * i..32 * i + 32], inner, infos[i].secret) == Some(oneTime)
    decreases |infos|
  {
    hide DecryptHeader, EncryptHeader;
    var n := |infos| - 1;
    HeaderRoundTrip(p, oneTime, inner, infos[n].secret);
    if n > 0 {
      HeaderAt(p, infos[..n], oneTime, inner, if i < n then i else 0);
    }
    var front, last := HeaderB(p, infos[..n], oneTime, inner).value, EncryptHeader(p, oneTime, inner, infos[n].secret).value;
    assert |front| == 32 * n;
    assert HeaderB(p, infos, oneTime, inner) == Some(front + last);
    if i < n {
      SliceOfFront(front, last, 32 * i, 32 * i + 32);
    } else {
      assert (front + last)[32 * n..32 * n + 32] == last;
    }
  }

  lemma ReadBack(s: Binary, at: nat, v: uint32)
    requires at + 4 <= |s| && s[at..at + 4] == LittleEndian(v, 4)
    ensures Read32(s, at) == v
  {
    LittleEndianRoundTrip(v, 4);
    assert Pow256(4) == TWO_TO_THE_32;
  }

  lemma SmallHead(count: nat)
    requires count <= MAX_ACTIVE
    ensures count % 256 == count && count / 256 % 256 == 0 && count / 65536 == 0
  {
  }

  lemma BodyParses(prefix: Binary, infos: seq<EpochInfo>, headerB: Binary, inner: Binary)
    requires |infos| <= MAX_ACTIVE && |Hashes(infos)| == 32 * |infos| && |headerB| == 32 * |infos|
    ensures ParseBody(prefix, HeaderA(infos) + headerB + inner)
         == Some(Parsed(prefix, |infos|, HeaderA(infos) + headerB, inner))
  {
    hide LittleEndian, Hashes, FromLittleEndian, Read32;
    var headers := HeaderA(infos) + headerB;
    var encrypted := headers + inner;
    SmallHead(|infos|);
    assert encrypted[0..4] == LittleEndian(|infos|, 4);
    ReadBack(encrypted, 0, |infos|);
    assert encrypted[..|headers|] == headers && encrypted[|headers|..] == inner;
  }

  /** Whatever the sizes, a frame parses into the parts it was made of. */
  lemma FrameParses(prefix: Binary, infos: seq<EpochInfo>, headerB: Binary, inner: Binary)
    requires |prefix| < PREFIX_LIMIT && |infos| <= MAX_ACTIVE
    requires |Hashes(infos)| == 32 * |infos| && |headerB| == 32 * |infos|
    ensures Parse(Frame(prefix, HeaderA(infos), headerB, inner))
         == Some(Parsed(prefix, |infos|, HeaderA(infos) + headerB, inner))
  {
    hide ParseBody, LittleEndian, Hashes, HeaderA;
    var encrypted := HeaderA(infos) + headerB + inner;
    var frame := Frame(prefix, HeaderA(infos), headerB, inner);
    var body := prefix + encrypted;
    assert frame == body + LittleEndian(|prefix|, 4);
    assert frame[|frame| - 4..] == LittleEndian(|prefix|, 4) && frame[..|frame| - 4] == body;
    ReadBack(frame, |frame| - 4, |prefix|);
    assert body[..|prefix|] == prefix && body[|prefix|..] == encrypted;
    BodyParses(prefix, infos, headerB, inner);
  }

  lemma InnerRoundTrip(p: Primitives, privateKey: Bytes32, channel: int32, seqno: uint32, header: Binary, prefix: Binary,
                       packet: Binary, oneTime: Bytes32, random: nat -> byte, userId: int64, gs: GroupState)
    requires SignaturesVerify(p) && CbcInverts(p) && ValidChannel(channel)
    requires FindById(gs.participants, userId).Some?
    requires FindById(gs.participants, userId).value.publicKey == p.publicKey(privateKey)
    ensures var inner := SealInner(p, privateKey, channel, seqno, header + prefix, packet, oneTime, random);
            && |inner| >= 16
            && OpenInner(p, userId, header, prefix, inner, oneTime, gs)
            == Some(Opened(p.publicKey(privateKey), channel, seqno, prefix + packet))
  {
    var content := Payload(channel, seqno, packet);
    var extra := Magic(CALL_PACKET_MAGIC) + (header + prefix);
    var (encrypted, id) := EncryptData(p, content, oneTime, extra, random);
    DataRoundTrip(p, content, oneTime, extra, random);
    EncryptedSize(p, content, oneTime, extra, random);
    var signature := p.sign(privateKey, Magic(LARGE_MESSAGE_ID_MAGIC) + id);
    var inner := encrypted + signature;
    assert inner[..|inner| - 64] == encrypted && inner[|inner| - 64..] == signature;
    assert extra == Magic(CALL_PACKET_MAGIC) + header + prefix;
    assert content[0..4] == LittleEndian(ToUInt32(channel), 4) && content[4..8] == LittleEndian(seqno, 4);
    ReadBack(content, 0, ToUInt32(channel));
    ReadBack(content, 4, seqno);
    assert content[8..] == packet;
  }

  /** Wherever the receiver knows a listed epoch, it knows the same secret and the sender under the sender's key. */
  ghost predicate Agrees(infos: seq<EpochInfo>, e: Epochs, userId: int64, publicKey: Bytes32) {
    forall i :: 0 <= i < |infos| && Lookup(e, infos[i].hash).Some? ==>
      Knows(Lookup(e, infos[i].hash).value, infos[i].secret, userId, publicKey)
  }

  predicate Knows(info: EpochInfo, secret: Binary, userId: int64, publicKey: Bytes32) {
    && info.secret == secret
    && FindById(info.groupState.participants, userId).Some?
    && FindById(info.groupState.participants, userId).value.publicKey == publicKey
  }

  lemma {:induction false} FirstKnownOpens(p: Primitives, e: Epochs, userId: int64, q: Parsed, i: nat, known: nat, r: Opened)
    requires q.Whole() && i <= known < q.count
    requires forall j :: i <= j < q.count ==> Lookup(e, q.ListedHash(j)).Some? ==> OpensAt(p, e, userId, q, j, r)
    requires Lookup(e, q.ListedHash(known)).Some?
    ensures OpenFrom(p, e, userId, q, i) == Some(r)
    decreases known - i
  {
    hide OpenInner, DecryptHeader, Lookup;
    assert Lookup(e, q.ListedHash(i)).Some? ==> OpensAt(p, e, userId, q, i, r);
    if Lookup(e, q.ListedHash(i)).None? {
      FirstKnownOpens(p, e, userId, q, i + 1, known, r);
    }
  }

  predicate OpensAt(p: Primitives, e: Epochs, userId: int64, q: Parsed, j: nat, r: Opened)
    requires q.Whole() && j < q.count
    requires Lookup(e, q.ListedHash(j)).Some?
  {
    var info := Lookup(e, q.ListedHash(j)).value;
    var oneTime := DecryptHeader(p, q.ListedHeader(j), q.inner, info.secret);
    oneTime.Some? && OpenInner(p, userId, q.HeaderPart(), q.prefix, q.inner, oneTime.value, info.groupState) == Some(r)
  }

  lemma {:induction false} NoneKnownOpensNothing(p: Primitives, e: Epochs, userId: int64, q: Parsed, i: nat)
    requires q.Whole() && i <= q.count
    requires forall j :: i <= j < q.count ==> Lookup(e, q.ListedHash(j)).None?
    ensures OpenFrom(p, e, userId, q, i) == None
    decreases q.count - i
  {
    if i < q.count {
      NoneKnownOpensNothing(p, e, userId, q, i + 1);
    }
  }

  ghost predicate Shares(infos: seq<EpochInfo>, e: Epochs) {
    exists i :: 0 <= i < |infos| && Lookup(e, infos[i].hash).Some?
  }

  /**
   * For any member that agrees on the epochs it knows, a packet opens to the data it was made from if one is shared,
   * and not at all otherwise.
   */
  lemma PacketRoundTrip(p: Primitives, privateKey: Bytes32, infos: seq<EpochInfo>, channel: int32, seqno: uint32,
                        data: Binary, prefixLength: nat, oneTime: Bytes32, random: nat -> byte,
                        e: Epochs, selfId: int64, userId: int64)
    requires SignaturesVerify(p) && CbcInverts(p)
    requires |infos| <= MAX_ACTIVE && ValidChannel(channel) && prefixLength <= |data| && prefixLength < PREFIX_LIMIT
    requires userId != selfId && Agrees(infos, e, userId, p.publicKey(privateKey))
    ensures var packet := Seal(p, privateKey, infos, channel, seqno, data, prefixLength, oneTime, random);
            && packet.Some?
            && Open(p, e, selfId, userId, packet.value)
            == if Shares(infos, e) then Some(Opened(p.publicKey(privateKey), channel, seqno, data)) else None
  {
    hide OpenFrom, OpenInner, Parse, SealInner, EncryptHeader, DecryptHeader, EncryptData;
    var prefix, rest := data[..prefixLength], data[prefixLength..];
    assert data == prefix + rest;
    var a := HeaderA(infos);
    var inner := SealInner(p, privateKey, channel, seqno, a + prefix, rest, oneTime, random);
    var r := Opened(p.publicKey(privateKey), channel, seqno, data);
    SealedIsLong(p, privateKey, channel, seqno, a + prefix, rest, oneTime, random);
    HeadersAreWhole(p, infos, oneTime, inner);
    var b := HeaderB(p, infos, oneTime, inner).value;
    FrameParses(prefix, infos, b, inner);
    var q := Parsed(prefix, |infos|, a + b, inner);
    forall j | 0 <= j < |infos|
      ensures q.ListedHash(j) == infos[j].hash
      ensures Lookup(e, infos[j].hash).Some? ==> OpensAt(p, e, userId, q, j, r)
    {
      OpensWhereKnown(p, privateKey, infos, channel, seqno, prefix, rest, oneTime, random, e, userId, j);
    }
    if Shares(infos, e) {
      var known :| 0 <= known < |infos| && Lookup(e, infos[known].hash).Some?;
      FirstKnownOpens(p, e, userId, q, 0, known, r);
    } else {
      assert forall j :: 0 <= j < |infos| ==> Lookup(e, infos[j].hash).None?;
      NoneKnownOpensNothing(p, e, userId, q, 0);
    }
  }

  lemma OpensWhereKnown(p: Primitives, privateKey: Bytes32, infos: seq<EpochInfo>, channel: int32, seqno: uint32, prefix: Binary,
                        rest: Binary, oneTime: Bytes32, random: nat -> byte, e: Epochs, userId: int64, j: nat)
    requires SignaturesVerify(p) && CbcInverts(p) && ValidChannel(channel)
    requires Agrees(infos, e, userId, p.publicKey(privateKey)) && j < |infos|
    ensures var inner := SealInner(p, privateKey, channel, seqno, HeaderA(infos) + prefix, rest, oneTime, random);
            && HeaderB(p, infos, oneTime, inner).Some?
            && var q := Parsed(prefix, |infos|, HeaderA(infos) + HeaderB(p, infos, oneTime, inner).value, inner);
            && q.Whole()
            && q.ListedHash(j) == infos[j].hash
            && (Lookup(e, infos[j].hash).Some? ==>
                  OpensAt(p, e, userId, q, j, Opened(p.publicKey(privateKey), channel, seqno, prefix + rest)))
  {
    hide OpenInner, SealInner, EncryptHeader, DecryptHeader, EncryptData, Hashes, HeaderB, LittleEndian;
    var a := HeaderA(infos);
    var inner := SealInner(p, privateKey, channel, seqno, a + prefix, rest, oneTime, random);
    SealedIsLong(p, privateKey, channel, seqno, a + prefix, rest, oneTime, random);
    BlocksOf(p, infos, oneTime, prefix, inner, j);
    if Lookup(e, infos[j].hash).Some? {
      var gs := Lookup(e, infos[j].hash).value.groupState;
      InnerRoundTrip(p, privateKey, channel, seqno, a, prefix, rest, oneTime, random, userId, gs);
    }
  }

  lemma SealedIsLong(p: Primitives, privateKey: Bytes32, channel: int32, seqno: uint32, part: Binary, packet: Binary,
                     oneTime: Bytes32, random: nat -> byte)
    requires CbcInverts(p)
    ensures |SealInner(p, privateKey, channel, seqno, part, packet, oneTime, random)| >= 112
  {
    EncryptedSize(p, Payload(channel, seqno, packet), oneTime, Magic(CALL_PACKET_MAGIC) + part, random);
  }

  lemma HeadersAreWhole(p: Primitives, infos: seq<EpochInfo>, oneTime: Bytes32, inner: Binary)
    requires CbcInverts(p) && |inner| >= 16
    ensures |Hashes(infos)| == 32 * |infos|
    ensures HeaderB(p, infos, oneTime, inner).Some? && |HeaderB(p, infos, oneTime, inner).value| == 32 * |infos|
  {
    if infos != [] {
      HashAt(infos, 0);
      HeaderAt(p, infos, oneTime, inner, 0);
    }
  }

  /** The j-th hash and the j-th encrypted secret as they lie in the headers. */
  lemma LaidOut(prefix: Binary, count: Binary, h: Binary, b: Binary, inner: Binary, n: nat, j: nat)
    requires |count| == 4 && |h| == 32 * n && |b| == 32 * n && j < n
    ensures var q := Parsed(prefix, n, count + h + b, inner);
            && q.Whole() && q.HeaderPart() == count + h
            && q.ListedHash(j) == h[32 * j..32 * j + 32] && q.ListedHeader(j) == b[32 * j..32 * j + 32]
  {
    var a := count + h;
    SliceOfBack(count, h, 32 * j, 32 * j + 32);
    SliceOfFront(a, b, 4 + 32 * j, 4 + 32 * j + 32);
    SliceOfBack(a, b, 32 * j, 32 * j + 32);
  }

  lemma BlocksOf(p: Primitives, infos: seq<EpochInfo>, oneTime: Bytes32, prefix: Binary, inner: Binary, j: nat)
    requires CbcInverts(p) && |inner| >= 16 && j < |infos|
    ensures HeaderB(p, infos, oneTime, inner).Some?
    ensures var q := Parsed(prefix, |infos|, HeaderA(infos) + HeaderB(p, infos, oneTime, inner).value, inner);
            && q.Whole() && q.HeaderPart() == HeaderA(infos) && q.ListedHash(j) == infos[j].hash
            && DecryptHeader(p, q.ListedHeader(j), inner, infos[j].secret) == Some(oneTime)
  {
    hide DecryptHeader, EncryptHeader, LittleEndian, Hashes, HeaderB;
    HashAt(infos, j);
    HeaderAt(p, infos, oneTime, inner, j);
    var b := HeaderB(p, infos, oneTime, inner).value;
    LaidOut(prefix, LittleEndian(|infos|, 4), Hashes(infos), b, inner, |infos|, j);
  }

  // ---------------------------------------------------------------- who sent what is delivered

  /** The plaintext holds the channel, the number and, after the prefix, the data. */
  predicate Carries(o: Opened, plain: Binary, prefix: Binary) {
    && plain != [] && 16 <= plain[0] <= |plain| - 8
    && o.channel == ToInt32(Read32(plain[plain[0]..], 0)) && o.seqno == Read32(plain[plain[0]..], 4)
    && o.data == prefix + plain[plain[0]..][8..]
  }

  /** The signature at the end is the sender's, over the id of the plaintext and all that goes with it. */
  predicate Signs(p: Primitives, key: Bytes32, inner: Binary, id: Bytes32) {
    |inner| >= 64 && p.verify(key, Magic(LARGE_MESSAGE_ID_MAGIC) + id, inner[|inner| - 64..])
  }

  ghost predicate Vouches(p: Primitives, o: Opened, plain: Binary, header: Binary, prefix: Binary, oneTime: Binary, inner: Binary) {
    && Carries(o, plain, prefix)
    && Signs(p, o.sender, inner, LargeMessageId(p, plain, oneTime, Magic(CALL_PACKET_MAGIC) + header + prefix))
  }

  /** Channel, number and data are what the listed participant signed, for the epochs the packet names. */
  ghost predicate SentBy(p: Primitives, gs: GroupState, userId: int64, o: Opened, header: Binary, prefix: Binary, inner: Binary) {
    && FindById(gs.participants, userId).Some? && o.sender == FindById(gs.participants, userId).value.publicKey
    && ValidChannel(o.channel)
    && exists plain, oneTime :: Vouches(p, o, plain, header, prefix, oneTime, inner)
  }

  lemma OpenedInnerIsSigned(p: Primitives, userId: int64, header: Binary, prefix: Binary, inner: Binary, oneTime: Binary,
                            gs: GroupState, o: Opened)
    requires OpenInner(p, userId, header, prefix, inner, oneTime, gs) == Some(o)
    ensures SentBy(p, gs, userId, o, header, prefix, inner)
    ensures exists id :: Signs(p, o.sender, inner, id)
  {
    hide DecryptData, Read32;
    var extra := Magic(CALL_PACKET_MAGIC) + header + prefix;
    var plain := OpensOnlyUnderItsId(p, inner[..|inner| - 64], oneTime, extra);
    assert Vouches(p, o, plain, header, prefix, oneTime, inner);
  }

  /** The packet lists an epoch the receiver has, in whose group the sender is, and carries what the sender signed. */
  ghost predicate Attributed(p: Primitives, e: Epochs, userId: int64, q: Parsed, o: Opened) {
    q.Whole() && exists j :: 0 <= j < q.count && Lookup(e, q.ListedHash(j)).Some?
                             && SentBy(p, Lookup(e, q.ListedHash(j)).value.groupState, userId, o, q.HeaderPart(), q.prefix, q.inner)
  }

  lemma {:induction false} OpenedFromIsSigned(p: Primitives, e: Epochs, userId: int64, q: Parsed, i: nat, o: Opened)
    requires q.Whole() && i <= q.count && OpenFrom(p, e, userId, q, i) == Some(o)
    ensures Attributed(p, e, userId, q, o)
    decreases q.count - i
  {
    hide OpenInner, DecryptHeader, SentBy;
    var info := Lookup(e, q.ListedHash(i));
    if info.None? || DecryptHeader(p, q.ListedHeader(i), q.inner, info.value.secret).None? {
      OpenedFromIsSigned(p, e, userId, q, i + 1, o);
    } else {
      var oneTime := DecryptHeader(p, q.ListedHeader(i), q.inner, info.value.secret).value;
      OpenedInnerIsSigned(p, userId, q.HeaderPart(), q.prefix, q.inner, oneTime, info.value.groupState, o);
    }
  }

  /** Whatever opens as a member's was signed by the key that member has in an epoch of the receiver, and is not the receiver's own. */
  lemma OpenedIsSigned(p: Primitives, e: Epochs, selfId: int64, userId: int64, packet: Binary, o: Opened)
    requires Open(p, e, selfId, userId, packet) == Some(o)
    ensures userId != selfId && Parse(packet).Some? && Attributed(p, e, userId, Parse(packet).value, o)
  {
    OpenedFromIsSigned(p, e, userId, Parse(packet).value, 0, o);
  }

  /** The signature of the packet is not that of the named member of a group. */
  ghost predicate Foreign(p: Primitives, gs: GroupState, userId: int64, inner: Binary) {
    FindById(gs.participants, userId).Some? ==>
      forall id :: !Signs(p, FindById(gs.participants, userId).value.publicKey, inner, id)
  }

  /** A packet that is signed by another than the named member opens for nobody. */
  lemma ForeignPacketStaysClosed(p: Primitives, e: Epochs, selfId: int64, userId: int64, packet: Binary)
    requires Parse(packet).Some? ==> forall k :: k in e.table ==> Foreign(p, e.table[k].groupState, userId, Parse(packet).value.inner)
    ensures Open(p, e, selfId, userId, packet) == None
  {
    hide OpenFrom, Parse, Read32, Signs;
    if Open(p, e, selfId, userId, packet).Some? {
      var o := Open(p, e, selfId, userId, packet).value;
      OpenedIsSigned(p, e, selfId, userId, packet, o);
      var q := Parse(packet).value;
      var j :| 0 <= j < q.count && Lookup(e, q.ListedHash(j)).Some?
               && SentBy(p, Lookup(e, q.ListedHash(j)).value.groupState, userId, o, q.HeaderPart(), q.prefix, q.inner);
      var k := e.byHash[q.ListedHash(j)];
      assert Foreign(p, e.table[k].groupState, userId, q.inner);
      SentIsNotForeign(p, e.table[k].groupState, userId, o, q.HeaderPart(), q.prefix, q.inner);
    }
  }

  lemma SentIsNotForeign(p: Primitives, gs: GroupState, userId: int64, o: Opened, header: Binary, prefix: Binary, inner: Binary)
    requires SentBy(p, gs, userId, o, header, prefix, inner)
    ensures !Foreign(p, gs, userId, inner)
  {
    var plain, oneTime :| Vouches(p, o, plain, header, prefix, oneTime, inner);
    assert Signs(p, o.sender, inner, LargeMessageId(p, plain, oneTime, Magic(CALL_PACKET_MAGIC) + header + prefix));
  }

  // ---------------------------------------------------------------- which packets are well-formed

  lemma {:induction false} BytesOfTheirValue(s: Binary)
    ensures LittleEndian(FromLittleEndian(s), |s|) == s
  {
    if s != [] {
      var rest := FromLittleEndian(s[1..]);
      BytesOfTheirValue(s[1..]);
      LowestByte(s[0], rest);
      assert FromLittleEndian(s) == s[0] + 256 * rest;
      assert LittleEndian(s[0] + 256 * rest, |s|) == [s[0]] + LittleEndian(rest, |s| - 1);
      assert s == [s[0]] + s[1..];
    }
  }

  lemma LowestByte(b: byte, rest: nat)
    ensures (b + 256 * rest) % 256 == b && (b + 256 * rest) / 256 == rest
  {
  }

  lemma ReadExactly(s: Binary, at: nat, v: uint32)
    requires at + 4 <= |s|
    ensures Read32(s, at) == v <==> s[at..at + 4] == LittleEndian(v, 4)
  {
    BytesOfTheirValue(s[at..at + 4]);
    if s[at..at + 4] == LittleEndian(v, 4) {
      ReadBack(s, at, v);
    }
  }

  /** A count up to fifteen, version zero, nothing reserved, as many hashes and headers, and the size of the prefix at the end. */
  predicate WellFormed(q: Parsed, packet: Binary) {
    && q.Whole() && q.count <= 15 && |q.prefix| < 65536
    && q.headers[..4] == [q.count, 0, 0, 0]
    && packet == q.prefix + (q.headers + q.inner) + LittleEndian(|q.prefix|, 4)
  }

  lemma CountFirst(n: nat)
    requires n <= 15
    ensures LittleEndian(n, 4) == [n, 0, 0, 0]
  {
    assert LittleEndian(0, 3) == [0, 0, 0];
  }

  lemma HeadExactly(head: uint32, count: nat)
    requires count <= 15
    ensures head == count <==> head % 256 == count && head / 256 % 256 == 0 && head / 65536 == 0
  {
  }

  lemma BodyParsedExactly(prefix: Binary, body: Binary, q: Parsed)
    ensures ParseBody(prefix, body) == Some(q) <==>
            q.prefix == prefix && q.Whole() && q.count <= 15 && q.headers[..4] == [q.count, 0, 0, 0] && body == q.headers + q.inner
  {
    hide LittleEndian, FromLittleEndian, Read32;
    if ParseBody(prefix, body) == Some(q) {
      CountFirst(q.count);
      HeadExactly(Read32(body, 0), q.count);
      ReadExactly(body, 0, q.count);
      assert q.headers[..4] == body[0..4];
    }
    if q.prefix == prefix && q.Whole() && q.count <= 15 && q.headers[..4] == [q.count, 0, 0, 0] && body == q.headers + q.inner {
      CountFirst(q.count);
      assert body[0..4] == q.headers[..4];
      ReadExactly(body, 0, q.count);
      HeadExactly(Read32(body, 0), q.count);
      assert body[..|q.headers|] == q.headers && body[|q.headers|..] == q.inner;
    }
  }

  /** A packet parses into some parts exactly if they are well-formed and it is made of them. */
  lemma ParsedExactly(packet: Binary, q: Parsed)
    ensures Parse(packet) == Some(q) <==> WellFormed(q, packet)
  {
    hide ParseBody, LittleEndian, FromLittleEndian, Read32;
    if Parse(packet) == Some(q) {
      var n := |packet| - 4;
      var size := Read32(packet, n);
      ReadExactly(packet, n, size);
      BodyParsedExactly(packet[..n][..size], packet[..n][size..], q);
      assert packet == packet[..n] + packet[n..n + 4];
      assert packet[..n] == packet[..n][..size] + packet[..n][size..];
    }
    if WellFormed(q, packet) {
      var n := |packet| - 4;
      var body := q.headers + q.inner;
      assert packet[n..n + 4] == LittleEndian(|q.prefix|, 4);
      ReadExactly(packet, n, |q.prefix|);
      assert packet[..n] == q.prefix + body;
      assert packet[..n][..|q.prefix|] == q.prefix && packet[..n][|q.prefix|..] == body;
      BodyParsedExactly(q.prefix, body, q);
    }
  }
}
