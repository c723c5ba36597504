/** The authenticated message format: padding, message id, and the per-recipient header. */
module MessageEncryption {
  import opened Common
  import opened Crypto

  function Ascii(s: string): Binary {
    seq(|s|, i requires 0 <= i < |s| => (s[i] as int) % 256)
  }

  const ENCRYPT_DATA := Ascii("tde2e_encrypt_data")
  const ENCRYPT_HEADER := Ascii("tde2e_encrypt_header")

  function SliceKey(h: Bytes64): Bytes32 { h[..32] }

  function SliceIv(h: Bytes64): Bytes16 { h[32..48] }

  /** The message id binds the plaintext, the associated data and the length of the latter. */
  function LargeMessageId(p: Primitives, plain: Binary, secret: Binary, extra: Binary): Bytes32 {
    p.hmacSha256(p.hmacSha512(secret, ENCRYPT_DATA)[32..], plain + extra + LittleEndian(|extra|, 4))
  }

  /** The CBC key material derived from the secret and the first half of the message id. */
  function DataKeys(p: Primitives, secret: Binary, messageId: Binary): Bytes64 {
    p.hmacSha512(p.hmacSha512(secret, ENCRYPT_DATA)[..32], messageId)
  }

  function EncryptDataWithPrefix(p: Primitives, data: Binary, secret: Binary, extra: Binary): (Binary, Bytes32) {
    var id := LargeMessageId(p, data, secret, extra);
    var keys := DataKeys(p, secret, id[..16]);
    (id[..16] + p.cbcEncrypt(data, SliceKey(keys), SliceIv(keys)), id)
  }

  function PrefixSize(size: nat): (n: nat)
    ensures 16 <= n < 32 && (size + n) % 16 == 0
  {
    (16 + 15 + size) / 16 * 16 - size
  }

  /** Random bytes, the first replaced by how many there are, then the data. */
  function Padded(data: Binary, random: nat -> byte): (r: Binary)
    ensures |r| == PrefixSize(|data|) + |data|
  {
    [PrefixSize(|data|)] + seq(PrefixSize(|data|) - 1, i requires 0 <= i => random(i + 1)) + data
  }

  function EncryptData(p: Primitives, data: Binary, secret: Binary, extra: Binary, random: nat -> byte): (Binary, Bytes32) {
    EncryptDataWithPrefix(p, Padded(data, random), secret, extra)
  }

  /** The data and the large message id. An empty plaintext has no length byte to read and is refused. */
  function DecryptData(p: Primitives, encrypted: Binary, secret: Binary, extra: Binary): Option<(Binary, Bytes32)> {
    if |encrypted| < 16 || |encrypted| % 16 != 0 then None
    else
      var messageId := encrypted[..16];
      var keys := DataKeys(p, secret, messageId);
      var decrypted := p.cbcDecrypt(encrypted[16..], SliceKey(keys), SliceIv(keys));
      var expected := LargeMessageId(p, decrypted, secret, extra);
      if expected[..16] != messageId then None
      else if |decrypted| == 0 || decrypted[0] > |decrypted| || decrypted[0] < 16 then None
      else Some((decrypted[decrypted[0]..], expected))
  }

  function HeaderKeys(p: Primitives, secret: Binary, message: Binary): Bytes64
    requires |message| >= 16
  {
    p.hmacSha512(p.hmacSha512(secret, ENCRYPT_HEADER)[..32], message[..16])
  }

  function EncryptHeader(p: Primitives, header: Binary, message: Binary, secret: Binary): Option<Binary> {
    if |message| < 16 || |header| != 32 then None
    else
      var keys := HeaderKeys(p, secret, message);
      Some(p.cbcEncrypt(header, SliceKey(keys), SliceIv(keys)))
  }

  function DecryptHeader(p: Primitives, header: Binary, message: Binary, secret: Binary): Option<Binary> {
    if |message| < 16 || |header| != 32 then None
    else
      var keys := HeaderKeys(p, secret, message);
      Some(p.cbcDecrypt(header, SliceKey(keys), SliceIv(keys)))
  }

  // ---------------------------------------------------------------- theorems

  /** Sixteen to thirty-one bytes are added before encryption and the result is a whole number of blocks. */
  lemma EncryptedSize(p: Primitives, data: Binary, secret: Binary, extra: Binary, random: nat -> byte)
    requires CbcInverts(p)
    ensures var m := EncryptData(p, data, secret, extra, random).0;
            |m| % 16 == 0 && |data| + 32 <= |m| < |data| + 48
  {
  }

  lemma DataRoundTrip(p: Primitives, data: Binary, secret: Binary, extra: Binary, random: nat -> byte)
    requires CbcInverts(p)
    ensures var (m, id) := EncryptData(p, data, secret, extra, random);
            DecryptData(p, m, secret, extra) == Some((data, id))
  {
    var plain := Padded(data, random);
    var (m, id) := EncryptData(p, data, secret, extra, random);
    var keys := DataKeys(p, secret, id[..16]);
    assert m[..16] == id[..16];
    assert m[16..] == p.cbcEncrypt(plain, SliceKey(keys), SliceIv(keys));
    assert plain[plain[0]..] == data;
  }

  lemma HeaderRoundTrip(p: Primitives, header: Bytes32, message: Binary, secret: Binary)
    requires CbcInverts(p) && |message| >= 16
    ensures var e := EncryptHeader(p, header, message, secret);
            e.Some? && |e.value| == 32 && DecryptHeader(p, e.value, message, secret) == Some(header)
  {
  }

  /** A plaintext whose first byte says how much padding precedes the content. */
  predicate Unpads(plain: Binary, content: Binary) {
    plain != [] && 16 <= plain[0] <= |plain| && content == plain[plain[0]..]
  }

  /** What opens carries the id of the plaintext it opens to under this secret and these associated data. */
  lemma OpensOnlyUnderItsId(p: Primitives, encrypted: Binary, secret: Binary, extra: Binary) returns (plain: Binary)
    requires DecryptData(p, encrypted, secret, extra).Some?
    ensures var (content, id) := DecryptData(p, encrypted, secret, extra).value;
            && Unpads(plain, content)
            && id == p.hmacSha256(p.hmacSha512(secret, ENCRYPT_DATA)[32..], plain + extra + LittleEndian(|extra|, 4))
            && |encrypted| >= 16 && encrypted[..16] == id[..16]
  {
    var keys := DataKeys(p, secret, encrypted[..16]);
    plain := p.cbcDecrypt(encrypted[16..], SliceKey(keys), SliceIv(keys));
  }

  /** Two plaintexts with associated data that have one id are the same, or there are two messages with one digest. */
  lemma IdBindsBoth(p: Primitives, a: Binary, extraA: Binary, b: Binary, extraB: Binary, secret: Binary)
    requires LargeMessageId(p, a, secret, extraA) == LargeMessageId(p, b, secret, extraB)
    requires |extraA| < TWO_TO_THE_32 && |extraB| < TWO_TO_THE_32
    ensures (a == b && extraA == extraB) || exists k, x, y :: x != y && p.hmacSha256(k, x) == p.hmacSha256(k, y)
  {
    var x, y := a + extraA + LittleEndian(|extraA|, 4), b + extraB + LittleEndian(|extraB|, 4);
    var k := p.hmacSha512(secret, ENCRYPT_DATA)[32..];
    assert p.hmacSha256(k, x) == p.hmacSha256(k, y);
    if x == y {
      LengthLast(a, extraA, b, extraB);
    }
  }

  lemma LengthLast(a: Binary, extraA: Binary, b: Binary, extraB: Binary)
    requires |extraA| < TWO_TO_THE_32 && |extraB| < TWO_TO_THE_32
    requires a + extraA + LittleEndian(|extraA|, 4) == b + extraB + LittleEndian(|extraB|, 4)
    ensures a == b && extraA == extraB
  {
    hide LittleEndian;
    var m, n := LittleEndian(|extraA|, 4), LittleEndian(|extraB|, 4);
    var x, y := a + extraA + m, b + extraB + n;
    assert x[|x| - 4..] == m && y[|y| - 4..] == n;
    LittleEndianRoundTrip(|extraA|, 4);
    LittleEndianRoundTrip(|extraB|, 4);
    assert Pow256(4) == TWO_TO_THE_32;
    assert x[..|x| - 4] == a + extraA && y[..|y| - 4] == b + extraB;
    assert (a + extraA)[..|a|] == a && (a + extraA)[|a|..] == extraA;
    assert (b + extraB)[..|b|] == b && (b + extraB)[|b|..] == extraB;
  }

  /**
   * The form of a message on the wire: half an id over all that is bound, then the padded plaintext under keys that
   * depend on the secret and that half.
   */
  lemma MessageOnTheWire(p: Primitives, data: Binary, secret: Binary, extra: Binary, random: nat -> byte)
    ensures var plain := Padded(data, random);
            var large := p.hmacSha512(secret, Ascii("tde2e_encrypt_data"));
            var id := p.hmacSha256(large[32..], plain + extra + LittleEndian(|extra|, 4));
            var keys := p.hmacSha512(large[..32], id[..16]);
            && EncryptData(p, data, secret, extra, random) == (id[..16] + p.cbcEncrypt(plain, keys[..32], keys[32..48]), id)
            && Unpads(plain, data) && |plain| % 16 == 0 && plain[0] < 32
  {
    var plain := Padded(data, random);
    assert plain[plain[0]..] == data;
  }

  /** A header is one secret under keys that depend on the shared secret and the beginning of the message. */
  lemma HeaderOnTheWire(p: Primitives, header: Bytes32, message: Binary, secret: Binary)
    requires |message| >= 16
    ensures var keys := p.hmacSha512(p.hmacSha512(secret, Ascii("tde2e_encrypt_header"))[..32], message[..16]);
            EncryptHeader(p, header, message, secret) == Some(p.cbcEncrypt(header, keys[..32], keys[32..48]))
  {
  }
}
