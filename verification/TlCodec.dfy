/** The TL wire format: an appending writer and a cursor-based reader with a sticky error flag. */
module TlCodec {
  import opened Common

  const BYTES_LIMIT: nat := 0x100_0000

  // ---------------------------------------------------------------- wire format

  datatype Field =
    | UInt32(u: uint32)
    | Int32(i: int32)
    | Int64(l: int64)
    | Int256(a: Bytes32)
    | Int512(b: Bytes64)
    | Bytes(s: Binary)

  datatype Kind = KUInt32 | KInt32 | KInt64 | KInt256 | KInt512 | KBytes

  function KindOf(f: Field): Kind {
    match f
    case UInt32(_) => KUInt32
    case Int32(_) => KInt32
    case Int64(_) => KInt64
    case Int256(_) => KInt256
    case Int512(_) => KInt512
    case Bytes(_) => KBytes
  }

  function ToUInt64(v: int64): nat { if v < 0 then v + TWO_TO_THE_64 else v }

  function ToInt64(v: nat): int64
    requires v < TWO_TO_THE_64
  {
    if v < TWO_TO_THE_63 then v else v - TWO_TO_THE_64
  }

  /** One length byte, or the marker 254 and the low 24 bits of the length. */
  function BytesHeader(size: nat): Binary {
    if size < 254 then [size] else [254] + LittleEndian(size, 3)
  }

  function PaddingSize(prefixed: nat): (n: nat)
    ensures n < 4 && (prefixed + n) % 4 == 0
  {
    (4 - prefixed % 4) % 4
  }

  function EncodeBytes(value: Binary): Binary {
    var head := BytesHeader(|value|);
    head + value + Zeros(PaddingSize(|head| + |value|))
  }

  function Encode(f: Field): Binary {
    match f
    case UInt32(u) => LittleEndian(u, 4)
    case Int32(i) => LittleEndian(ToUInt32(i), 4)
    case Int64(l) => LittleEndian(ToUInt64(l), 8)
    case Int256(a) => a
    case Int512(b) => b
    case Bytes(s) => EncodeBytes(s)
  }

  function EncodeAll(fs: seq<Field>): Binary {
    if fs == [] then [] else Encode(fs[0]) + EncodeAll(fs[1..])
  }

  // ---------------------------------------------------------------- reading

  /** The reader's mutable part: `ptr_` as an offset and `failed_`. */
  datatype Cursor = Cursor(pos: nat, failed: bool)

  predicate Within(d: Binary, c: Cursor) { c.pos <= |d| }

  function FetchUInt(d: Binary, c: Cursor, n: nat): (r: (nat, Cursor))
    requires Within(d, c)
    ensures r.0 < Pow256(n) && Within(d, r.1)
  {
    if c.failed || |d| - c.pos < n then (0, c.(failed := true))
    else (FromLittleEndian(d[c.pos..c.pos + n]), c.(pos := c.pos + n))
  }

  /** `fetch_raw`: n bytes, or none and an error. */
  function FetchRaw(d: Binary, c: Cursor, n: nat): (r: (Binary, Cursor))
    requires Within(d, c)
    ensures Within(d, r.1)
  {
    if c.failed || |d| - c.pos < n then ([], c.(failed := true))
    else (d[c.pos..c.pos + n], c.(pos := c.pos + n))
  }

  /** `fetch_int256` and `fetch_int512`: n bytes, or n zeros and an error. */
  function FetchFixed(d: Binary, c: Cursor, n: nat): (r: (Binary, Cursor))
    requires Within(d, c)
    ensures |r.0| == n && Within(d, r.1)
  {
    if c.failed || |d| - c.pos < n then (Zeros(n), c.(failed := true))
    else (d[c.pos..c.pos + n], c.(pos := c.pos + n))
  }

  /** The length prefix: the size and how many bytes the prefix and the value take, or an error. */
  function FetchBytesHeader(d: Binary, c: Cursor): (r: (Option<(nat, nat)>, Cursor))
    requires Within(d, c)
    ensures Within(d, r.1)
    ensures r.0.None? ==> r.1.failed
    ensures r.0.Some? ==> r.1.failed == c.failed && r.0.value.0 < BYTES_LIMIT
  {
    if c.failed || c.pos == |d| then (None, c.(failed := true))
    else
      var first := d[c.pos];
      var c1 := c.(pos := c.pos + 1);
      if first < 254 then (Some((first, first + 1)), c1)
      else if first == 254 && 3 <= |d| - c1.pos then
        var size := FromLittleEndian(d[c1.pos..c1.pos + 3]);
        (Some((size, size + 4)), c1.(pos := c1.pos + 3))
      else (None, c1.(failed := true))
  }

  /** The trailing alignment: runs out of input, or skips up to the next multiple of four. */
  function SkipPadding(d: Binary, c: Cursor, prefixed: nat): (r: Cursor)
    requires Within(d, c)
    ensures Within(d, r)
  {
    if c.failed then c
    else if |d| - c.pos < PaddingSize(prefixed) then Cursor(|d|, true)
    else c.(pos := c.pos + PaddingSize(prefixed))
  }

  function FetchBytes(d: Binary, c: Cursor): (r: (Binary, Cursor))
    requires Within(d, c)
    ensures Within(d, r.1)
  {
    var (header, c1) := FetchBytesHeader(d, c);
    if header.None? then ([], c1)
    else
      var (value, c2) := FetchRaw(d, c1, header.value.0);
      var c3 := SkipPadding(d, c2, header.value.1);
      (if c3.failed then [] else value, c3)
  }

  function Fetch(k: Kind, d: Binary, c: Cursor): (r: (Field, Cursor))
    requires Within(d, c)
    ensures KindOf(r.0) == k && Within(d, r.1)
  {
    match k
    case KUInt32 => var (v, c') := FetchUInt(d, c, 4); (UInt32(v), c')
    case KInt32 => var (v, c') := FetchUInt(d, c, 4); (Int32(ToInt32(v)), c')
    case KInt64 => var (v, c') := FetchUInt(d, c, 8); (Int64(ToInt64(v)), c')
    case KInt256 => var (v, c') := FetchFixed(d, c, 32); (Int256(v), c')
    case KInt512 => var (v, c') := FetchFixed(d, c, 64); (Int512(v), c')
    case KBytes => var (v, c') := FetchBytes(d, c); (Bytes(v), c')
  }

  function FetchAll(ks: seq<Kind>, d: Binary, c: Cursor): (r: (seq<Field>, Cursor))
    requires Within(d, c)
    ensures |r.0| == |ks| && Within(d, r.1)
  {
    if ks == [] then ([], c)
    else
      var (f, c1) := Fetch(ks[0], d, c);
      var (fs, c2) := FetchAll(ks[1..], d, c1);
      ([f] + fs, c2)
  }

  function Kinds(fs: seq<Field>): (r: seq<Kind>)
    ensures |r| == |fs|
  {
    seq(|fs|, i requires 0 <= i < |fs| => KindOf(fs[i]))
  }

  /** `finish()`: nothing failed and every byte was consumed. */
  predicate Finished(d: Binary, c: Cursor) { !c.failed && c.pos == |d| }

  // ---------------------------------------------------------------- theorems

  predicate Storable(f: Field) { f.Bytes? ==> |f.s| < BYTES_LIMIT }

  lemma BytesHeaderRoundTrip(size: nat, d: Binary, c: Cursor)
    requires Within(d, c) && !c.failed && size < BYTES_LIMIT
    requires c.pos + |BytesHeader(size)| <= |d|
    requires d[c.pos..c.pos + |BytesHeader(size)|] == BytesHeader(size)
    ensures FetchBytesHeader(d, c)
         == (Some((size, size + |BytesHeader(size)|)), c.(pos := c.pos + |BytesHeader(size)|))
  {
    var h := BytesHeader(size);
    assert d[c.pos] == d[c.pos..c.pos + |h|][0] == h[0];
    if 254 <= size {
      assert d[c.pos + 1..c.pos + 4] == d[c.pos..c.pos + 4][1..] == LittleEndian(size, 3);
      LittleEndianRoundTrip(size, 3);
    }
  }

  lemma SliceOfConcat(d: Binary, p: nat, a: Binary, b: Binary)
    requires p + |a| + |b| <= |d| && d[p..p + |a| + |b|] == a + b
    ensures d[p..p + |a|] == a && d[p + |a|..p + |a| + |b|] == b
  {
    assert d[p..p + |a|] == d[p..p + |a| + |b|][..|a|];
    assert d[p + |a|..p + |a| + |b|] == d[p..p + |a| + |b|][|a|..];
  }

  lemma BytesRoundTripAt(v: Binary, d: Binary, c: Cursor)
    requires |v| < BYTES_LIMIT && !c.failed
    requires c.pos + |EncodeBytes(v)| <= |d| && d[c.pos..c.pos + |EncodeBytes(v)|] == EncodeBytes(v)
    ensures FetchBytes(d, c) == (v, c.(pos := c.pos + |EncodeBytes(v)|))
  {
    hide BytesHeader, FetchBytesHeader, LittleEndian;
    var h := BytesHeader(|v|);
    var pad := Zeros(PaddingSize(|h| + |v|));
    assert EncodeBytes(v) == h + (v + pad);
    SliceOfConcat(d, c.pos, h, v + pad);
    SliceOfConcat(d, c.pos + |h|, v, pad);
    BytesHeaderRoundTrip(|v|, d, c);
  }

  lemma FieldRoundTrip(f: Field, d: Binary, c: Cursor)
    requires Storable(f) && !c.failed
    requires c.pos + |Encode(f)| <= |d| && d[c.pos..c.pos + |Encode(f)|] == Encode(f)
    ensures Fetch(KindOf(f), d, c) == (f, c.(pos := c.pos + |Encode(f)|))
  {
    hide EncodeBytes, FetchBytes, FromLittleEndian;
    match f
    case UInt32(u) => LittleEndianRoundTrip(u, 4);
    case Int32(i) => LittleEndianRoundTrip(ToUInt32(i), 4);
    case Int64(l) => LittleEndianRoundTrip(ToUInt64(l), 8);
    case Int256(_) =>
    case Int512(_) =>
    case Bytes(v) => BytesRoundTripAt(v, d, c);
  }

  lemma FetchAllStep(ks: seq<Kind>, d: Binary, c: Cursor, f: Field, c1: Cursor)
    requires Within(d, c) && ks != [] && Fetch(ks[0], d, c) == (f, c1)
    ensures FetchAll(ks, d, c) == ([f] + FetchAll(ks[1..], d, c1).0, FetchAll(ks[1..], d, c1).1)
  {
  }

  lemma NothingToFetch(d: Binary, c: Cursor)
    requires Within(d, c)
    ensures FetchAll([], d, c) == ([], c)
  {
  }

  lemma {:induction false} SequenceRoundTrip(fs: seq<Field>, d: Binary, c: Cursor)
    requires forall f :: f in fs ==> Storable(f)
    requires !c.failed
    requires c.pos + |EncodeAll(fs)| <= |d| && d[c.pos..c.pos + |EncodeAll(fs)|] == EncodeAll(fs)
    ensures FetchAll(Kinds(fs), d, c) == (fs, c.(pos := c.pos + |EncodeAll(fs)|))
    decreases |fs|
  {
    hide Encode, Fetch, FetchAll;
    if fs == [] {
      NothingToFetch(d, c);
    } else {
      var first, rest := Encode(fs[0]), EncodeAll(fs[1..]);
      var c1 := c.(pos := c.pos + |first|);
      SliceOfConcat(d, c.pos, first, rest);
      assert Fetch(KindOf(fs[0]), d, c) == (fs[0], c1) by { FieldRoundTrip(fs[0], d, c); }
      SequenceRoundTrip(fs[1..], d, c1);
      var ks := Kinds(fs);
      assert ks[1..] == Kinds(fs[1..]) && ks[0] == KindOf(fs[0]);
      FetchAllStep(ks, d, c, fs[0], c1);
      assert fs == [fs[0]] + fs[1..];
    }
  }

  /** Whatever is stored is read back, and the reader then reports a clean finish. */
  lemma CodecRoundTrip(fs: seq<Field>)
    requires forall f :: f in fs ==> Storable(f)
    ensures var (read, c) := FetchAll(Kinds(fs), EncodeAll(fs), Cursor(0, false));
            read == fs && Finished(EncodeAll(fs), c)
  {
    assert EncodeAll(fs)[0..|EncodeAll(fs)|] == EncodeAll(fs);
    SequenceRoundTrip(fs, EncodeAll(fs), Cursor(0, false));
  }

  /** No encoding of one layout is a proper prefix of, or equal to, another's: the format is self-delimiting. */
  lemma CodecPrefixFree(fs: seq<Field>, gs: seq<Field>)
    requires forall f :: f in fs || f in gs ==> Storable(f)
    requires Kinds(fs) == Kinds(gs) && EncodeAll(fs) <= EncodeAll(gs)
    ensures fs == gs
  {
    SequenceRoundTrip(fs, EncodeAll(gs), Cursor(0, false));
    CodecRoundTrip(gs);
  }

  lemma FieldIsWordAligned(f: Field)
    ensures |Encode(f)| % 4 == 0
  {
    if f.Bytes? {
      var size := |BytesHeader(|f.s|)| + |f.s|;
      assert |Encode(f)| == size + PaddingSize(size);
    }
  }

  lemma {:induction false} FieldsAreWordAligned(fs: seq<Field>)
    ensures |EncodeAll(fs)| % 4 == 0
  {
    hide Encode;
    if fs == [] {
    } else {
      FieldIsWordAligned(fs[0]);
      FieldsAreWordAligned(fs[1..]);
      assert |EncodeAll(fs)| == |Encode(fs[0])| + |EncodeAll(fs[1..])|;
    }
  }

  /** A byte string survives the round trip exactly when its length fits in 24 bits. */
  lemma BytesRoundTripExactly(s: Binary, post: Binary)
    ensures var d := EncodeBytes(s) + post;
            FetchBytes(d, Cursor(0, false)) == (s, Cursor(|EncodeBytes(s)|, false))
            <==> |s| < BYTES_LIMIT
  {
    var d := EncodeBytes(s) + post;
    if |s| < BYTES_LIMIT {
      assert d[0..|EncodeBytes(s)|] == EncodeBytes(s);
      FieldRoundTrip(Bytes(s), d, Cursor(0, false));
    } else {
      var (value, c) := FetchBytes(d, Cursor(0, false));
      assert |value| < BYTES_LIMIT;
    }
  }

  /** Arbitrary input: the cursor only moves forward and, once failed, nothing moves or recovers. */
  lemma {:induction false} ReaderIsSafe(ks: seq<Kind>, d: Binary, c: Cursor)
    requires Within(d, c)
    ensures var c' := FetchAll(ks, d, c).1;
            c.pos <= c'.pos <= |d| && (c.failed ==> c' == c)
    ensures !FetchAll(ks, d, c).1.failed ==>
              forall n :: 0 <= n <= |ks| ==> !FetchAll(ks[..n], d, c).1.failed
  {
    if ks == [] {
      assert forall n :: 0 <= n <= |ks| ==> ks[..n] == [];
    } else {
      var c1 := Fetch(ks[0], d, c).1;
      ReaderIsSafe(ks[1..], d, c1);
      if !FetchAll(ks, d, c).1.failed {
        forall n | 0 <= n <= |ks| ensures !FetchAll(ks[..n], d, c).1.failed {
          if n > 0 {
            assert ks[..n][0] == ks[0] && ks[..n][1..] == ks[1..][..n - 1];
          }
        }
      }
    }
  }

  // ---------------------------------------------------------------- writer

  lemma {:induction false} LittleEndianAt(v: nat, n: nat, i: nat)
    requires i < n
    ensures LittleEndian(v, n)[i] == (v / Pow256(i)) % 256
  {
    if i > 0 {
      LittleEndianAt(v / 256, n - 1, i - 1);
      DivDiv(v, 256, Pow256(i - 1));
    }
  }

  lemma DivDiv(v: nat, a: nat, b: nat)
    requires 0 < a && 0 < b
    ensures 0 < a * b && v / a / b == v / (a * b)
  {
    var q, r := v / a / b, (v / a) % b;
    assert v / a == b * q + r;
    var m := a * r + v % a;
    assert v == a * (b * q + r) + v % a;
    assert a * (b * q) == (a * b) * q;
    assert v == (a * b) * q + m;
    assert a * r <= a * (b - 1) by { ScaleUp(a, r, b - 1); }
    UniqueRemainder(v, a * b, q, m);
  }

  class TlWriter {
    var buffer: Binary

    constructor ()
      ensures buffer == []
    {
      buffer := [];
    }

    method StoreUInt32(value: uint32)
      modifies this
      ensures buffer == old(buffer) + Encode(UInt32(value))
    {
      buffer := buffer + [value % 256];
      buffer := buffer + [value / 0x100 % 256];
      buffer := buffer + [value / 0x1_0000 % 256];
      buffer := buffer + [value / 0x100_0000 % 256];
      forall i | 0 <= i < 4 ensures LittleEndian(value, 4)[i] == (value / Pow256(i)) % 256 {
        LittleEndianAt(value, 4, i);
      }
      assert LittleEndian(value, 4)
          == [value % 256, value / 0x100 % 256, value / 0x1_0000 % 256, value / 0x100_0000 % 256];
    }

    method StoreInt32(value: int32)
      modifies this
      ensures buffer == old(buffer) + Encode(Int32(value))
    {
      StoreUInt32(ToUInt32(value));
    }

    method StoreInt64(value: int64)
      modifies this
      ensures buffer == old(buffer) + Encode(Int64(value))
    {
      var raw := ToUInt64(value);
      for i := 0 to 8
        invariant buffer == old(buffer) + LittleEndian(raw, 8)[..i]
      {
        LittleEndianAt(raw, 8, i);
        buffer := buffer + [raw / Pow256(i) % 256];
      }
      assert LittleEndian(raw, 8)[..8] == LittleEndian(raw, 8);
    }

    method StoreRaw(value: Binary)
      modifies this
      ensures buffer == old(buffer) + value
    {
      buffer := buffer + value;
    }

    /** One length byte, or the marker and three; gives the length with its own header. */
    method StoreLength(size: nat) returns (prefixed: nat)
      modifies this
      ensures buffer == old(buffer) + BytesHeader(size) && prefixed == |BytesHeader(size)| + size
    {
      if size < 254 {
        buffer := buffer + [size];
        prefixed := size + 1;
      } else {
        buffer := buffer + [254];
        buffer := buffer + LittleEndian(size, 3);
        prefixed := size + 4;
      }
    }

    method StoreBytes(value: Binary)
      modifies this
      ensures buffer == old(buffer) + Encode(Bytes(value))
    {
      hide BytesHeader, LittleEndian;
      var prefixed := StoreLength(|value|);
      StoreRaw(value);
      ghost var start := prefixed;
      ghost var unpadded := buffer;
      assert unpadded == old(buffer) + (BytesHeader(|value|) + value);
      while prefixed % 4 != 0
        invariant start <= prefixed <= start + PaddingSize(start)
        invariant buffer == unpadded + Zeros(prefixed - start)
        decreases start + PaddingSize(start) - prefixed
      {
        buffer := buffer + [0];
        prefixed := prefixed + 1;
      }
      assert prefixed == start + PaddingSize(start);
    }

    method Store(f: Field)
      modifies this
      ensures buffer == old(buffer) + Encode(f)
    {
      match f
      case UInt32(u) => StoreUInt32(u);
      case Int32(i) => StoreInt32(i);
      case Int64(l) => StoreInt64(l);
      case Int256(a) => StoreRaw(a);
      case Int512(b) => StoreRaw(b);
      case Bytes(s) => StoreBytes(s);
    }
  }

  // ---------------------------------------------------------------- reader

  lemma {:induction false} FromLittleEndianSnoc(s: Binary, b: byte)
    ensures FromLittleEndian(s + [b]) == FromLittleEndian(s) + b * Pow256(|s|)
  {
    if s == [] {
    } else {
      assert (s + [b])[1..] == s[1..] + [b];
      FromLittleEndianSnoc(s[1..], b);
      var p := Pow256(|s| - 1);
      assert 256 * (b * p) == b * (256 * p);
    }
  }

  lemma ThreeBytes(a: byte, b: byte, c: byte)
    ensures FromLittleEndian([a, b, c]) == a + b * 0x100 + c * 0x1_0000
  {
    assert [a, b, c] == [a, b] + [c] && [a, b] == [a] + [b];
    FromLittleEndianSnoc([a, b], c);
    FromLittleEndianSnoc([a], b);
  }

  class TlReader {
    const data: Binary
    var ptr: nat
    var failed: bool

    ghost predicate Valid()
      reads this
    {
      ptr <= |data|
    }

    ghost function At(): Cursor
      reads this
    {
      Cursor(ptr, failed)
    }

    constructor (data: Binary)
      ensures Valid() && this.data == data && At() == Cursor(0, false)
    {
      this.data := data;
      ptr, failed := 0, false;
    }

    method FetchUInt32() returns (value: uint32)
      requires Valid()
      modifies this
      ensures Valid() && (value, At()) == FetchUInt(data, old(At()), 4)
    {
      if failed || |data| - ptr < 4 {
        failed := true;
        return 0;
      }
      var a: int, b: int, c: int, d: int := data[ptr], data[ptr + 1], data[ptr + 2], data[ptr + 3];
      value := a + b * 0x100 + c * 0x1_0000 + d * 0x100_0000;
      assert data[ptr..ptr + 4] == [a, b, c] + [d];
      assert data[ptr..ptr + 3] == [a, b, c];
      ThreeBytes(a, b, c);
      FromLittleEndianSnoc([a, b, c], d);
      ptr := ptr + 4;
    }

    method FetchInt64() returns (value: int64)
      requires Valid()
      modifies this
      ensures Valid() && (Int64(value), At()) == Fetch(KInt64, data, old(At()))
    {
      if failed || |data| - ptr < 8 {
        failed := true;
        return 0;
      }
      var raw: nat := 0;
      for i := 0 to 8
        invariant Valid() && At() == old(At()) && |data| - ptr >= 8
        invariant raw == FromLittleEndian(data[ptr..ptr + i])
      {
        FromLittleEndianSnoc(data[ptr..ptr + i], data[ptr + i]);
        assert data[ptr..ptr + i] + [data[ptr + i]] == data[ptr..ptr + i + 1];
        raw := raw + data[ptr + i] * Pow256(i);
      }
      value := ToInt64(raw);
      ptr := ptr + 8;
    }

    method FetchArray(n: nat) returns (value: Binary)
      requires Valid()
      modifies this
      ensures Valid() && (value, At()) == FetchFixed(data, old(At()), n)
    {
      if failed || |data| - ptr < n {
        failed := true;
        return Zeros(n);
      }
      value := data[ptr..ptr + n];
      ptr := ptr + n;
    }

    method FetchSpan(size: nat) returns (value: Binary)
      requires Valid()
      modifies this
      ensures Valid() && (value, At()) == FetchRaw(data, old(At()), size)
    {
      if failed || |data| - ptr < size {
        failed := true;
        return [];
      }
      value := data[ptr..ptr + size];
      ptr := ptr + size;
    }

    method FetchLength() returns (ok: bool, size: nat, prefixed: nat)
      requires Valid()
      modifies this
      ensures Valid()
      ensures (if ok then Some((size, prefixed)) else None, At()) == FetchBytesHeader(data, old(At()))
    {
      ok, size, prefixed := false, 0, 0;
      if failed || ptr >= |data| {
        failed := true;
        return;
      }
      var first := data[ptr];
      ptr := ptr + 1;
      if first < 254 {
        return true, first, first + 1;
      }
      if first == 254 && |data| - ptr >= 3 {
        var a: int, b: int, c: int := data[ptr], data[ptr + 1], data[ptr + 2];
        size := a + b * 0x100 + c * 0x1_0000;
        assert data[ptr..ptr + 3] == [a, b, c];
        ThreeBytes(a, b, c);
        ptr := ptr + 3;
        return true, size, size + 4;
      }
      failed := true;
    }

    method FetchByteString() returns (value: Binary)
      requires Valid()
      modifies this
      ensures Valid() && (value, At()) == FetchBytes(data, old(At()))
    {
      var ok, size, start := FetchLength();
      if !ok {
        return [];
      }
      value := FetchSpan(size);
      ghost var from := At();
      var prefixed := start;
      while prefixed % 4 != 0
        invariant Valid() && start <= prefixed <= start + PaddingSize(start)
        invariant failed == from.failed && ptr == from.pos + (prefixed - start)
        invariant failed ==> prefixed == start
        decreases start + PaddingSize(start) - prefixed
      {
        if failed || ptr >= |data| {
          failed := true;
          return [];
        }
        ptr := ptr + 1;
        prefixed := prefixed + 1;
      }
      assert prefixed == start + PaddingSize(start);
    }

    method FetchField(k: Kind) returns (f: Field)
      requires Valid()
      modifies this
      ensures Valid() && (f, At()) == Fetch(k, data, old(At()))
    {
      match k
      case KUInt32 => var v := FetchUInt32(); f := UInt32(v);
      case KInt32 => var v := FetchUInt32(); f := Int32(ToInt32(v));
      case KInt64 => var v := FetchInt64(); f := Int64(v);
      case KInt256 => var v := FetchArray(32); f := Int256(v);
      case KInt512 => var v := FetchArray(64); f := Int512(v);
      case KBytes => var v := FetchByteString(); f := Bytes(v);
    }

    predicate Finish()
      reads this
    {
      !failed && ptr == |data|
    }
  }

  lemma {:induction false} EncodeAllSnoc(fs: seq<Field>, f: Field)
    ensures EncodeAll(fs + [f]) == EncodeAll(fs) + Encode(f)
    decreases |fs|
  {
    hide Encode;
    if fs == [] {
      assert [f][1..] == [] && [] + [f] == [f] && EncodeAll([f]) == Encode(f) + EncodeAll([]);
    } else {
      var first, rest := Encode(fs[0]), EncodeAll(fs[1..]);
      assert (fs + [f])[0] == fs[0] && (fs + [f])[1..] == fs[1..] + [f];
      EncodeAllSnoc(fs[1..], f);
      assert first + (rest + Encode(f)) == (first + rest) + Encode(f);
    }
  }

  method WriteAll(fs: seq<Field>) returns (data: Binary)
    ensures data == EncodeAll(fs)
  {
    hide Encode;
    var w := new TlWriter();
    for i := 0 to |fs|
      invariant fresh(w)
      invariant w.buffer == EncodeAll(fs[..i])
    {
      w.Store(fs[i]);
      EncodeAllSnoc(fs[..i], fs[i]);
      assert fs[..i] + [fs[i]] == fs[..i + 1];
    }
    data := w.buffer;
    assert fs[..|fs|] == fs;
  }

  method ReadAll(ks: seq<Kind>, data: Binary) returns (read: seq<Field>, finished: bool)
    ensures var (fs, c) := FetchAll(ks, data, Cursor(0, false));
            read == fs && finished == Finished(data, c)
  {
    var r := new TlReader(data);
    read := [];
    ghost var (fs, c) := FetchAll(ks, data, Cursor(0, false));
    for i := 0 to |ks|
      invariant fresh(r) && r.Valid() && r.data == data
      invariant read + FetchAll(ks[i..], data, r.At()).0 == fs
      invariant FetchAll(ks[i..], data, r.At()).1 == c
    {
      assert ks[i..][0] == ks[i] && ks[i..][1..] == ks[i + 1..];
      var f := r.FetchField(ks[i]);
      assert read + ([f] + FetchAll(ks[i + 1..], data, r.At()).0)
          == (read + [f]) + FetchAll(ks[i + 1..], data, r.At()).0;
      read := read + [f];
    }
    finished := r.Finish();
  }

  /** A message written field by field and read back with the same layout, through the objects themselves. */
  method WriteThenRead(fs: seq<Field>) returns (read: seq<Field>, finished: bool)
    ensures (forall f :: f in fs ==> Storable(f)) ==> read == fs && finished
  {
    var data := WriteAll(fs);
    read, finished := ReadAll(Kinds(fs), data);
    if forall f :: f in fs ==> Storable(f) {
      CodecRoundTrip(fs);
    }
  }

  /** A byte string takes the short form below 254 bytes, and is filled up with zeros to the next multiple of four. */
  lemma BytesAreLaidOut(s: Binary)
    ensures var e, short := EncodeBytes(s), |s| < 254;
            var head := if short then 1 else 4;
            && |e| == (head + |s| + 3) / 4 * 4
            && (if short then e[0] == |s| else e[0] == 254 && |s| % BYTES_LIMIT == (e[1] as int) + (e[2] as int) * 0x100 + (e[3] as int) * 0x1_0000)
            && e[head..head + |s|] == s
            && forall i :: head + |s| <= i < |e| ==> e[i] == 0
  {
    var h := BytesHeader(|s|);
    var pad := Zeros(PaddingSize(|h| + |s|));
    assert EncodeBytes(s) == h + s + pad;
    assert forall i :: |h| + |s| <= i < |h| + |s| + |pad| ==> (h + s + pad)[i] == pad[i - |h| - |s|] == 0;
    if 254 <= |s| {
      LowThreeBytes(|s|);
    }
  }

  lemma LowThreeBytes(v: nat)
    ensures var b := LittleEndian(v, 3); v % BYTES_LIMIT == (b[0] as int) + (b[1] as int) * 0x100 + (b[2] as int) * 0x1_0000
  {
    var b := LittleEndian(v, 3);
    LittleEndianRoundTrip(v, 3);
    assert Pow256(3) == BYTES_LIMIT;
    assert b == [b[0], b[1], b[2]];
    ThreeBytes(b[0], b[1], b[2]);
  }

  /** The size a byte string announces at the front of some input, if it does, and how many bytes announce it. */
  function Announced(d: Binary): Option<(nat, nat)> {
    if d == [] || d[0] == 255 || (d[0] == 254 && |d| < 4) then None
    else if d[0] < 254 then Some((d[0], 1))
    else Some(((d[1] as int) + (d[2] as int) * 0x100 + (d[3] as int) * 0x1_0000, 4))
  }

  lemma HeaderIsReadExactly(d: Binary)
    ensures var (header, c) := FetchBytesHeader(d, Cursor(0, false));
            match Announced(d)
            case None => header.None? && c.failed
            case Some((size, head)) => header == Some((size, head + size)) && c == Cursor(head, false)
  {
    hide FromLittleEndian;
    if d != [] && d[0] == 254 && 4 <= |d| {
      assert d[1..4] == [d[1], d[2], d[3]];
      ThreeBytes(d[1], d[2], d[3]);
    }
  }

  /** Whatever the input: a byte string is read exactly if it is announced, by a byte below 255, and there up to its padding. */
  lemma BytesAreReadExactly(d: Binary)
    ensures var (value, c) := FetchBytes(d, Cursor(0, false));
            match Announced(d)
            case None => c.failed
            case Some((size, head)) =>
              && (!c.failed <==> (head + size + 3) / 4 * 4 <= |d|)
              && (!c.failed ==> c.pos == (head + size + 3) / 4 * 4 && value == d[head..head + size])
  {
    hide FetchBytesHeader, Announced;
    HeaderIsReadExactly(d);
    if Announced(d).Some? {
      var (size, head) := Announced(d).value;
      RoundedUp(head + size);
    }
  }

  lemma RoundedUp(n: nat)
    ensures n + PaddingSize(n) == (n + 3) / 4 * 4
  {
  }
}
