/** Bytes, fixed-size arrays and little-endian integers shared by every module. */
module Common {

  datatype Option<+T> = None | Some(value: T)

  type byte = x: int | 0 <= x < 256

  type Binary = seq<byte>

  function Zeros(n: nat): (r: Binary)
    ensures |r| == n
  {
    seq(n, _ => 0)
  }

  type Bytes16 = b: Binary | |b| == 16 witness Zeros(16)
  type Bytes32 = b: Binary | |b| == 32 witness Zeros(32)
  type Bytes64 = b: Binary | |b| == 64 witness Zeros(64)

  const TWO_TO_THE_31: int := 0x8000_0000
  const TWO_TO_THE_32: int := 0x1_0000_0000
  const TWO_TO_THE_63: int := 0x8000_0000_0000_0000
  const TWO_TO_THE_64: int := 0x1_0000_0000_0000_0000

  type uint32 = x: int | 0 <= x < TWO_TO_THE_32
  type int32 = x: int | -TWO_TO_THE_31 <= x < TWO_TO_THE_31
  type int64 = x: int | -TWO_TO_THE_63 <= x < TWO_TO_THE_63

  const INT32_MAX: int := 0x7fff_ffff

  /** The two's-complement casts between int32_t and uint32_t. */
  function ToUInt32(v: int32): uint32 { if v < 0 then v + TWO_TO_THE_32 else v }

  function ToInt32(v: uint32): int32 { if v < TWO_TO_THE_31 then v else v - TWO_TO_THE_32 }

  /** 256 to the n: the first value that does not fit in n bytes. */
  function Pow256(n: nat): (r: nat)
    ensures 0 < r
  {
    if n == 0 then 1 else 256 * Pow256(n - 1)
  }

  /** The low n bytes of v, least significant first. */
  function LittleEndian(v: nat, n: nat): (r: Binary)
    ensures |r| == n
  {
    if n == 0 then [] else [v % 256] + LittleEndian(v / 256, n - 1)
  }

  function FromLittleEndian(s: Binary): (r: nat)
    ensures r < Pow256(|s|)
  {
    if s == [] then 0 else s[0] + 256 * FromLittleEndian(s[1..])
  }

  lemma {:induction false} LittleEndianRoundTrip(v: nat, n: nat)
    ensures FromLittleEndian(LittleEndian(v, n)) == v % Pow256(n)
    ensures v < Pow256(n) ==> FromLittleEndian(LittleEndian(v, n)) == v
  {
    if n == 0 {
    } else {
      var s := LittleEndian(v, n);
      assert s[1..] == LittleEndian(v / 256, n - 1);
      LittleEndianRoundTrip(v / 256, n - 1);
      DivModSplit(v, Pow256(n - 1));
      if v < Pow256(n) {
        assert v / 256 < Pow256(n - 1);
      }
    }
  }

  lemma DivModSplit(v: nat, p: nat)
    requires 0 < p
    ensures v % (256 * p) == v % 256 + 256 * ((v / 256) % p)
  {
    var q, r := (v / 256) / p, (v / 256) % p;
    assert v / 256 == p * q + r;
    assert v == 256 * (p * q + r) + v % 256;
    assert 256 * (p * q) == (256 * p) * q;
    var m := 256 * r + v % 256;
    assert v == (256 * p) * q + m;
    assert 0 <= m < 256 * p by { assert r <= p - 1; }
    UniqueRemainder(v, 256 * p, q, m);
  }

  lemma UniqueRemainder(v: int, d: nat, q: int, m: nat)
    requires m < d && v == d * q + m
    ensures v % d == m && v / d == q
  {
    var q' := v / d;
    if q < q' {
      ScaleUp(d, q + 1, q');
    } else if q' < q {
      ScaleUp(d, q' + 1, q);
    }
  }

  lemma ScaleUp(d: nat, a: int, b: int)
    requires a <= b
    ensures d * a <= d * b
  {
    assert 0 <= d * (b - a);
  }

  predicate IsMin(s: set<int>, m: int) { m in s && forall x :: x in s ==> m <= x }

  /** The smallest element of a set, as `*s.begin()` of an ordered container. */
  function Min(s: set<int>): (m: int)
    requires s != {}
    ensures m in s
    ensures forall x :: x in s ==> m <= x
  {
    MinExists(s);
    var m :| IsMin(s, m);
    m
  }

  lemma NoneMeansEmpty<T>(s: set<T>)
    requires forall x :: x !in s
    ensures s == {}
  {
  }

  lemma SomeMember<T>(s: set<T>)
    requires s != {}
    ensures exists x :: x in s
  {
    if forall x :: x !in s {
      NoneMeansEmpty(s);
    }
  }

  lemma {:induction false} MinExists(s: set<int>)
    requires s != {}
    ensures exists m :: IsMin(s, m)
    decreases |s|
  {
    if forall y :: y !in s {
      NoneMeansEmpty(s);
    }
    var y :| y in s;
    var rest := s - {y};
    if rest == {} {
      OnlyOne(s, y);
    } else {
      MinExists(rest);
      var m :| IsMin(rest, m);
      SmallerOfTwo(s, y, m);
    }
  }

  lemma OnlyOne(s: set<int>, y: int)
    requires y in s && s - {y} == {}
    ensures IsMin(s, y)
  {
    forall x | x in s ensures y <= x {
      assert x == y || x in s - {y};
    }
  }

  lemma SmallerOfTwo(s: set<int>, y: int, m: int)
    requires y in s && IsMin(s - {y}, m)
    ensures IsMin(s, if m <= y then m else y)
  {
    forall x | x in s ensures (if m <= y then m else y) <= x {
      assert x == y || x in s - {y};
    }
  }

  /** The keys of an ordered container in iteration order. */
  function Ascending(s: set<int>): seq<int>
    decreases |s|
  {
    if s == {} then [] else [Min(s)] + Ascending(s - {Min(s)})
  }

  lemma {:induction false} AscendingListsAll(s: set<int>)
    ensures |Ascending(s)| == |s|
    ensures forall x :: x in Ascending(s) <==> x in s
    ensures forall i, j :: 0 <= i < j < |s| ==> Ascending(s)[i] < Ascending(s)[j]
    decreases |s|
  {
    if s != {} {
      var m, rest := Min(s), s - {Min(s)};
      AscendingListsAll(rest);
      var r := Ascending(rest);
      assert Ascending(s) == [m] + r;
      forall i | 0 <= i < |r| ensures m < r[i] {
        assert r[i] in rest;
      }
    }
  }

  function Elements<T>(s: seq<T>): set<T> { set x | x in s }

  /** A sequence has as many elements as the set of them exactly when it repeats none. */
  lemma {:induction false} DistinctIffFullSet<T>(s: seq<T>)
    ensures |Elements(s)| <= |s|
    ensures |Elements(s)| == |s| <==> (forall i, j :: 0 <= i < j < |s| ==> s[i] != s[j])
  {
    if s == [] {
      assert Elements(s) == {};
    } else {
      var front, last := s[..|s| - 1], s[|s| - 1];
      DistinctIffFullSet(front);
      assert s == front + [last];
      assert Elements(s) == Elements(front) + {last};
      if last in front {
        var i :| 0 <= i < |front| && front[i] == last;
        assert s[i] == s[|s| - 1];
      } else {
        assert forall i, j :: 0 <= i < j < |front| ==> front[i] == s[i] && front[j] == s[j];
      }
    }
  }

  lemma SubsetIsSmaller<T>(a: set<T>, b: set<T>)
    requires a <= b
    ensures |a| <= |b|
  {
    assert |b - a| == |b| - |a|;
  }

  lemma SubsetOfEqualSize<T>(a: set<T>, b: set<T>)
    requires a <= b && |a| == |b|
    ensures a == b
  {
    assert |b - a| == 0;
  }
}
