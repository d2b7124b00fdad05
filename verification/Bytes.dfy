/** Byte strings: little-endian integers, byte-wise order, concatenation. */
module Bytes {

  type byte = b: int | 0 <= b < 256

  type Bytes = seq<byte>

  const TWO_64: nat := 0x1_0000_0000_0000_0000

  type uint16 = v: int | 0 <= v < 0x1_0000

  type uint64 = v: int | 0 <= v < 0x1_0000_0000_0000_0000

  type int64 = v: int | -0x8000_0000_0000_0000 <= v < 0x8000_0000_0000_0000

  /** The ASCII text of a literal. */
  function Text(s: string): (r: Bytes)
    ensures |r| == |s|
  {
    seq(|s|, i requires 0 <= i < |s| => (s[i] as int) % 256)
  }

  function Min(a: int, b: int): int {
    if a < b then a else b
  }

  function Max(a: int, b: int): int {
    if a < b then b else a
  }

  // ---------- little-endian integers ----------

  function Pow256(n: nat): (p: nat)
    ensures p > 0
  {
    if n == 0 then 1 else 256 * Pow256(n - 1)
  }

  function PutLE(v: nat, n: nat): (s: Bytes)
    ensures |s| == n
  {
    if n == 0 then [] else [v % 256] + PutLE(v / 256, n - 1)
  }

  function GetLE(s: Bytes): nat {
    if s == [] then 0 else s[0] + 256 * GetLE(s[1..])
  }

  lemma {:induction false} GetPutLE(v: nat, n: nat)
    requires v < Pow256(n)
    ensures GetLE(PutLE(v, n)) == v
  {
    if n == 0 {
    } else {
      GetPutLE(v / 256, n - 1);
      assert PutLE(v, n)[1..] == PutLE(v / 256, n - 1);
    }
  }

  lemma {:induction false} PutGetLE(s: Bytes)
    ensures GetLE(s) < Pow256(|s|)
    ensures PutLE(GetLE(s), |s|) == s
  {
    if s == [] {
    } else {
      PutGetLE(s[1..]);
      var rest := GetLE(s[1..]);
      assert (s[0] + 256 * rest) / 256 == rest && (s[0] + 256 * rest) % 256 == s[0];
      assert s == [s[0]] + s[1..];
    }
  }

  lemma PutLeast(r: byte, q: nat, n: nat)
    ensures PutLE(256 * q + r, n + 1) == [r] + PutLE(q, n)
  {
    var v := 256 * q + r;
    assert v / 256 == q && v % 256 == r;
    assert PutLE(v, n + 1) == [v % 256] + PutLE(v / 256, n);
  }

  /** The least significant byte comes first. */
  lemma LeastFirst()
    ensures PutLE(0x0102, 2) == [2, 1]
    ensures PutLE(0x0102_0304_0506_0708, 8) == [8, 7, 6, 5, 4, 3, 2, 1]
  {
    hide PutLE;
    PutLeast(8, 0x0102_0304_0506_07, 7);
    PutLeast(7, 0x0102_0304_0506, 6);
    PutLeast(6, 0x0102_0304_05, 5);
    PutLeast(5, 0x0102_0304, 4);
    PutLeast(4, 0x0102_03, 3);
    PutLeast(3, 0x0102, 2);
    PutLeast(2, 0x01, 1);
    PutLeast(1, 0, 0);
    assert PutLE(0, 0) == [];
  }

  lemma Pow256Of8()
    ensures Pow256(8) == TWO_64 && Pow256(2) == 65536
  {
    assert Pow256(2) == 65536;
    assert Pow256(4) == 0x1_0000_0000;
    assert Pow256(6) == 0x1_0000_0000_0000;
  }

  lemma Uint64RoundTrip(v: uint64)
    ensures GetLE(PutLE(v, 8)) == v
  {
    Pow256Of8();
    GetPutLE(v, 8);
  }

  /** Two's complement: Go's uint64(x) of an int64 and back. */
  function ToUint64(x: int64): uint64 {
    if x < 0 then x + TWO_64 else x
  }

  function ToInt64(v: uint64): int64 {
    if v >= 0x8000_0000_0000_0000 then v - TWO_64 else v
  }

  // ---------- concatenation ----------

  lemma Assoc<T>(a: seq<T>, b: seq<T>, c: seq<T>)
    ensures (a + b) + c == a + (b + c)
  {
  }

  function Flatten<T>(ss: seq<seq<T>>): seq<T> {
    if ss == [] then [] else ss[0] + Flatten(ss[1..])
  }

  lemma {:induction false} FlattenAppend<T>(a: seq<seq<T>>, b: seq<seq<T>>)
    ensures Flatten(a + b) == Flatten(a) + Flatten(b)
  {
    if a == [] {
      assert a + b == b;
    } else {
      FlattenAppend(a[1..], b);
      Assoc(a[0], Flatten(a[1..]), Flatten(b));
      assert (a + b)[1..] == a[1..] + b;
    }
  }

  lemma FlattenSnoc<T>(a: seq<seq<T>>, x: seq<T>)
    ensures Flatten(a + [x]) == Flatten(a) + x
  {
    FlattenAppend(a, [x]);
    assert Flatten([x]) == x;
  }

  // ---------- byte-wise (Go string) order ----------

  predicate Less(a: Bytes, b: Bytes) {
    if b == [] then false
    else if a == [] then true
    else a[0] < b[0] || (a[0] == b[0] && Less(a[1..], b[1..]))
  }

  lemma {:induction false} LessIsTotal(a: Bytes, b: Bytes)
    ensures a == b || Less(a, b) || Less(b, a)
    ensures !(Less(a, b) && Less(b, a)) && (a == b ==> !Less(a, b))
  {
    if a != [] && b != [] {
      LessIsTotal(a[1..], b[1..]);
      assert a == [a[0]] + a[1..] && b == [b[0]] + b[1..];
    }
  }

  lemma {:induction false} LessIsTransitive(a: Bytes, b: Bytes, c: Bytes)
    requires Less(a, b) && Less(b, c)
    ensures Less(a, c)
  {
    if a != [] && a[0] == b[0] == c[0] {
      LessIsTransitive(a[1..], b[1..], c[1..]);
    }
  }
}
