/** Byte strings in lexicographic order, and big-endian numbers in them. */
module ByteOrder {

  type Byte = n: int | 0 <= n < 256
  type Bytes = seq<Byte>

  predicate Less(a: Bytes, b: Bytes)
    decreases |a|
  {
    b != [] && (a == [] || a[0] < b[0] || (a[0] == b[0] && Less(a[1..], b[1..])))
  }

  lemma {:induction false} LessIrreflexive(a: Bytes)
    ensures !Less(a, a)
    decreases |a|
  {
    if a != [] { LessIrreflexive(a[1..]); }
  }

  lemma {:induction false} LessTotal(a: Bytes, b: Bytes)
    ensures a == b || Less(a, b) || Less(b, a)
    decreases |a|
  {
    if a != [] && b != [] && a[0] == b[0] {
      LessTotal(a[1..], b[1..]);
      assert a == [a[0]] + a[1..] && b == [b[0]] + b[1..];
    }
  }

  lemma {:induction false} LessTransitive(a: Bytes, b: Bytes, c: Bytes)
    requires Less(a, b) && Less(b, c)
    ensures Less(a, c)
    decreases |a|
  {
    if a != [] && a[0] == b[0] == c[0] { LessTransitive(a[1..], b[1..], c[1..]); }
  }

  /** Strings that begin with parts of equal length compare by these parts first. */
  lemma {:induction false} LessConcat(a: Bytes, b: Bytes, c: Bytes, d: Bytes)
    requires |a| == |b|
    ensures Less(a + c, b + d) <==> Less(a, b) || (a == b && Less(c, d))
    decreases |a|
  {
    if a == [] {
      assert a + c == c && b + d == d;
    } else {
      assert (a + c)[1..] == a[1..] + c && (b + d)[1..] == b[1..] + d;
      LessConcat(a[1..], b[1..], c, d);
      LessIrreflexive(a);
      if a[0] == b[0] && a[1..] == b[1..] { assert a == [a[0]] + a[1..] == b; }
    }
  }

  /** The same for strings of three parts. */
  lemma LessConcat3(a: Bytes, b: Bytes, c: Bytes, d: Bytes, e: Bytes, f: Bytes)
    requires |a| == |b| && |c| == |d|
    ensures Less(a + c + e, b + d + f) <==> Less(a, b) || (a == b && (Less(c, d) || (c == d && Less(e, f))))
  {
    LessConcat(a + c, b + d, e, f);
    LessConcat(a, b, c, d);
    assert (a + c)[..|a|] == a && (b + d)[..|b|] == b;
    assert (a + c)[|a|..] == c && (b + d)[|b|..] == d;
    LessIrreflexive(a);
  }

  function Pow(b: nat, e: nat): (r: nat)
    requires b > 0
    ensures r > 0
  {
    if e == 0 then 1 else b * Pow(b, e - 1)
  }

  /** The `w` low-order bytes of `n`, most significant first. */
  function BigEndian(w: nat, n: nat): (r: Bytes)
    ensures |r| == w
  {
    if w == 0 then [] else BigEndian(w - 1, n / 256) + [n % 256]
  }

  function FromBigEndian(b: Bytes): nat {
    if b == [] then 0 else FromBigEndian(b[..|b| - 1]) * 256 + b[|b| - 1]
  }

  lemma {:induction false} BigEndianRoundTrip(w: nat, n: nat)
    requires n < Pow(256, w)
    ensures FromBigEndian(BigEndian(w, n)) == n
  {
    if w > 0 {
      BigEndianRoundTrip(w - 1, n / 256);
      var b := BigEndian(w, n);
      assert b[..|b| - 1] == BigEndian(w - 1, n / 256);
    }
  }

  /** Byte order of equally wide big-endian numbers is numeric order. */
  lemma {:induction false} BigEndianOrder(w: nat, m: nat, n: nat)
    requires m < Pow(256, w) && n < Pow(256, w)
    ensures Less(BigEndian(w, m), BigEndian(w, n)) <==> m < n
    ensures BigEndian(w, m) == BigEndian(w, n) <==> m == n
  {
    if w == 0 {
    } else {
      BigEndianOrder(w - 1, m / 256, n / 256);
      var a, b := BigEndian(w - 1, m / 256), BigEndian(w - 1, n / 256);
      LessConcat(a, b, [m % 256], [n % 256]);
      assert m / 256 < n / 256 ==> m < n;
      assert (a + [m % 256])[|a|] == m % 256 && (b + [n % 256])[|b|] == n % 256;
      assert (a + [m % 256])[..|a|] == a && (b + [n % 256])[..|b|] == b;
    }
  }

  /** Half the range of the numbers of `w` bytes. */
  function Half(w: nat): int
    requires w > 0
  {
    128 * Pow(256, w - 1)
  }

  /** A signed number of `w` bytes as the unsigned number of the same bits. */
  function Unsigned(w: nat, i: int): nat
    requires w > 0 && -Half(w) <= i < Half(w)
  {
    if i >= 0 then i else i + 2 * Half(w)
  }

  /** Signed numbers are written with the bits of the unsigned ones, so byte order is numeric order exactly
      between numbers of the same sign. */
  lemma SignedOrder(w: nat, i: int, j: int)
    requires w > 0 && -Half(w) <= i < Half(w) && -Half(w) <= j < Half(w)
    ensures (Less(BigEndian(w, Unsigned(w, i)), BigEndian(w, Unsigned(w, j))) <==> i < j) <==> ((i < 0) == (j < 0))
  {
    assert Pow(256, w) == 2 * Half(w);
    BigEndianOrder(w, Unsigned(w, i), Unsigned(w, j));
  }

  lemma PowOf256()
    ensures Pow(256, 1) == 256 && Pow(256, 2) == 0x1_0000 && Pow(256, 4) == 0x1_0000_0000
    ensures Pow(256, 8) == 0x1_0000_0000_0000_0000
  {
    assert Pow(256, 1) == 256;
    assert Pow(256, 2) == 256 * Pow(256, 1);
    assert Pow(256, 3) == 256 * Pow(256, 2);
    assert Pow(256, 4) == 256 * Pow(256, 3);
    assert Pow(256, 5) == 256 * Pow(256, 4);
    assert Pow(256, 6) == 256 * Pow(256, 5);
    assert Pow(256, 7) == 256 * Pow(256, 6);
    assert Pow(256, 8) == 256 * Pow(256, 7);
  }
}
