/** Node identifiers, XOR distance and common prefixes (pkg/dht/routing.go). */
module NodeId {
  import opened Bytes

  const ID_SIZE: nat := 32

  type Id = s: Buf | |s| == 32 witness seq(32, _ => 0)

  // ----- Exclusive or of bytes, bit by bit

  function Pow2(k: nat): (p: nat)
    ensures p > 0
  {
    if k == 0 then 1 else 2 * Pow2(k - 1)
  }

  /** The exclusive or of the low `k` bits of two numbers. */
  function XorBits(x: nat, y: nat, k: nat): (z: nat)
    ensures z < Pow2(k)
  {
    if k == 0 then 0
    else 2 * XorBits(x / 2, y / 2, k - 1) + (if x % 2 != y % 2 then 1 else 0)
  }

  /** Bit `j` is set in exactly one of two numbers when it is set in their exclusive or. */
  lemma {:induction false} XorBitAt(x: nat, y: nat, k: nat, j: nat)
    requires j < k
    ensures XorBits(x, y, k) / Pow2(j) % 2 == 1 <==> x / Pow2(j) % 2 != y / Pow2(j) % 2
  {
    var z := XorBits(x, y, k);
    XorHead(x, y, k);
    hide XorBits, Pow2;
    if j == 0 {
      LowestBit();
    } else {
      XorBitAt(x / 2, y / 2, k - 1, j - 1);
      DivPow2(x, j);
      DivPow2(y, j);
      DivPow2(z, j);
    }
  }

  lemma XorHead(x: nat, y: nat, k: nat)
    requires k > 0
    ensures var z := XorBits(x, y, k); z / 2 == XorBits(x / 2, y / 2, k - 1) && (z % 2 == 1 <==> x % 2 != y % 2)
  {
  }

  lemma LowestBit()
    ensures Pow2(0) == 1 && forall x: nat :: x / 1 == x
  {
  }

  lemma DivPow2(x: nat, j: nat)
    requires j > 0
    ensures x / Pow2(j) == x / 2 / Pow2(j - 1)
  {
    DivTwice(x, 2, Pow2(j - 1));
  }

  function XorByte(x: byte, y: byte): (z: byte)
  {
    assert Pow2(8) == 256 by { Powers(); }
    XorBits(x, y, 8)
  }

  lemma Powers()
    ensures Pow2(0) == 1 && Pow2(1) == 2 && Pow2(2) == 4 && Pow2(3) == 8 && Pow2(4) == 16
    ensures Pow2(5) == 32 && Pow2(6) == 64 && Pow2(7) == 128 && Pow2(8) == 256
  {
    assert Pow2(3) == 8;
    assert Pow2(6) == 64;
  }

  lemma {:induction false} XorBitsInjective(x: nat, y: nat, t: nat, k: nat)
    requires x < Pow2(k) && y < Pow2(k)
    requires XorBits(x, t, k) == XorBits(y, t, k)
    ensures x == y
  {
    if k > 0 {
      XorBitsInjective(x / 2, y / 2, t / 2, k - 1);
    }
  }

  lemma {:induction false} XorBitsSymmetric(x: nat, y: nat, k: nat)
    ensures XorBits(x, y, k) == XorBits(y, x, k)
  {
    if k > 0 {
      XorBitsSymmetric(x / 2, y / 2, k - 1);
    }
  }

  /** The exclusive or is below `2^j` exactly when the numbers agree above their low `j` bits. */
  lemma {:induction false} XorBitsBelow(x: nat, y: nat, j: nat, k: nat)
    requires x < Pow2(k) && y < Pow2(k) && j <= k
    ensures XorBits(x, y, k) < Pow2(j) <==> x / Pow2(j) == y / Pow2(j)
  {
    if k == 0 {
    } else if j == 0 {
      XorBitsBelow(x / 2, y / 2, 0, k - 1);
    } else {
      XorBitsBelow(x / 2, y / 2, j - 1, k - 1);
      DivTwice(x, 2, Pow2(j - 1));
      DivTwice(y, 2, Pow2(j - 1));
    }
  }

  // ----- XOR distance

  function Xor(a: Buf, b: Buf): (d: Buf)
    requires |a| == |b|
    ensures |d| == |a|
  {
    if a == [] then [] else [XorByte(a[0], b[0])] + Xor(a[1..], b[1..])
  }

  method XorDistance(id1: Id, id2: Id) returns (dist: Id)
    ensures dist == Xor(id1, id2)
  {
    var d: Buf := [];
    for i := 0 to ID_SIZE
      invariant |d| == i
      invariant forall j | 0 <= j < i :: d[j] == XorByte(id1[j], id2[j])
    {
      d := d + [XorByte(id1[i], id2[i])];
    }
    forall j | 0 <= j < ID_SIZE
      ensures d[j] == Xor(id1, id2)[j]
    {
      XorIndex(id1, id2, j);
    }
    dist := d;
  }

  lemma {:induction false} XorIndex(a: Buf, b: Buf, i: nat)
    requires |a| == |b| && i < |a|
    ensures Xor(a, b)[i] == XorByte(a[i], b[i])
  {
    if i > 0 {
      XorIndex(a[1..], b[1..], i - 1);
    }
  }

  /** For a fixed target, different identifiers are at different distances. */
  lemma {:induction false} XorInjective(a: Buf, b: Buf, t: Buf)
    requires |a| == |b| == |t| && Xor(a, t) == Xor(b, t)
    ensures a == b
  {
    if a != [] {
      Powers();
      assert Xor(a, t)[0] == Xor(b, t)[0];
      XorBitsInjective(a[0], b[0], t[0], 8);
      assert Xor(a, t)[1..] == Xor(b, t)[1..];
      XorInjective(a[1..], b[1..], t[1..]);
      assert a == [a[0]] + a[1..] && b == [b[0]] + b[1..];
    }
  }

  lemma {:induction false} XorSymmetric(a: Buf, b: Buf)
    requires |a| == |b|
    ensures Xor(a, b) == Xor(b, a)
  {
    if a != [] {
      XorSymmetric(a[1..], b[1..]);
      XorBitsSymmetric(a[0], b[0], 8);
    }
  }

  // ----- The order on distances

  /** Numeric order of equally long big-endian byte strings. */
  predicate Less(d: Buf, e: Buf)
    requires |d| == |e|
  {
    d != [] && (d[0] < e[0] || (d[0] == e[0] && Less(d[1..], e[1..])))
  }

  /** The lexicographic order is the order of the numbers the strings stand for. */
  lemma {:induction false} LessIsNumeric(d: Buf, e: Buf)
    requires |d| == |e|
    ensures Less(d, e) <==> GetBE(d) < GetBE(e)
  {
    if d != [] {
      LessIsNumeric(d[1..], e[1..]);
      GetBEFront(d);
      GetBEFront(e);
      GetBEBound(d[1..]);
      GetBEBound(e[1..]);
      DigitOrder(d[0], e[0], Pow256(|d| - 1), GetBE(d[1..]), GetBE(e[1..]));
    }
  }

  lemma DigitOrder(x: int, y: int, p: nat, r: nat, s: nat)
    requires r < p && s < p
    ensures x * p + r < y * p + s <==> x < y || (x == y && r < s)
  {
    MulBound(p, x - y);
    assert x * p - y * p == p * (x - y);
  }

  lemma {:induction false} GetBEFront(d: Buf)
    requires d != []
    ensures GetBE(d) == d[0] * Pow256(|d| - 1) + GetBE(d[1..])
  {
    if |d| > 1 {
      var init, tail, last := d[..|d| - 1], d[1..], d[|d| - 1];
      GetBEFront(init);
      var mid := tail[..|tail| - 1];
      assert init[1..] == mid;
      assert GetBE(tail) == 256 * GetBE(mid) + last;
      ShiftDigit(d[0], Pow256(|init| - 1), GetBE(mid));
    }
  }

  lemma ShiftDigit(x: nat, p: nat, r: nat)
    ensures 256 * (x * p + r) == x * (256 * p) + 256 * r
  {
  }

  method CompareDistance(dist1: Id, dist2: Id) returns (c: int)
    ensures c == if Less(dist1, dist2) then -1 else if Less(dist2, dist1) then 1 else 0
    ensures c == 0 <==> dist1 == dist2
  {
    for i := 0 to ID_SIZE
      invariant dist1[..i] == dist2[..i]
      invariant Less(dist1, dist2) == Less(dist1[i..], dist2[i..])
      invariant Less(dist2, dist1) == Less(dist2[i..], dist1[i..])
    {
      assert dist1[i..][1..] == dist1[i + 1..] && dist2[i..][1..] == dist2[i + 1..];
      if dist1[i] < dist2[i] {
        return -1;
      }
      if dist1[i] > dist2[i] {
        return 1;
      }
    }
    assert dist1[ID_SIZE..] == [] && dist2[ID_SIZE..] == [];
    return 0;
  }

  lemma {:induction false} LessTransitive(a: Buf, b: Buf, c: Buf)
    requires |a| == |b| == |c| && Less(a, b) && Less(b, c)
    ensures Less(a, c)
  {
    if a[0] == b[0] == c[0] {
      LessTransitive(a[1..], b[1..], c[1..]);
    }
  }

  lemma {:induction false} LessTotal(a: Buf, b: Buf)
    requires |a| == |b|
    ensures !(Less(a, b) && Less(b, a))
    ensures a == b || Less(a, b) || Less(b, a)
    ensures a == b ==> !Less(a, b)
  {
    if a != [] {
      LessTotal(a[1..], b[1..]);
      assert a == [a[0]] + a[1..] && b == [b[0]] + b[1..];
    }
  }

  /** `a` is strictly nearer to `target` than `b` is. */
  predicate Nearer(a: Id, b: Id, target: Id) { Less(Xor(a, target), Xor(b, target)) }

  lemma NearerTransitive(a: Id, b: Id, c: Id, target: Id)
    requires Nearer(a, b, target) && Nearer(b, c, target)
    ensures Nearer(a, c, target)
  {
    LessTransitive(Xor(a, target), Xor(b, target), Xor(c, target));
  }

  lemma NearerTotal(a: Id, b: Id, target: Id)
    ensures !(Nearer(a, b, target) && Nearer(b, a, target))
    ensures a == b || Nearer(a, b, target) || Nearer(b, a, target)
    ensures a == b ==> !Nearer(a, b, target)
  {
    LessTotal(Xor(a, target), Xor(b, target));
    if Xor(a, target) == Xor(b, target) {
      XorInjective(a, b, target);
    }
  }

  // ----- Common prefixes

  /** The number of leading zero bits of a byte: how far its highest set bit is from the top. */
  function ByteZeros(x: byte): (n: nat)
    ensures n <= 8
  {
    if x >= 128 then 0 else if x >= 64 then 1 else if x >= 32 then 2 else if x >= 16 then 3
    else if x >= 8 then 4 else if x >= 4 then 5 else if x >= 2 then 6 else if x >= 1 then 7 else 8
  }

  /** The number of leading zero bits of a distance. */
  function Zeros(d: Buf): (n: nat)
    ensures n <= 8 * |d|
  {
    if d == [] then 0 else if d[0] == 0 then 8 + Zeros(d[1..]) else ByteZeros(d[0])
  }

  /** The bucket of `other` in the table of `local`: leading zeros of the distance, at most 255. */
  function Prefix(local: Id, other: Id): (n: nat)
    ensures n <= 255
  {
    var z := Zeros(Xor(local, other));
    if z > 255 then 255 else z
  }

  /** `xor & (1 << b) != 0` */
  predicate BitSet(x: byte, b: nat) { x / Pow2(b) % 2 == 1 }

  lemma BitAbove(x: byte, b: nat)
    requires b < 8 && x < Pow2(b + 1)
    ensures BitSet(x, b) <==> x >= Pow2(b)
  {
    Powers();
    if x >= Pow2(b) {
      DivModUnique(x, Pow2(b), 1, x - Pow2(b));
    } else {
      DivModUnique(x, Pow2(b), 0, x);
    }
  }

  /** The inner loop of the prefix count: leading zeros of one non-zero byte. */
  method CountByteZeros(xor: byte) returns (n: nat)
    requires xor != 0
    ensures n == ByteZeros(xor)
  {
    Powers();
    n := 0;
    var b := 8;
    while b > 0
      invariant b <= 8 && n == 8 - b
      invariant xor < Pow2(b)
    {
      BitAbove(xor, b - 1);
      b := b - 1;
      if BitSet(xor, b) {
        break;
      }
      n := n + 1;
    }
  }

  method CommonPrefixLength(id1: Id, id2: Id) returns (cpl: nat)
    ensures cpl == Prefix(id1, id2)
  {
    cpl := 0;
    ghost var d := Xor(id1, id2);
    assert d[0..] == d;
    var i := 0;
    while i < ID_SIZE
      invariant i <= ID_SIZE && cpl == 8 * i
      invariant Zeros(d) == cpl + Zeros(d[i..])
    {
      assert d[i..][1..] == d[i + 1..];
      XorIndex(id1, id2, i);
      var xor := XorByte(id1[i], id2[i]);
      if xor == 0 {
        cpl := cpl + 8;
        i := i + 1;
        continue;
      }
      var n := CountByteZeros(xor);
      cpl := cpl + n;
      break;
    }
    if cpl > 255 {
      cpl := 255;
    }
  }

  /** The first `n` bits of two byte strings are equal. */
  predicate AgreeOn(a: Buf, b: Buf, n: nat)
    requires |a| == |b| && n <= 8 * |a|
  {
    if n == 0 then true
    else if n < 8 then a[0] / Pow2(8 - n) == b[0] / Pow2(8 - n)
    else a[0] == b[0] && AgreeOn(a[1..], b[1..], n - 8)
  }

  lemma ByteZerosBound(z: byte, n: nat)
    requires n <= 8
    ensures n <= ByteZeros(z) <==> z < Pow2(8 - n)
  {
    Powers();
  }

  lemma ByteXorZeros(x: byte, y: byte, n: nat)
    requires n <= 8
    ensures n <= ByteZeros(XorByte(x, y)) <==> x / Pow2(8 - n) == y / Pow2(8 - n)
  {
    assert x < Pow2(8) && y < Pow2(8) by { Powers(); }
    ByteZerosBound(XorByte(x, y), n);
    XorBitsBelow(x, y, 8 - n, 8);
  }

  lemma ByteXorIsZero(x: byte, y: byte)
    ensures XorByte(x, y) == 0 <==> x == y
  {
    Powers();
    XorBitsBelow(x, y, 0, 8);
  }

  lemma {:induction false} ZerosAgree(a: Buf, b: Buf, n: nat)
    requires |a| == |b| && n <= 8 * |a|
    ensures AgreeOn(a, b, n) <==> n <= Zeros(Xor(a, b))
  {
    if n > 0 {
      ByteXorIsZero(a[0], b[0]);
      ByteXorZeros(a[0], b[0], if n < 8 then n else 8);
      if n >= 8 {
        ZerosAgree(a[1..], b[1..], n - 8);
      }
    }
  }

  lemma {:induction false} AgreeOnAll(a: Buf, b: Buf)
    requires |a| == |b|
    ensures AgreeOn(a, b, 8 * |a|) <==> a == b
  {
    if a != [] {
      AgreeOnAll(a[1..], b[1..]);
      assert a == [a[0]] + a[1..] && b == [b[0]] + b[1..];
    }
  }

  /**
   * The prefix count of two different identifiers is the number of leading bits in which they agree; for
   * equal identifiers it is cut to 255.
   */
  lemma PrefixCountsEqualBits(local: Id, other: Id, n: nat)
    requires n <= 8 * ID_SIZE
    ensures local != other ==> (AgreeOn(local, other, n) <==> n <= Prefix(local, other))
    ensures local == other ==> AgreeOn(local, other, n) && Prefix(local, other) == 255
  {
    ZerosAgree(local, other, n);
    ZerosAgree(local, other, 8 * ID_SIZE);
    AgreeOnAll(local, other);
  }

  lemma {:induction false} MoreZerosIsLess(d: Buf, e: Buf)
    requires |d| == |e| && Zeros(d) > Zeros(e)
    ensures Less(d, e)
  {
    if d[0] == 0 && e[0] == 0 {
      MoreZerosIsLess(d[1..], e[1..]);
    }
  }

  /** Bucket order is distance order: a longer common prefix with the local identifier is strictly nearer to it. */
  lemma LongerPrefixIsNearer(local: Id, x: Id, y: Id)
    requires Prefix(local, x) > Prefix(local, y)
    ensures Nearer(x, y, local)
  {
    XorSymmetric(local, x);
    XorSymmetric(local, y);
    MoreZerosIsLess(Xor(x, local), Xor(y, local));
  }
}
