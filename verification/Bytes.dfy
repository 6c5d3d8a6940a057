/** Bytes, big-endian integers and the small sequence facts shared by the codecs. */
module Bytes {

  type byte = x: int | 0 <= x < 256

  type Buf = seq<byte>

  const U16: nat := 0x1_0000
  const U32: nat := 0x1_0000_0000
  const U64: nat := 0x1_0000_0000_0000_0000

  datatype Option<+T> = None | Some(value: T)

  function Pow256(k: nat): (p: nat)
    ensures p > 0
  {
    if k == 0 then 1 else 256 * Pow256(k - 1)
  }

  /** The `k` low bytes of `n`, most significant first; higher bytes are cut off, as a Go conversion does. */
  function PutBE(n: nat, k: nat): (b: Buf)
    ensures |b| == k
  {
    if k == 0 then [] else PutBE(n / 256, k - 1) + [n % 256]
  }

  function GetBE(b: Buf): nat {
    if b == [] then 0 else 256 * GetBE(b[..|b| - 1]) + b[|b| - 1]
  }

  lemma {:induction false} GetPutBE(n: nat, k: nat)
    ensures GetBE(PutBE(n, k)) == n % Pow256(k)
  {
    if k == 0 {
    } else {
      var b := PutBE(n, k);
      assert b[..|b| - 1] == PutBE(n / 256, k - 1);
      GetPutBE(n / 256, k - 1);
      ModSplit(n, Pow256(k - 1));
    }
  }

  lemma ModSplit(n: nat, p: nat)
    requires p > 0
    ensures n % (256 * p) == 256 * (n / 256 % p) + n % 256
  {
    var q, r := n / 256, n % 256;
    var d, m := q / p, q % p;
    assert q == d * p + m;
    assert n == (256 * p) * d + (256 * m + r) by {
      assert n == 256 * q + r;
      assert 256 * (d * p) == (256 * p) * d;
    }
    assert 0 <= 256 * m + r < 256 * p;
    DivModUnique(n, 256 * p, d, 256 * m + r);
  }

  lemma DivModUnique(n: nat, m: nat, q: nat, r: nat)
    requires r < m && n == m * q + r
    ensures n % m == r && n / m == q
  {
    var q', r' := n / m, n % m;
    assert n == m * q' + r' && 0 <= r' < m;
    assert m * (q - q') == r' - r;
    MulBound(m, q - q');
  }

  lemma MulBound(m: nat, d: int)
    ensures d >= 1 ==> m * d >= m
    ensures d <= -1 ==> m * d + m <= 0
  {
  }

  lemma Pow256Values()
    ensures Pow256(2) == U16 && Pow256(4) == U32 && Pow256(8) == U64
  {
    assert Pow256(1) == 256;
    assert Pow256(2) == 0x1_0000;
    assert Pow256(3) == 0x100_0000;
    assert Pow256(4) == 0x1_0000_0000;
    assert Pow256(5) == 0x100_0000_0000;
    assert Pow256(6) == 0x1_0000_0000_0000;
    assert Pow256(7) == 0x100_0000_0000_0000;
  }

  lemma {:induction false} GetBEBound(b: Buf)
    ensures GetBE(b) < Pow256(|b|)
  {
    if b == [] {
    } else {
      GetBEBound(b[..|b| - 1]);
    }
  }

  lemma {:induction false} PutGetBE(b: Buf)
    ensures PutBE(GetBE(b), |b|) == b
  {
    if b == [] {
    } else {
      var lo := b[|b| - 1];
      PutGetBE(b[..|b| - 1]);
      assert GetBE(b) / 256 == GetBE(b[..|b| - 1]) && GetBE(b) % 256 == lo;
    }
  }

  // ----- Big-endian integers written out

  function Be16(n: nat): (b: Buf)
    ensures |b| == 2
  {
    [n / 0x100 % 256, n % 256]
  }

  function Be32(n: nat): (b: Buf)
    ensures |b| == 4
  {
    [n / 0x100_0000 % 256, n / 0x1_0000 % 256, n / 0x100 % 256, n % 256]
  }

  function Be64(n: nat): (b: Buf)
    ensures |b| == 8
  {
    [n / 0x100_0000_0000_0000 % 256, n / 0x1_0000_0000_0000 % 256, n / 0x100_0000_0000 % 256, n / 0x1_0000_0000 % 256,
     n / 0x100_0000 % 256, n / 0x1_0000 % 256, n / 0x100 % 256, n % 256]
  }

  lemma DivTwice(n: nat, a: nat, b: nat)
    requires a > 0 && b > 0
    ensures a * b > 0 && n / a / b == n / (a * b)
  {
    var q, r := n / a, n % a;
    var d, m := q / b, q % b;
    DivMod(n, a);
    DivMod(q, b);
    MulSum(a, b, d, m);
    MulBelow(a, b, m);
    DivModUnique(n, a * b, d, a * m + r);
  }

  lemma DivMod(n: nat, a: nat)
    requires a > 0
    ensures n == a * (n / a) + n % a
  {
  }

  lemma MulSum(a: nat, b: nat, d: nat, m: nat)
    ensures a * (b * d + m) == (a * b) * d + a * m
  {
  }

  lemma {:induction false} MulBelow(a: nat, b: nat, m: nat)
    requires a > 0 && m < b
    ensures a * b > 0 && a * m + a <= a * b
  {
    MulNext(a, b - 1);
    if m + 1 < b {
      MulBelow(a, b - 1, m);
    } else {
      MulNext(a, m);
    }
  }

  lemma MulNext(a: nat, b: nat)
    ensures a * (b + 1) == a * b + a && a * b >= 0
  {
  }

  lemma Halves(n: nat)
    ensures Be32(n) == Be16(n / 0x1_0000) + Be16(n)
    ensures Be64(n) == Be32(n / 0x1_0000_0000) + Be32(n)
  {
    DivTwice(n, 0x1_0000, 0x100);
    DivTwice(n, 0x1_0000_0000, 0x100);
    DivTwice(n, 0x1_0000_0000, 0x1_0000);
    DivTwice(n, 0x1_0000_0000, 0x100_0000);
  }

  lemma PutBEIsBigEndian(n: nat)
    ensures PutBE(n, 2) == Be16(n) && PutBE(n, 4) == Be32(n) && PutBE(n, 8) == Be64(n)
  {
    hide PutBE;
    Pairs(n);
    Pairs(n / 0x1_0000_0000);
    Halves(n);
    hide Be16, Be32, Be64;
    var m := n / 0x1_0000;
    PutBETwice(n, 8);
    PutBETwice(m, 6);
    DivTwice(n, 0x1_0000, 0x1_0000);
    PutBETwice(n, 4);
    NoBytes(m);
    assert PutBE(n, 8) == PutBE(n / 0x1_0000_0000, 4) + Be16(m) + Be16(n);
    Halves(n);
    assert PutBE(n / 0x1_0000_0000, 4) + Be16(m) + Be16(n) == PutBE(n / 0x1_0000_0000, 4) + (Be16(m) + Be16(n));
  }

  lemma NoBytes(n: nat)
    ensures PutBE(n, 0) == []
  {
  }

  lemma Pairs(n: nat)
    ensures PutBE(n, 2) == Be16(n) && PutBE(n, 4) == Be32(n)
  {
    hide PutBE;
    PutBETwice(n, 2);
    PutBETwice(n, 4);
    PutBETwice(n / 0x1_0000, 2);
    NoBytes(n / 0x1_0000);
    NoBytes(n / 0x1_0000 / 0x1_0000);
    Halves(n);
  }

  lemma PutBETwice(n: nat, k: nat)
    requires k >= 2
    ensures PutBE(n, k) == PutBE(n / 0x1_0000, k - 2) + Be16(n)
  {
    assert n / 256 / 256 == n / 0x1_0000;
    assert PutBE(n, k) == PutBE(n / 256, k - 1) + [n % 256];
    assert PutBE(n / 256, k - 1) == PutBE(n / 256 / 256, k - 2) + [n / 256 % 256];
  }

  function Put16(n: nat): (b: Buf)
    ensures |b| == 2
    ensures GetBE(b) == n % U16
  {
    GetPutBE(n, 2);
    Pow256Values();
    PutBE(n, 2)
  }

  function Put32(n: nat): (b: Buf)
    ensures |b| == 4
    ensures GetBE(b) == n % U32
  {
    GetPutBE(n, 4);
    Pow256Values();
    PutBE(n, 4)
  }

  function Put64(n: nat): (b: Buf)
    ensures |b| == 8
    ensures GetBE(b) == n % U64
  {
    GetPutBE(n, 8);
    Pow256Values();
    PutBE(n, 8)
  }

  function Concat(bs: seq<Buf>): Buf {
    if bs == [] then [] else bs[0] + Concat(bs[1..])
  }

  lemma {:induction false} ConcatAppend(a: seq<Buf>, b: seq<Buf>)
    ensures Concat(a + b) == Concat(a) + Concat(b)
  {
    if a == [] {
      assert a + b == b;
    } else {
      assert (a + b)[1..] == a[1..] + b;
      ConcatAppend(a[1..], b);
    }
  }

  lemma SameFront<T>(front: seq<T>, x: seq<T>, y: seq<T>)
    ensures front + x == front + y <==> x == y
  {
    assert (front + x)[|front|..] == x && (front + y)[|front|..] == y;
  }

  /** What a reader loop has read, put before what it will read. */
  ghost function Prepend<T>(read: seq<T>, more: Option<seq<T>>): Option<seq<T>> {
    match more case None => None case Some(ts) => Some(read + ts)
  }

  lemma PrependMore<T>(read: seq<T>, t: T, more: Option<seq<T>>)
    ensures Prepend(read + [t], more) == Prepend(read, Prepend([t], more))
  {
    if more.Some? {
      assert read + ([t] + more.value) == read + [t] + more.value;
    }
  }

  lemma PrependNothing<T>(read: seq<T>, more: Option<seq<T>>)
    ensures Prepend([], more) == more && Prepend(read, Some([])) == Some(read) && Prepend(read, None) == None
  {
    if more.Some? {
      assert [] + more.value == more.value;
    }
    assert read + [] == read;
  }
}
