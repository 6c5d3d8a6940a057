/** Base-128 varints as pkg/network/protobuf.go writes and reads them (Protocol Buffers Encoding guide). */
module Varints {
  import opened Bytes

  type u64 = x: int | 0 <= x < 0x1_0000_0000_0000_0000

  const I63: nat := 0x8000_0000_0000_0000

  function Pow128(k: nat): (p: nat)
    ensures p > 0
  {
    if k == 0 then 1 else 128 * Pow128(k - 1)
  }

  /** Seven bits a byte, least significant first; the high bit says that more bytes follow. */
  function Varint(v: nat): (b: Buf)
    ensures b != []
  {
    if v < 128 then [v] else [v % 128 + 128] + Varint(v / 128)
  }

  /** The number whose base-128 digits, least significant first, are the low seven bits of each byte. */
  function Digits(b: Buf): nat {
    if b == [] then 0 else b[0] % 128 + 128 * Digits(b[1..])
  }

  /** How many bytes the varint at the front of `b` has, if it ends within `max` bytes. */
  function VarintLength(b: Buf, max: nat): (n: Option<nat>)
    ensures n.Some? ==> 1 <= n.value <= |b| && n.value <= max
    decreases max
  {
    if b == [] || max == 0 then None
    else if b[0] < 128 then Some(1)
    else match VarintLength(b[1..], max - 1) case None => None case Some(n) => Some(n + 1)
  }

  /** The value, cut to 64 bits, and its length; a varint of more than ten bytes is refused. */
  function DecodeVarint(b: Buf): (r: Option<(u64, nat)>)
    ensures r.Some? ==> 1 <= r.value.1 <= |b|
  {
    match VarintLength(b, 10)
    case None => None
    case Some(n) => Some((Digits(b[..n]) % U64, n))
  }

  method EncodeVarint(v: u64) returns (buf: Buf)
    ensures buf == Varint(v)
  {
    buf := [];
    var val: int := v;
    while val >= 0x80
      invariant 0 <= val && Varint(v) == buf + Varint(val)
    {
      buf := buf + [val % 128 + 128];
      val := val / 128;
    }
    buf := buf + [val];
  }

  lemma {:induction false} DigitsSnoc(b: Buf, x: byte)
    ensures Digits(b + [x]) == Digits(b) + x % 128 * Pow128(|b|)
  {
    if b == [] {
      assert [] + [x] == [x];
    } else {
      assert (b + [x])[1..] == b[1..] + [x];
      DigitsSnoc(b[1..], x);
      assert 128 * (x % 128 * Pow128(|b| - 1)) == x % 128 * (128 * Pow128(|b| - 1));
    }
  }

  lemma {:induction false} DigitsBound(b: Buf)
    ensures Digits(b) < Pow128(|b|)
  {
    if b != [] {
      DigitsBound(b[1..]);
    }
  }

  lemma {:induction false} Pow128Monotonic(i: nat, j: nat)
    requires i <= j
    ensures Pow128(i) <= Pow128(j)
  {
    if i < j {
      Pow128Monotonic(i, j - 1);
    }
  }

  lemma Pow128Next(k: nat)
    ensures Pow128(k + 1) == 128 * Pow128(k)
  {
  }

  lemma Pow128Nine()
    ensures Pow128(9) == I63 && Pow128(10) == 64 * U64
  {
    assert Pow128(3) == 0x20_0000;
    assert Pow128(6) == 0x400_0000_0000;
    assert Pow128(9) == 0x8000_0000_0000_0000;
  }

  /** `n` bytes are skipped that do not end the varint. */
  lemma {:induction false} VarintLengthSkip(b: Buf, n: nat, max: nat)
    requires n <= |b| && n <= max && forall i | 0 <= i < n :: b[i] >= 128
    ensures VarintLength(b, max) ==
      match VarintLength(b[n..], max - n) case None => None case Some(k) => Some(n + k)
  {
    if n == 0 {
      assert b[0..] == b;
    } else {
      VarintLengthSkip(b[1..], n - 1, max - 1);
      assert b[1..][n - 1..] == b[n..];
    }
  }

  lemma DigitTimes(x: nat, p: nat)
    requires x < 128
    ensures 0 <= x * p <= 127 * p
  {
    assert (127 - x) * p >= 0;
  }

  /** A digit below the tenth is not cut. */
  lemma DigitFits(val: nat, x: nat, i: nat)
    requires i < 9 && val < Pow128(i) && x < 128
    ensures x * Pow128(i) % U64 == x * Pow128(i) && val + x * Pow128(i) < U64
  {
    Pow128Nine();
    Pow128Monotonic(i + 1, 9);
    var p := Pow128(i);
    assert Pow128(i + 1) == 128 * p;
    DigitTimes(x, p);
    hide Pow128;
    var t := x * p;
    assert 0 <= val + t < U64;
  }

  /** Of the tenth digit one bit is left. */
  lemma TenthDigit(val: nat, x: nat)
    requires val < I63 && x < 128
    ensures val + x * I63 % U64 == (val + x * I63) % U64 && val + x * I63 % U64 < U64
  {
    var q, r := x / 2, x % 2;
    DivModUnique(x * I63, U64, q, r * I63);
    DivModUnique(val + x * I63, U64, q, val + r * I63);
  }

  lemma NextDigit(data: Buf, i: nat, val: nat, scale: nat)
    requires i < |data| && i < 10 && val == Digits(data[..i]) && scale == Pow128(i)
    ensures val + data[i] % 128 * scale % U64 == Digits(data[..i + 1]) % U64
    ensures i < 9 ==> val + data[i] % 128 * scale % U64 == Digits(data[..i + 1])
  {
    DigitsSnoc(data[..i], data[i]);
    DigitsBound(data[..i]);
    assert data[..i + 1] == data[..i] + [data[i]];
    hide Digits;
    if i < 9 {
      DigitFits(val, data[i] % 128, i);
    } else {
      Pow128Nine();
      TenthDigit(val, data[i] % 128);
    }
  }

  /** The source ORs each digit in; the digits do not overlap, so that is addition, cut to 64 bits by the shift. */
  method DecodeVarintLoop(data: Buf) returns (r: Option<(u64, nat)>)
    ensures r == DecodeVarint(data)
  {
    hide VarintLength, Digits, Pow128;
    Starts(data);
    var val: nat, shift, scale := 0, 0, 1;
    for i := 0 to |data|
      invariant i < 10 && shift == 7 * i && scale == Pow128(i)
      invariant forall j | 0 <= j < i :: data[j] >= 128
      invariant val == Digits(data[..i])
    {
      NextDigit(data, i, val, scale);
      Ends(data, i);
      val := val + data[i] % 128 * scale % U64;
      if data[i] < 128 {
        return Some((val, i + 1));
      }
      shift, scale := shift + 7, 128 * scale;
      Pow128Next(i);
      if shift >= 64 {
        return None;
      }
    }
    Ends(data, |data|);
    r := None;
  }

  lemma Starts(data: Buf)
    ensures Digits(data[..0]) == 0 && Pow128(0) == 1
  {
  }

  /** What the `i`-th byte says when the ones before it do not end the varint. */
  lemma Ends(data: Buf, i: nat)
    requires i <= |data| && i < 10 && forall j | 0 <= j < i :: data[j] >= 128
    ensures i == |data| ==> VarintLength(data, 10) == None
    ensures i < |data| && data[i] < 128 ==> VarintLength(data, 10) == Some(i + 1)
    ensures i == 9 && i < |data| && data[i] >= 128 ==> VarintLength(data, 10) == None
  {
    VarintLengthSkip(data, i, 10);
    hide VarintLength;
    FirstByte(data[i..], 10 - i);
  }

  lemma FirstByte(b: Buf, max: nat)
    ensures b == [] ==> VarintLength(b, max) == None
    ensures b != [] && max > 0 && b[0] < 128 ==> VarintLength(b, max) == Some(1)
    ensures b != [] && max == 1 && b[0] >= 128 ==> VarintLength(b, max) == None
  {
  }

  predicate HighUpTo(b: Buf, n: int) { forall i | 0 <= i < n && i < |b| :: b[i] >= 128 }

  lemma HighTail(b: Buf, n: int)
    requires b != [] && n > 0
    ensures HighUpTo(b, n) <==> b[0] >= 128 && HighUpTo(b[1..], n - 1)
  {
    if b[0] >= 128 && HighUpTo(b[1..], n - 1) {
      forall i | 0 <= i < n && i < |b|
        ensures b[i] >= 128
      {
        assert i > 0 ==> b[i] == b[1..][i - 1];
      }
    }
  }

  lemma {:induction false} LengthExactly(b: Buf, max: nat, n: nat)
    ensures VarintLength(b, max) == Some(n) <==> 1 <= n <= |b| && n <= max && b[n - 1] < 128 && HighUpTo(b, n - 1)
  {
    hide HighUpTo;
    if b != [] && max > 0 && n > 0 {
      if n == 1 {
        NothingHigh(b);
      } else {
        HighTail(b, n - 1);
        if b[0] >= 128 {
          LengthExactly(b[1..], max - 1, n - 1);
        }
      }
    }
  }

  lemma NothingHigh(b: Buf)
    ensures HighUpTo(b, 0)
  {
  }

  /** A varint is read exactly up to the first byte below 128, which must be among the first ten. */
  lemma AcceptedExactly(b: Buf, n: nat)
    ensures DecodeVarint(b).Some? && DecodeVarint(b).value.1 == n <==>
      1 <= n <= |b| && n <= 10 && b[n - 1] < 128 && forall i | 0 <= i < n - 1 :: b[i] >= 128
  {
    LengthExactly(b, 10, n);
    hide VarintLength, Digits;
  }

  lemma {:induction false} DigitsOfVarint(v: nat)
    ensures Digits(Varint(v)) == v
  {
    if v >= 128 {
      DigitsOfVarint(v / 128);
      assert Varint(v)[1..] == Varint(v / 128);
    }
  }

  lemma {:induction false} VarintLengthOfVarint(v: nat, rest: Buf, max: nat)
    requires v < Pow128(max) && max > 0
    ensures VarintLength(Varint(v) + rest, max) == Some(|Varint(v)|)
  {
    if v < 128 {
      assert max > 0 && (Varint(v) + rest)[0] == v;
    } else {
      assert max > 0 && (Varint(v) + rest)[0] == v % 128 + 128;
      assert (Varint(v) + rest)[1..] == Varint(v / 128) + rest;
      VarintLengthOfVarint(v / 128, rest, max - 1);
    }
  }

  /** Every 64-bit value comes back from its varint, whatever follows it. */
  lemma VarintRoundTrip(v: u64, rest: Buf)
    ensures DecodeVarint(Varint(v) + rest) == Some((v, |Varint(v)|))
  {
    Pow128Nine();
    VarintLengthOfVarint(v, rest, 10);
    assert (Varint(v) + rest)[..|Varint(v)|] == Varint(v);
    DigitsOfVarint(v);
  }

  lemma {:induction false} VarintLengthPrefix(a: Buf, b: Buf, max: nat)
    requires VarintLength(a, max).Some?
    ensures VarintLength(a + b, max) == VarintLength(a, max)
  {
    if a[0] >= 128 {
      assert (a + b)[1..] == a[1..] + b;
      VarintLengthPrefix(a[1..], b, max - 1);
    }
  }

  lemma DecodeVarintPrefix(a: Buf, b: Buf)
    requires DecodeVarint(a).Some?
    ensures DecodeVarint(a + b) == DecodeVarint(a)
  {
    VarintLengthPrefix(a, b, 10);
    var n := DecodeVarint(a).value.1;
    assert (a + b)[..n] == a[..n];
  }

  /** A number of `k` base-128 digits takes `k` bytes. */
  lemma {:induction false} VarintSize(v: nat, k: nat)
    requires 1 <= k && v < Pow128(k)
    ensures |Varint(v)| <= k
    ensures Pow128(k - 1) <= v ==> |Varint(v)| == k
  {
    if v >= 128 {
      assert k > 1;
      VarintSize(v / 128, k - 1);
      if Pow128(k - 1) <= v {
        assert Pow128(k - 1) == 128 * Pow128(k - 2);
      }
    } else if k > 1 {
      Pow128Monotonic(1, k - 1);
    }
  }
}
