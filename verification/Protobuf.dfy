/** The hand-written protobuf codec (pkg/network/protobuf.go; Protocol Buffers Encoding guide). */
module Protobuf {
  import opened Bytes
  import opened Varints

  const MAX_FRAME: nat := 8 * 1024 * 1024

  // ----- Fields

  datatype Field = Number(num: nat, val: u64) | Bytes(num: nat, value: Buf)

  /** How a pass over a buffer ends: without error, with an error, or in a slice expression out of range. */
  datatype End = Done | Failed | Panicked

  /** A tag, the varint after it, and the length of both; other wire types than 0 and 2 are refused. */
  function ReadHead(s: Buf): (r: Option<(u64, u64, nat)>)
    ensures r.Some? ==> 0 < r.value.2 <= |s| && (r.value.0 % 8 == 0 || r.value.0 % 8 == 2)
  {
    match DecodeVarint(s)
    case None => None
    case Some((tag, n)) =>
      if tag % 8 != 0 && tag % 8 != 2 then None
      else match DecodeVarint(s[n..]) case None => None case Some((val, k)) => Some((tag, val, n + k))
  }

  datatype Step = Next(field: Field, size: nat) | Stop(end: End)

  /** One turn of the field loop at `offset`, with `s` the bytes from there on. */
  function ParseField(s: Buf, offset: nat): (r: Step)
    ensures r.Next? ==> 0 < r.size <= |s|
    ensures r.Stop? ==> !r.end.Done?
  {
    match ReadHead(s)
    case None => Stop(Failed)
    case Some((tag, val, n)) =>
      if tag % 8 == 0 then Next(Number(tag / 8, val), n)
      // In 64-bit signed arithmetic the end of the field would be negative.
      else if val >= I63 || offset + n + val >= I63 then Stop(Panicked)
      else if n + val > |s| then Stop(Failed)
      else Next(Bytes(tag / 8, s[n..n + val]), n + val)
  }

  datatype Parse = Parse(fields: seq<Field>, end: End)

  /** The fields handled, in order, and how the loop ends. */
  function ParseFrom(s: Buf, offset: nat): Parse
    decreases |s|
  {
    if s == [] then Parse([], Done)
    else
      match ParseField(s, offset)
      case Stop(end) => Parse([], end)
      case Next(f, n) => var rest := ParseFrom(s[n..], offset + n); Parse([f] + rest.fields, rest.end)
  }

  /** The receiver after the fields have been handed to it one by one. */
  function Handle<T>(handle: (T, Field) -> T, m: T, fs: seq<Field>): T
    decreases |fs|
  {
    if fs == [] then m else Handle(handle, handle(m, fs[0]), fs[1..])
  }

  /** The receiver and how the field loop ends; on an error the fields before it have been set. */
  function Outcome<T>(handle: (T, Field) -> T, m: T, s: Buf, offset: nat): (T, End) {
    var p := ParseFrom(s, offset);
    (Handle(handle, m, p.fields), p.end)
  }

  function Unmarshal<T>(handle: (T, Field) -> T, m: T, data: Buf): (T, End) {
    if |data| > MAX_FRAME then (m, Failed) else Outcome(handle, m, data, 0)
  }

  lemma ParseFromNext(s: Buf, offset: nat)
    requires ParseField(s, offset).Next? && s != []
    ensures var r := ParseField(s, offset);
      var rest := ParseFrom(s[r.size..], offset + r.size);
      ParseFrom(s, offset) == Parse([r.field] + rest.fields, rest.end)
  {
    hide ParseField;
  }

  lemma ParseFromStop(s: Buf, offset: nat)
    requires ParseField(s, offset).Stop? && s != []
    ensures ParseFrom(s, offset) == Parse([], ParseField(s, offset).end) && !ParseFrom(s, offset).end.Done?
  {
    hide ParseField;
  }

  lemma ParseFromEmpty(offset: nat)
    ensures ParseFrom([], offset) == Parse([], Done)
  {
  }

  lemma HandleFirst<T>(handle: (T, Field) -> T, m: T, f: Field, fs: seq<Field>)
    ensures Handle(handle, m, [f] + fs) == Handle(handle, handle(m, f), fs)
  {
    assert ([f] + fs)[1..] == fs;
  }

  /** With `m` the receiver at `offset`, the rest of the loop leads to the outcome of the whole. */
  ghost predicate Reaches<T(!new)>(handle: (T, Field) -> T, receiver: T, data: Buf, m: T, offset: nat) {
    && offset <= |data| <= MAX_FRAME
    && Unmarshal(handle, receiver, data) == Outcome(handle, m, data[offset..], offset)
  }

  lemma TooLong<T(!new)>(handle: (T, Field) -> T, receiver: T, data: Buf)
    requires |data| > MAX_FRAME
    ensures Unmarshal(handle, receiver, data) == (receiver, Failed)
  {
  }

  lemma LoopStarts<T(!new)>(handle: (T, Field) -> T, receiver: T, data: Buf)
    requires |data| <= MAX_FRAME
    ensures Reaches(handle, receiver, data, receiver, 0)
  {
    assert data[0..] == data;
    hide Outcome;
  }

  lemma LoopTurns<T(!new)>(handle: (T, Field) -> T, receiver: T, data: Buf, m: T, offset: nat, f: Field, n: nat)
    requires Reaches(handle, receiver, data, m, offset)
    requires offset + n <= |data| && offset < |data| && ParseField(data[offset..], offset) == Next(f, n)
    ensures Reaches(handle, receiver, data, handle(m, f), offset + n)
  {
    hide ParseField, ParseFrom, Handle, Unmarshal;
    ParseFromNext(data[offset..], offset);
    assert data[offset..][n..] == data[offset + n..];
    HandleFirst(handle, m, f, ParseFrom(data[offset + n..], offset + n).fields);
  }

  lemma LoopEnds<T(!new)>(handle: (T, Field) -> T, receiver: T, data: Buf, m: T, offset: nat)
    requires Reaches(handle, receiver, data, m, offset)
    ensures offset == |data| ==> Unmarshal(handle, receiver, data) == (m, Done)
    ensures offset < |data| && ParseField(data[offset..], offset).Stop? ==>
      Unmarshal(handle, receiver, data) == (m, ParseField(data[offset..], offset).end)
  {
    hide ParseField, ParseFrom, Unmarshal;
    if offset == |data| {
      assert data[offset..] == [];
      ParseFromEmpty(offset);
    } else if ParseField(data[offset..], offset).Stop? {
      ParseFromStop(data[offset..], offset);
    }
  }

  lemma SliceOfTail(data: Buf, start: nat, from: nat, to: nat)
    requires start <= from <= to <= |data|
    ensures data[start..][from - start..to - start] == data[from..to] && data[start..][from - start..] == data[from..]
  {
  }

  /** The body of the field loop, up to the call of the handler. */
  method NextField(data: Buf, start: nat) returns (step: Step)
    requires start < |data|
    ensures step == ParseField(data[start..], start)
  {
    hide DecodeVarint;
    ghost var s := data[start..];
    var offset := start;
    var tag := DecodeVarintLoop(data[offset..]);
    if tag.None? {
      return Stop(Failed);
    }
    offset := offset + tag.value.1;
    SliceOfTail(data, start, offset, offset);
    var fieldNum, wireType := tag.value.0 / 8, tag.value.0 % 8;
    if wireType == 0 {
      var val := DecodeVarintLoop(data[offset..]);
      if val.None? {
        return Stop(Failed);
      }
      offset := offset + val.value.1;
      step := Next(Number(fieldNum, val.value.0), offset - start);
    } else if wireType == 2 {
      var length := DecodeVarintLoop(data[offset..]);
      if length.None? {
        return Stop(Failed);
      }
      offset := offset + length.value.1;
      var end := offset + length.value.0;
      if length.value.0 >= I63 || end >= I63 {
        return Stop(Panicked);
      }
      if end > |data| {
        return Stop(Failed);
      }
      SliceOfTail(data, start, offset, end);
      step := Next(Bytes(fieldNum, data[offset..end]), end - start);
    } else {
      step := Stop(Failed);
    }
  }

  /** The field loop: each field is handed to the receiver as soon as it has been read. */
  method UnmarshalFields<T(!new)>(data: Buf, receiver: T, handle: (T, Field) -> T) returns (m: T, end: End)
    ensures (m, end) == Unmarshal(handle, receiver, data)
  {
    hide *;
    m := receiver;
    if |data| > MAX_FRAME {
      TooLong(handle, receiver, data);
      return m, Failed;
    }
    LoopStarts(handle, receiver, data);
    var offset := 0;
    while offset < |data|
      invariant offset <= |data| && Reaches(handle, receiver, data, m, offset)
    {
      var step := NextField(data, offset);
      match step
      case Stop(end') =>
        LoopEnds(handle, receiver, data, m, offset);
        return m, end';
      case Next(field, size) =>
        LoopTurns(handle, receiver, data, m, offset, field, size);
        m, offset := handle(m, field), offset + size;
    }
    LoopEnds(handle, receiver, data, m, offset);
    end := Done;
  }

  // ----- Concatenation

  lemma ReadHeadPrefix(a: Buf, b: Buf)
    requires ReadHead(a).Some?
    ensures ReadHead(a + b) == ReadHead(a)
  {
    hide DecodeVarint;
    DecodeVarintPrefix(a, b);
    var n := DecodeVarint(a).value.1;
    assert (a + b)[n..] == a[n..] + b;
    DecodeVarintPrefix(a[n..], b);
  }

  /** A field read from `a` is read from `a + b` too, wherever it stands in a frame. */
  lemma ParseFieldPrefix(a: Buf, b: Buf, offset: nat, offset': nat)
    requires ParseField(a, offset).Next? && offset' + |a| < I63
    ensures ParseField(a + b, offset') == ParseField(a, offset)
  {
    ReadHeadPrefix(a, b);
    hide ReadHead;
    var n, m := ReadHead(a).value.2, ParseField(a, offset).size;
    assert (a + b)[n..m] == a[n..m];
  }

  lemma ParseFieldAnywhere(s: Buf, o1: nat, o2: nat)
    requires o1 + |s| < I63 && o2 + |s| < I63
    ensures ParseField(s, o1).Next? <==> ParseField(s, o2).Next?
    ensures ParseField(s, o1).Next? ==> ParseField(s, o1) == ParseField(s, o2)
  {
    assert s + [] == s;
    if ParseField(s, o1).Next? {
      ParseFieldPrefix(s, [], o1, o2);
    } else if ParseField(s, o2).Next? {
      ParseFieldPrefix(s, [], o2, o1);
    }
  }

  lemma {:induction false} OffsetIsIrrelevant(s: Buf, o1: nat, o2: nat)
    requires o1 + |s| < I63 && o2 + |s| < I63
    ensures ParseFrom(s, o1).fields == ParseFrom(s, o2).fields
    ensures ParseFrom(s, o1).end.Done? <==> ParseFrom(s, o2).end.Done?
    decreases |s|
  {
    hide ParseField, ParseFrom;
    if s == [] {
      ParseFromEmpty(o1);
      ParseFromEmpty(o2);
    } else {
      ParseFieldAnywhere(s, o1, o2);
      if ParseField(s, o1).Next? {
        var n := ParseField(s, o1).size;
        ParseFromNext(s, o1);
        ParseFromNext(s, o2);
        OffsetIsIrrelevant(s[n..], o1 + n, o2 + n);
      } else {
        ParseFromStop(s, o1);
        ParseFromStop(s, o2);
      }
    }
  }

  lemma ParseConcatHead(a: Buf, b: Buf, offset: nat)
    requires a != [] && ParseField(a, offset).Next? && offset + |a| < I63
    ensures var r := ParseField(a, offset);
      var rest := ParseFrom(a[r.size..] + b, offset + r.size);
      ParseFrom(a + b, offset) == Parse([r.field] + rest.fields, rest.end)
  {
    hide ParseField, ParseFrom;
    ParseFieldPrefix(a, b, offset, offset);
    var n := ParseField(a, offset).size;
    assert (a + b)[n..] == a[n..] + b;
    ParseFromNext(a + b, offset);
  }

  lemma {:induction false} ParseConcat(a: Buf, b: Buf, offset: nat)
    requires ParseFrom(a, offset).end.Done? && offset + |a| < I63
    ensures var rest := ParseFrom(b, offset + |a|);
      ParseFrom(a + b, offset) == Parse(ParseFrom(a, offset).fields + rest.fields, rest.end)
    decreases |a|
  {
    hide ParseField, ParseFrom;
    if a == [] {
      assert a + b == b;
      ParseFromEmpty(offset);
    } else {
      if ParseField(a, offset).Stop? {
        ParseFromStop(a, offset);
      }
      ParseFromNext(a, offset);
      ParseConcatHead(a, b, offset);
      var r := ParseField(a, offset);
      ParseConcat(a[r.size..], b, offset + r.size);
      var p, q := ParseFrom(a[r.size..], offset + r.size), ParseFrom(b, offset + |a|);
      assert [r.field] + (p.fields + q.fields) == [r.field] + p.fields + q.fields;
    }
  }

  lemma {:induction false} HandleConcat<T>(handle: (T, Field) -> T, m: T, fs: seq<Field>, gs: seq<Field>)
    ensures Handle(handle, m, fs + gs) == Handle(handle, Handle(handle, m, fs), gs)
    decreases |fs|
  {
    if fs == [] {
      assert fs + gs == gs;
    } else {
      assert (fs + gs)[1..] == fs[1..] + gs;
      HandleConcat(handle, handle(m, fs[0]), fs[1..], gs);
    }
  }

  /** Decoding two buffers put together is decoding the second on top of what the first left. */
  lemma DecodingIsSequential<T>(handle: (T, Field) -> T, m: T, a: Buf, b: Buf)
    requires |a + b| <= MAX_FRAME && Unmarshal(handle, m, a).1.Done?
    ensures var (m', end) := Unmarshal(handle, m, a + b);
      var (m'', end'') := Unmarshal(handle, Unmarshal(handle, m, a).0, b);
      m' == m'' && (end.Done? <==> end''.Done?)
  {
    hide ParseFrom, Handle;
    ParseConcat(a, b, 0);
    OffsetIsIrrelevant(b, |a|, 0);
    HandleConcat(handle, m, ParseFrom(a, 0).fields, ParseFrom(b, |a|).fields);
  }

  lemma {:induction false} HandleUnknown<T>(handle: (T, Field) -> T, m: T, fs: seq<Field>)
    requires forall f | f in fs :: handle(m, f) == m
    ensures Handle(handle, m, fs) == m
    decreases |fs|
  {
    if fs != [] {
      assert fs[0] in fs;
      HandleUnknown(handle, m, fs[1..]);
    }
  }

  /** Fields the receiver does not know change nothing, wherever between two records they are put. */
  lemma UnknownFieldsChangeNothing<T(!new)>(handle: (T, Field) -> T, m: T, a: Buf, unknown: Buf, b: Buf)
    requires |a + unknown + b| <= MAX_FRAME
    requires Unmarshal(handle, m, a).1.Done? && Unmarshal(handle, m, unknown).1.Done?
    requires forall f, m': T | f in ParseFrom(unknown, 0).fields :: handle(m', f) == m'
    ensures var (m', end) := Unmarshal(handle, m, a + unknown + b);
      var (m'', end'') := Unmarshal(handle, m, a + b);
      m' == m'' && (end.Done? <==> end''.Done?)
  {
    var m1 := Unmarshal(handle, m, a).0;
    assert |a + unknown| <= MAX_FRAME && |a + b| <= MAX_FRAME;
    DecodingIsSequential(handle, m, a, unknown);
    HandleUnknown(handle, m1, ParseFrom(unknown, 0).fields);
    assert Unmarshal(handle, m1, unknown) == (m1, Done);
    hide Unmarshal;
    DecodingIsSequential(handle, m, a + unknown, b);
    DecodingIsSequential(handle, m, a, b);
  }

  // ----- When the loop runs out of range

  /**
   * The bytes start with the head of a length-delimited field whose end, counted from the start of the frame, is 2^63
   * or more: in 64-bit signed arithmetic it is negative, which passes the check against the frame's length.
   */
  predicate EndsBeyondInt64(b: Buf, offset: nat) {
    match ReadHead(b)
    case None => false
    case Some((tag, length, n)) => tag % 8 == 2 && offset + n + length >= I63
  }

  lemma PanickingField(b: Buf, offset: nat)
    ensures ParseField(b, offset) == Stop(Panicked) <==> EndsBeyondInt64(b, offset)
  {
    hide ReadHead;
  }

  lemma {:induction false} VarintLengthCut(b: Buf, m: nat, max: nat)
    requires VarintLength(b, max).Some? && VarintLength(b, max).value <= m <= |b|
    ensures VarintLength(b[..m], max) == VarintLength(b, max)
  {
    if b[0] >= 128 {
      assert b[..m][1..] == b[1..][..m - 1];
      VarintLengthCut(b[1..], m - 1, max - 1);
    }
  }

  lemma DecodeVarintCut(b: Buf, m: nat)
    requires DecodeVarint(b).Some? && DecodeVarint(b).value.1 <= m <= |b|
    ensures DecodeVarint(b[..m]) == DecodeVarint(b)
  {
    hide Digits, VarintLength;
    VarintLengthCut(b, m, 10);
    var n := DecodeVarint(b).value.1;
    assert b[..m][..n] == b[..n];
  }

  lemma ReadHeadCut(s: Buf, m: nat)
    requires ReadHead(s).Some? && ReadHead(s).value.2 <= m <= |s|
    ensures ReadHead(s[..m]) == ReadHead(s)
  {
    hide DecodeVarint;
    var n := DecodeVarint(s).value.1;
    DecodeVarintCut(s, m);
    assert s[..m][n..] == s[n..][..m - n];
    DecodeVarintCut(s[n..], m - n);
  }

  /** A field that was read is read from any cut behind it. */
  lemma ParseFieldCut(s: Buf, m: nat, offset: nat)
    requires ParseField(s, offset).Next? && ParseField(s, offset).size <= m <= |s|
    ensures ParseField(s[..m], offset) == ParseField(s, offset)
  {
    hide ReadHead;
    var n, end := ReadHead(s).value.2, ParseField(s, offset).size;
    ReadHeadCut(s, m);
    assert s[..m][n..end] == s[n..end];
  }

  /** A frame that runs out of range is a frame that is read to its end, followed by such a head. */
  lemma {:induction false} PanicSplit(s: Buf, offset: nat) returns (k: nat)
    requires ParseFrom(s, offset).end.Panicked?
    ensures k <= |s| && ParseFrom(s[..k], offset).end.Done? && EndsBeyondInt64(s[k..], offset + k)
    decreases |s|
  {
    hide ParseField, ParseFrom, EndsBeyondInt64;
    ParseFromEmpty(offset);
    var r := ParseField(s, offset);
    if r.Stop? {
      ParseFromStop(s, offset);
      PanickingField(s, offset);
      k := 0;
      assert s[..0] == [] && s[0..] == s;
    } else {
      ParseFromNext(s, offset);
      var j := PanicSplit(s[r.size..], offset + r.size);
      k := r.size + j;
      ParseFieldCut(s, k, offset);
      assert s[..k][r.size..] == s[r.size..][..j] && s[r.size..][j..] == s[k..];
      ParseFromNext(s[..k], offset);
    }
  }

  /** `data` splits at `k` into a part that is decoded without error and a head whose end is beyond int64. */
  predicate PanicsAt(data: Buf, k: nat) {
    k <= |data| && ParseFrom(data[..k], 0).end.Done? && EndsBeyondInt64(data[k..], k)
  }

  /** Within the frame limit, exactly these frames make the slice expression of the field loop panic. */
  lemma PanicsExactly<T>(handle: (T, Field) -> T, m: T, data: Buf)
    requires |data| <= MAX_FRAME
    ensures Unmarshal(handle, m, data).1.Panicked? <==> exists k: nat :: PanicsAt(data, k)
  {
    hide ParseFrom, ParseField, EndsBeyondInt64, Handle;
    if Unmarshal(handle, m, data).1.Panicked? {
      var k := PanicSplit(data, 0);
      assert PanicsAt(data, k);
    }
    if k: nat :| PanicsAt(data, k) {
      var b := data[k..];
      assert data == data[..k] + b;
      ParseConcat(data[..k], b, 0);
      PanickingField(b, k);
      HeadIsNotEmpty(b, k);
      ParseFromStop(b, k);
    }
  }

  lemma HeadIsNotEmpty(b: Buf, offset: nat)
    requires EndsBeyondInt64(b, offset)
    ensures b != []
  {
    hide DecodeVarint;
  }

  // ----- Writing fields

  predicate Writable(f: Field) { f.num < 0x1000_0000 && (f.Bytes? ==> |f.value| < U64) }

  function EncodeField(f: Field): Buf {
    match f
    case Number(num, val) => Varint(8 * num) + Varint(val)
    case Bytes(num, value) => Varint(8 * num + 2) + Varint(|value|) + value
  }

  function EncodeFields(fs: seq<Field>): Buf {
    if fs == [] then [] else EncodeField(fs[0]) + EncodeFields(fs[1..])
  }

  lemma ReadHeadOfVarints(tag: u64, val: u64, rest: Buf)
    requires tag % 8 == 0 || tag % 8 == 2
    ensures ReadHead(Varint(tag) + Varint(val) + rest) == Some((tag, val, |Varint(tag) + Varint(val)|))
  {
    hide Varint, DecodeVarint;
    var a, b := Varint(tag), Varint(val);
    assert a + b + rest == a + (b + rest) && (a + (b + rest))[|a|..] == b + rest;
    VarintRoundTrip(tag, b + rest);
    VarintRoundTrip(val, rest);
  }

  lemma ParseOfField(f: Field, rest: Buf, offset: nat)
    requires Writable(f) && offset + |EncodeField(f)| < I63
    ensures ParseField(EncodeField(f) + rest, offset) == Next(f, |EncodeField(f)|)
  {
    hide Varint, ReadHead;
    match f
    case Number(num, val) =>
      ReadHeadOfVarints(8 * num, val, rest);
    case Bytes(num, value) =>
      var head := Varint(8 * num + 2) + Varint(|value|);
      ReadHeadOfVarints(8 * num + 2, |value|, value + rest);
      assert head + value + rest == head + (value + rest);
      assert (head + value + rest)[|head|..|head| + |value|] == value;
  }

  /** Reading gives back the fields that were written. */
  lemma {:induction false} FieldsRoundTrip(fs: seq<Field>, offset: nat)
    requires (forall f | f in fs :: Writable(f)) && offset + |EncodeFields(fs)| < I63
    ensures ParseFrom(EncodeFields(fs), offset) == Parse(fs, Done)
    decreases |fs|
  {
    hide EncodeField, ParseField, ParseFrom;
    if fs == [] {
      ParseFromEmpty(offset);
    } else {
      var b, rest := EncodeFields(fs), EncodeFields(fs[1..]);
      var n := |EncodeField(fs[0])|;
      assert b == EncodeField(fs[0]) + rest && b[n..] == rest;
      hide EncodeFields;
      assert fs[0] in fs;
      ParseOfField(fs[0], rest, offset);
      ParseFromNext(b, offset);
      FieldsRoundTrip(fs[1..], offset + n);
      assert [fs[0]] + fs[1..] == fs;
    }
  }

  lemma {:induction false} FieldInside(fs: seq<Field>, f: Field)
    requires f in fs
    ensures |EncodeField(f)| <= |EncodeFields(fs)|
    decreases |fs|
  {
    hide EncodeField;
    if f != fs[0] {
      FieldInside(fs[1..], f);
    }
  }

  /** A frame of fields within the limit is read back field by field; a longer one is refused. */
  lemma UnmarshalOfFields<T>(handle: (T, Field) -> T, m: T, fs: seq<Field>)
    requires forall f | f in fs :: f.num < 0x1000_0000
    ensures Unmarshal(handle, m, EncodeFields(fs)) ==
      if |EncodeFields(fs)| <= MAX_FRAME then (Handle(handle, m, fs), Done) else (m, Failed)
  {
    if |EncodeFields(fs)| <= MAX_FRAME {
      forall f | f in fs
        ensures Writable(f)
      {
        FieldInside(fs, f);
      }
      hide EncodeFields, ParseFrom, Handle;
      FieldsRoundTrip(fs, 0);
    }
  }

  /** A written frame is never out of range to its reader. */
  lemma WrittenFramesDoNotPanic<T>(handle: (T, Field) -> T, m: T, fs: seq<Field>)
    requires forall f | f in fs :: f.num < 0x1000_0000
    ensures Unmarshal(handle, m, EncodeFields(fs)).1 != Panicked
  {
    UnmarshalOfFields(handle, m, fs);
  }

  lemma {:induction false} EncodeFieldsAppend(fs: seq<Field>, gs: seq<Field>)
    ensures EncodeFields(fs + gs) == EncodeFields(fs) + EncodeFields(gs)
  {
    if fs == [] {
      assert fs + gs == gs;
    } else {
      assert (fs + gs)[1..] == fs[1..] + gs;
      EncodeFieldsAppend(fs[1..], gs);
    }
  }
}
