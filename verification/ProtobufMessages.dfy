/** The messages of pkg/network/protobuf.go: what each writes, and what each takes from the fields it is handed. */
module ProtobufMessages {
  import opened Bytes
  import opened Varints
  import opened Protobuf

  datatype Feed = Feed(discoveryKey: Buf)
  datatype Handshake = Handshake(protocol: Buf, key: Buf, extensions: seq<Buf>, live: bool, userData: Buf)
  datatype Request = Request(index: u64, bytes: u64, hash: bool, nodes: u64)
  datatype Data = Data(index: u64, value: Buf, signature: Buf)
  datatype Cancel = Cancel(index: u64, bytes: u64)

  // ----- Writing

  /** Empty byte fields are not written. */
  function NonEmpty(num: nat, value: Buf): seq<Field> {
    if value == [] then [] else [Bytes(num, value)]
  }

  function WhenTrue(num: nat, flag: bool): seq<Field> {
    if flag then [Number(num, 1)] else []
  }

  function FeedFields(m: Feed): seq<Field> { NonEmpty(1, m.discoveryKey) }

  function ExtensionFields(exts: seq<Buf>): seq<Field> {
    if exts == [] then [] else [Bytes(3, exts[0])] + ExtensionFields(exts[1..])
  }

  function HandshakeFields(m: Handshake): seq<Field> {
    NonEmpty(1, m.protocol) + NonEmpty(2, m.key) + ExtensionFields(m.extensions)
    + WhenTrue(4, m.live) + NonEmpty(5, m.userData)
  }

  function RequestFields(m: Request): seq<Field> {
    [Number(1, m.index), Number(2, m.bytes)] + WhenTrue(3, m.hash)
    + if m.nodes > 0 then [Number(4, m.nodes)] else []
  }

  function DataFields(m: Data): seq<Field> {
    [Number(1, m.index)] + NonEmpty(2, m.value) + NonEmpty(4, m.signature)
  }

  function CancelFields(m: Cancel): seq<Field> { [Number(1, m.index), Number(2, m.bytes)] }

  /** The limit is on the key alone, not on the frame. */
  function MarshalFeed(m: Feed): Option<Buf> {
    if |m.discoveryKey| > MAX_FRAME then None else Some(EncodeFields(FeedFields(m)))
  }

  function MarshalData(m: Data): Option<Buf> {
    var buf := EncodeFields(DataFields(m));
    if |m.value| > MAX_FRAME then None else if |buf| > MAX_FRAME then None else Some(buf)
  }

  method MarshalHandshake(m: Handshake) returns (r: Option<Buf>)
    ensures var buf := EncodeFields(HandshakeFields(m)); r == if |buf| > MAX_FRAME then None else Some(buf)
  {
    hide EncodeField, EncodeFields, ExtensionFields, NonEmpty, WhenTrue, HandshakeFields;
    var buf := [];
    if m.protocol != [] {
      buf := buf + EncodeField(Bytes(1, m.protocol));
    }
    if m.key != [] {
      buf := buf + EncodeField(Bytes(2, m.key));
    }
    ghost var head := buf;
    WrittenHead(m, head);
    for i := 0 to |m.extensions|
      invariant buf == head + EncodeFields(ExtensionFields(m.extensions[..i]))
    {
      WrittenExtension(m.extensions, i);
      Regroup(head, EncodeFields(ExtensionFields(m.extensions[..i])), EncodeField(Bytes(3, m.extensions[i])));
      buf := buf + EncodeField(Bytes(3, m.extensions[i]));
    }
    assert m.extensions[..|m.extensions|] == m.extensions;
    ghost var middle := buf;
    if m.live {
      buf := buf + EncodeField(Number(4, 1));
    }
    if m.userData != [] {
      buf := buf + EncodeField(Bytes(5, m.userData));
    }
    WrittenTail(m, middle, buf);
    r := if |buf| > MAX_FRAME then None else Some(buf);
  }

  lemma Regroup(a: Buf, b: Buf, c: Buf)
    ensures a + b + c == a + (b + c)
  {
  }

  lemma EncodeOne(f: Field)
    ensures EncodeFields([f]) == EncodeField(f)
  {
    assert [f][1..] == [];
  }

  lemma WrittenHead(m: Handshake, buf: Buf)
    requires buf == (if m.protocol != [] then EncodeField(Bytes(1, m.protocol)) else [])
                  + (if m.key != [] then EncodeField(Bytes(2, m.key)) else [])
    ensures buf == EncodeFields(NonEmpty(1, m.protocol) + NonEmpty(2, m.key))
    ensures buf + EncodeFields(ExtensionFields([])) == buf
  {
    EncodeFieldsAppend(NonEmpty(1, m.protocol), NonEmpty(2, m.key));
    EncodeOne(Bytes(1, m.protocol));
    EncodeOne(Bytes(2, m.key));
    hide EncodeField;
  }

  lemma {:induction false} ExtensionFieldsAppend(exts: seq<Buf>, ext: Buf)
    ensures ExtensionFields(exts + [ext]) == ExtensionFields(exts) + [Bytes(3, ext)]
  {
    if exts == [] {
      assert [] + [ext] == [ext] && [ext][1..] == [];
    } else {
      assert (exts + [ext])[1..] == exts[1..] + [ext];
      ExtensionFieldsAppend(exts[1..], ext);
    }
  }

  lemma WrittenExtension(exts: seq<Buf>, i: nat)
    requires i < |exts|
    ensures EncodeFields(ExtensionFields(exts[..i + 1]))
         == EncodeFields(ExtensionFields(exts[..i])) + EncodeField(Bytes(3, exts[i]))
  {
    assert exts[..i + 1] == exts[..i] + [exts[i]];
    ExtensionFieldsAppend(exts[..i], exts[i]);
    EncodeFieldsAppend(ExtensionFields(exts[..i]), [Bytes(3, exts[i])]);
    EncodeOne(Bytes(3, exts[i]));
  }

  lemma WrittenTail(m: Handshake, middle: Buf, buf: Buf)
    requires middle == EncodeFields(NonEmpty(1, m.protocol) + NonEmpty(2, m.key))
                     + EncodeFields(ExtensionFields(m.extensions))
    requires buf == middle + (if m.live then EncodeField(Number(4, 1)) else [])
                  + (if m.userData != [] then EncodeField(Bytes(5, m.userData)) else [])
    ensures buf == EncodeFields(HandshakeFields(m))
  {
    hide EncodeField, EncodeFields, ExtensionFields;
    var head := NonEmpty(1, m.protocol) + NonEmpty(2, m.key);
    var exts := ExtensionFields(m.extensions);
    EncodeFieldsAppend(head, exts);
    EncodeFieldsAppend(head + exts, WhenTrue(4, m.live));
    EncodeFieldsAppend(head + exts + WhenTrue(4, m.live), NonEmpty(5, m.userData));
    EncodeOne(Number(4, 1));
    EncodeOne(Bytes(5, m.userData));
    EncodeNone();
  }

  lemma EncodeNone()
    ensures EncodeFields([]) == []
  {
  }

  // ----- Reading: what each message does with one field

  function TakeFeed(m: Feed, f: Field): Feed {
    if f.Bytes? && f.num == 1 then m.(discoveryKey := f.value) else m
  }

  function TakeHandshake(m: Handshake, f: Field): Handshake {
    match f
    case Bytes(num, value) =>
      if num == 1 then m.(protocol := value)
      else if num == 2 then m.(key := value)
      else if num == 3 then m.(extensions := m.extensions + [value])
      else if num == 5 then m.(userData := value)
      else m
    case Number(num, val) => if num == 4 then m.(live := val != 0) else m
  }

  function TakeRequest(m: Request, f: Field): Request {
    if f.Bytes? then m
    else if f.num == 1 then m.(index := f.val)
    else if f.num == 2 then m.(bytes := f.val)
    else if f.num == 3 then m.(hash := f.val != 0)
    else if f.num == 4 then m.(nodes := f.val)
    else m
  }

  function TakeData(m: Data, f: Field): Data {
    match f
    case Number(num, val) => if num == 1 then m.(index := val) else m
    case Bytes(num, value) =>
      if num == 2 then m.(value := value) else if num == 4 then m.(signature := value) else m
  }

  function TakeCancel(m: Cancel, f: Field): Cancel {
    if f.Bytes? then m
    else if f.num == 1 then m.(index := f.val)
    else if f.num == 2 then m.(bytes := f.val)
    else m
  }

  // ----- Fields in any order, as often as they come

  /** The value of the last byte field of this number, if there is one. */
  function LastBytes(fs: seq<Field>, num: nat, before: Buf): Buf {
    if fs == [] then before
    else
      var f := fs[|fs| - 1];
      if f.Bytes? && f.num == num then f.value else LastBytes(fs[..|fs| - 1], num, before)
  }

  function LastNumber(fs: seq<Field>, num: nat, before: u64): u64 {
    if fs == [] then before
    else
      var f := fs[|fs| - 1];
      if f.Number? && f.num == num then f.val else LastNumber(fs[..|fs| - 1], num, before)
  }

  function AllBytes(fs: seq<Field>, num: nat): seq<Buf> {
    if fs == [] then []
    else
      var f := fs[|fs| - 1];
      AllBytes(fs[..|fs| - 1], num) + if f.Bytes? && f.num == num then [f.value] else []
  }

  function Bit(b: bool): u64 { if b then 1 else 0 }

  lemma LastHandled<T>(handle: (T, Field) -> T, m: T, fs: seq<Field>)
    requires fs != []
    ensures Handle(handle, m, fs) == handle(Handle(handle, m, fs[..|fs| - 1]), fs[|fs| - 1])
  {
    assert fs == fs[..|fs| - 1] + [fs[|fs| - 1]];
    HandleOne(handle, m, fs[..|fs| - 1], fs[|fs| - 1]);
  }

  lemma {:induction false} HandshakeOfAnyFields(m: Handshake, fs: seq<Field>)
    ensures Handle(TakeHandshake, m, fs) ==
      Handshake(LastBytes(fs, 1, m.protocol), LastBytes(fs, 2, m.key), m.extensions + AllBytes(fs, 3),
                LastNumber(fs, 4, Bit(m.live)) > 0, LastBytes(fs, 5, m.userData))
  {
    hide Handle;
    if fs == [] {
      HandleEmpty(TakeHandshake, m);
      assert m.extensions + [] == m.extensions;
    } else {
      HandshakeOfAnyFields(m, fs[..|fs| - 1]);
      LastHandled(TakeHandshake, m, fs);
      var front := AllBytes(fs[..|fs| - 1], 3);
      assert front + [] == front;
      if fs[|fs| - 1].Bytes? {
        var value := fs[|fs| - 1].value;
        assert m.extensions + front + [value] == m.extensions + (front + [value]);
      }
    }
  }

  lemma {:induction false} RequestOfAnyFields(m: Request, fs: seq<Field>)
    ensures Handle(TakeRequest, m, fs) ==
      Request(LastNumber(fs, 1, m.index), LastNumber(fs, 2, m.bytes), LastNumber(fs, 3, Bit(m.hash)) > 0,
              LastNumber(fs, 4, m.nodes))
  {
    hide Handle;
    if fs == [] {
      HandleEmpty(TakeRequest, m);
    } else {
      RequestOfAnyFields(m, fs[..|fs| - 1]);
      LastHandled(TakeRequest, m, fs);
    }
  }

  lemma {:induction false} DataOfAnyFields(m: Data, fs: seq<Field>)
    ensures Handle(TakeData, m, fs) ==
      Data(LastNumber(fs, 1, m.index), LastBytes(fs, 2, m.value), LastBytes(fs, 4, m.signature))
  {
    hide Handle;
    if fs == [] {
      HandleEmpty(TakeData, m);
    } else {
      DataOfAnyFields(m, fs[..|fs| - 1]);
      LastHandled(TakeData, m, fs);
    }
  }

  lemma {:induction false} SmallMessagesOfAnyFields(c: Cancel, f: Feed, fs: seq<Field>)
    ensures Handle(TakeCancel, c, fs) == Cancel(LastNumber(fs, 1, c.index), LastNumber(fs, 2, c.bytes))
    ensures Handle(TakeFeed, f, fs) == Feed(LastBytes(fs, 1, f.discoveryKey))
  {
    hide Handle;
    if fs == [] {
      HandleEmpty(TakeCancel, c);
      HandleEmpty(TakeFeed, f);
    } else {
      SmallMessagesOfAnyFields(c, f, fs[..|fs| - 1]);
      LastHandled(TakeCancel, c, fs);
      LastHandled(TakeFeed, f, fs);
    }
  }

  // ----- Round trips into a zero value

  lemma HandleOne<T>(handle: (T, Field) -> T, m: T, fs: seq<Field>, f: Field)
    ensures Handle(handle, m, fs + [f]) == handle(Handle(handle, m, fs), f)
  {
    HandleConcat(handle, m, fs, [f]);
    var m' := Handle(handle, m, fs);
    assert [f][1..] == [];
    assert Handle(handle, m', [f]) == Handle(handle, handle(m', f), []);
  }

  lemma {:induction false} HandleExtensions(m: Handshake, exts: seq<Buf>)
    ensures Handle(TakeHandshake, m, ExtensionFields(exts)) == m.(extensions := m.extensions + exts)
    decreases |exts|
  {
    if exts == [] {
      assert m.extensions + exts == m.extensions;
    } else {
      var m' := m.(extensions := m.extensions + [exts[0]]);
      HandleExtensions(m', exts[1..]);
      HandleFirst(TakeHandshake, m, Bytes(3, exts[0]), ExtensionFields(exts[1..]));
      assert m.extensions + [exts[0]] + exts[1..] == m.extensions + exts;
    }
  }

  lemma HandleNonEmpty<T>(handle: (T, Field) -> T, m: T, num: nat, value: Buf)
    ensures Handle(handle, m, NonEmpty(num, value)) == if value == [] then m else handle(m, Bytes(num, value))
  {
    if value != [] {
      HandleFirst(handle, m, Bytes(num, value), []);
      assert [Bytes(num, value)] + [] == [Bytes(num, value)];
    }
  }

  lemma HandleHandshake(m: Handshake)
    ensures Handle(TakeHandshake, Handshake([], [], [], false, []), HandshakeFields(m)) == m
  {
    hide Handle, ExtensionFields;
    var zero := Handshake([], [], [], false, []);
    var m1 := zero.(protocol := m.protocol);
    var m2 := m1.(key := m.key);
    var m3 := m2.(extensions := m.extensions);
    var m4 := m3.(live := m.live);
    var head := NonEmpty(1, m.protocol) + NonEmpty(2, m.key);
    var exts := head + ExtensionFields(m.extensions);
    HandleNonEmpty(TakeHandshake, zero, 1, m.protocol);
    HandleNonEmpty(TakeHandshake, m1, 2, m.key);
    HandleConcat(TakeHandshake, zero, NonEmpty(1, m.protocol), NonEmpty(2, m.key));
    HandleExtensions(m2, m.extensions);
    assert [] + m.extensions == m.extensions;
    HandleConcat(TakeHandshake, zero, head, ExtensionFields(m.extensions));
    assert Handle(TakeHandshake, zero, exts) == m3;
    HandleOne(TakeHandshake, zero, exts, Number(4, 1));
    assert exts + [] == exts;
    HandleConcat(TakeHandshake, zero, exts + WhenTrue(4, m.live), NonEmpty(5, m.userData));
    HandleNonEmpty(TakeHandshake, m4, 5, m.userData);
  }

  /** Every handshake that MarshalHandshake does not refuse is read back, with its extensions in order. */
  lemma HandshakeRoundTrip(m: Handshake)
    ensures var buf := EncodeFields(HandshakeFields(m));
      |buf| <= MAX_FRAME ==> Unmarshal(TakeHandshake, Handshake([], [], [], false, []), buf) == (m, Done)
  {
    HandleHandshake(m);
    ExtensionNumbers(m.extensions);
    UnmarshalOfFields(TakeHandshake, Handshake([], [], [], false, []), HandshakeFields(m));
    hide Unmarshal, Handle, EncodeFields, ExtensionFields;
  }

  lemma {:induction false} ExtensionNumbers(exts: seq<Buf>)
    ensures forall f | f in ExtensionFields(exts) :: f.num == 3
  {
    if exts != [] {
      ExtensionNumbers(exts[1..]);
    }
  }

  lemma NumberSize(num: nat, val: u64)
    requires num < 16
    ensures |EncodeField(Number(num, val))| <= 11
  {
    Pow128Nine();
    VarintSize(val, 10);
    VarintSize(8 * num, 1);
  }

  lemma {:induction false} NumbersSize(fs: seq<Field>)
    requires forall f | f in fs :: f.Number? && f.num < 16
    ensures |EncodeFields(fs)| <= 11 * |fs|
  {
    if fs != [] {
      assert fs[0] in fs;
      NumberSize(fs[0].num, fs[0].val);
      NumbersSize(fs[1..]);
    }
  }

  lemma HandleTwo<T>(handle: (T, Field) -> T, m: T, f: Field, g: Field, fs: seq<Field>)
    ensures Handle(handle, m, [f, g] + fs) == Handle(handle, handle(handle(m, f), g), fs)
  {
    assert [f, g] + fs == [f] + ([g] + fs);
    HandleFirst(handle, m, f, [g] + fs);
    HandleFirst(handle, handle(m, f), g, fs);
  }

  lemma HandleRequest(m: Request)
    ensures Handle(TakeRequest, Request(0, 0, false, 0), RequestFields(m)) == m
  {
    hide Handle;
    var zero, m2 := Request(0, 0, false, 0), Request(m.index, m.bytes, false, 0);
    var m3 := m2.(hash := m.hash);
    var optional := WhenTrue(3, m.hash) + if m.nodes > 0 then [Number(4, m.nodes)] else [];
    assert RequestFields(m) == [Number(1, m.index), Number(2, m.bytes)] + optional;
    HandleTwo(TakeRequest, zero, Number(1, m.index), Number(2, m.bytes), optional);
    HandleTwo(TakeRequest, m2, Number(3, 1), Number(4, m.nodes), []);
    HandleFirst(TakeRequest, m2, Number(3, 1), []);
    HandleFirst(TakeRequest, m2, Number(4, m.nodes), []);
    HandleEmpty(TakeRequest, m);
    HandleEmpty(TakeRequest, m3);
    assert optional == (if m.hash then
                          if m.nodes > 0 then [Number(3, 1), Number(4, m.nodes)] + [] else [Number(3, 1)] + []
                        else if m.nodes > 0 then [Number(4, m.nodes)] + [] else []);
  }

  lemma HandleEmpty<T>(handle: (T, Field) -> T, m: T)
    ensures Handle(handle, m, []) == m
  {
  }

  lemma RequestRoundTrip(m: Request)
    ensures Unmarshal(TakeRequest, Request(0, 0, false, 0), EncodeFields(RequestFields(m))) == (m, Done)
  {
    var zero := Request(0, 0, false, 0);
    NumbersSize(RequestFields(m));
    HandleRequest(m);
    UnmarshalOfFields(TakeRequest, zero, RequestFields(m));
    hide Unmarshal, Handle, EncodeFields;
  }

  lemma CancelRoundTrip(m: Cancel)
    ensures Unmarshal(TakeCancel, Cancel(0, 0), EncodeFields(CancelFields(m))) == (m, Done)
  {
    NumbersSize(CancelFields(m));
    HandleTwo(TakeCancel, Cancel(0, 0), Number(1, m.index), Number(2, m.bytes), []);
    HandleEmpty(TakeCancel, m);
    assert CancelFields(m) + [] == CancelFields(m);
    UnmarshalOfFields(TakeCancel, Cancel(0, 0), CancelFields(m));
    hide Unmarshal, Handle, EncodeFields;
  }

  lemma HandleData(m: Data)
    ensures Handle(TakeData, Data(0, [], []), DataFields(m)) == m
  {
    hide Handle;
    var m1, m2 := Data(m.index, [], []), Data(m.index, m.value, []);
    assert [] + [Number(1, m.index)] == [Number(1, m.index)];
    HandleOne(TakeData, Data(0, [], []), [], Number(1, m.index));
    HandleEmpty(TakeData, Data(0, [], []));
    HandleNonEmpty(TakeData, m1, 2, m.value);
    HandleNonEmpty(TakeData, m2, 4, m.signature);
    HandleConcat(TakeData, Data(0, [], []), [Number(1, m.index)], NonEmpty(2, m.value));
    HandleConcat(TakeData, Data(0, [], []), [Number(1, m.index)] + NonEmpty(2, m.value), NonEmpty(4, m.signature));
  }

  /** A data message is written exactly when its frame is within the limit, and then read back. */
  lemma DataRoundTrip(m: Data)
    ensures MarshalData(m).Some? <==> |EncodeFields(DataFields(m))| <= MAX_FRAME
    ensures MarshalData(m).Some? ==> Unmarshal(TakeData, Data(0, [], []), MarshalData(m).value) == (m, Done)
  {
    HandleData(m);
    UnmarshalOfFields(TakeData, Data(0, [], []), DataFields(m));
    if m.value != [] {
      FieldInside(DataFields(m), Bytes(2, m.value));
      assert |m.value| <= |EncodeField(Bytes(2, m.value))|;
    }
    hide Unmarshal, Handle, EncodeFields;
  }

  lemma FeedSize(key: Buf)
    requires |key| <= MAX_FRAME
    ensures |EncodeField(Bytes(1, key))| <= MAX_FRAME <==> |key| <= MAX_FRAME - 5
  {
    assert Pow128(3) == 0x20_0000 && Pow128(4) == 0x1000_0000;
    VarintSize(10, 1);
    VarintSize(|key|, 4);
  }

  /**
   * A feed message that is written is read back exactly when its key is at least five bytes below the limit:
   * the tag and the length that are written before the key are not counted by MarshalFeed.
   */
  lemma FeedRoundTrip(m: Feed)
    requires MarshalFeed(m).Some?
    ensures Unmarshal(TakeFeed, Feed([]), MarshalFeed(m).value) == (m, Done) <==> |m.discoveryKey| <= MAX_FRAME - 5
  {
    UnmarshalOfFields(TakeFeed, Feed([]), FeedFields(m));
    if m.discoveryKey != [] {
      FeedSize(m.discoveryKey);
      EncodeOne(Bytes(1, m.discoveryKey));
    }
    HandleNonEmpty(TakeFeed, Feed([]), 1, m.discoveryKey);
    EncodeNone();
    hide Unmarshal, Handle, EncodeFields, EncodeField;
  }

  /** A key of 8,388,604 zero bytes is written and cannot be read. */
  lemma LongKeyIsNotReadBack()
    ensures var m := Feed(seq(8_388_604, _ => 0));
      MarshalFeed(m).Some? && Unmarshal(TakeFeed, Feed([]), MarshalFeed(m).value) != (m, Done)
  {
    hide Unmarshal, EncodeFields;
    FeedRoundTrip(Feed(seq(8_388_604, _ => 0)));
  }

  /** Eleven bytes are enough: a field of bytes whose length is 2^64 - 1. */
  lemma ElevenBytesPanic()
    ensures var data: Buf := [10, 255, 255, 255, 255, 255, 255, 255, 255, 255, 1];
      Unmarshal(TakeFeed, Feed([]), data).1 == Panicked
  {
    var data: Buf := [10, 255, 255, 255, 255, 255, 255, 255, 255, 255, 1];
    assert data == [10] + [255, 255, 255, 255, 255, 255, 255, 255, 255, 1];
    LongestHead(data);
    hide EndsBeyondInt64, ParseFrom, Unmarshal;
    assert data[..0] == [] && data[0..] == data;
    ParseFromEmpty(0);
    assert PanicsAt(data, 0);
    PanicsExactly(TakeFeed, Feed([]), data);
  }

  lemma HeadBeyondInt64(tag: u64, length: u64, data: Buf, offset: nat)
    requires tag % 8 == 2 && length >= I63 && data == Varint(tag) + Varint(length)
    ensures EndsBeyondInt64(data, offset)
  {
    hide Varint, ReadHead;
    assert Varint(tag) + Varint(length) + [] == data;
    ReadHeadOfVarints(tag, length, []);
  }

  lemma LongestHead(data: Buf)
    requires data == [10] + [255, 255, 255, 255, 255, 255, 255, 255, 255, 1]
    ensures EndsBeyondInt64(data, 0)
  {
    hide EndsBeyondInt64, Varint;
    LongestVarint();
    VarintOfTen();
    HeadBeyondInt64(10, 0xffff_ffff_ffff_ffff, data, 0);
  }

  lemma VarintOfTen()
    ensures Varint(10) == [10]
  {
  }

  lemma LongestVarint()
    ensures Varint(0xffff_ffff_ffff_ffff) == [255, 255, 255, 255, 255, 255, 255, 255, 255, 1]
  {
    assert Varint(1) == [1];
    assert Varint(0xff) == [255, 1];
    assert Varint(0x7fff) == [255] + Varint(0xff);
    assert Varint(0x3f_ffff) == [255] + Varint(0x7fff);
    assert Varint(0x1fff_ffff) == [255] + Varint(0x3f_ffff);
    assert Varint(0xf_ffff_ffff) == [255] + Varint(0x1fff_ffff);
    assert Varint(0x7ff_ffff_ffff) == [255] + Varint(0xf_ffff_ffff);
    assert Varint(0x3_ffff_ffff_ffff) == [255] + Varint(0x7ff_ffff_ffff);
    assert Varint(0x1ff_ffff_ffff_ffff) == [255] + Varint(0x3_ffff_ffff_ffff);
    assert Varint(0xffff_ffff_ffff_ffff) == [255] + Varint(0x1ff_ffff_ffff_ffff);
  }
}
