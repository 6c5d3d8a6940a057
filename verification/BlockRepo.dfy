/** The block cache (pkg/db/bbolt.go): one bucket per feed, one encoded value per index. */
module BlockRepo {
  import opened Bytes

  /** A bucket per feed name and a key per index, flattened to one map; values are encoded blocks. */
  type Repo = map<(Buf, nat), Buf>

  function EncodeBlock(value: Buf, signature: Buf): Buf {
    Put32(|value|) + value + Put32(|signature|) + signature
  }

  function DecodeBlock(data: Buf): Option<(Buf, Buf)> {
    if |data| < 8 then None
    else
      var v := GetBE(data[0..4]);
      if |data| < 8 + v then None
      else
        var s := GetBE(data[4 + v..8 + v]);
        if |data| < 8 + v + s then None
        else Some((data[4..4 + v], data[8 + v..8 + v + s]))
  }

  lemma BlockRoundTrip(value: Buf, signature: Buf)
    requires |value| < U32 && |signature| < U32
    ensures DecodeBlock(EncodeBlock(value, signature)) == Some((value, signature))
  {
    hide GetBE, PutBE;
    FourParts(Put32(|value|), value, Put32(|signature|), signature);
  }

  lemma FourParts(a: Buf, v: Buf, b: Buf, s: Buf)
    requires |a| == 4 && |b| == 4
    ensures var d := a + v + b + s;
      && |d| == 8 + |v| + |s|
      && d[0..4] == a && d[4..4 + |v|] == v
      && d[4 + |v|..8 + |v|] == b && d[8 + |v|..8 + |v| + |s|] == s
  {
  }

  /** A value is decoded from exactly the byte strings that begin with its encoding. */
  lemma DecodesExactly(data: Buf, value: Buf, signature: Buf)
    requires |value| < U32 && |signature| < U32
    ensures DecodeBlock(data) == Some((value, signature)) <==> EncodeBlock(value, signature) <= data
  {
    if DecodeBlock(data) == Some((value, signature)) {
      DecodedBegins(data);
    }
    if EncodeBlock(value, signature) <= data {
      BlockRoundTrip(value, signature);
      DecodeIgnoresRest(EncodeBlock(value, signature), data);
    }
    hide DecodeBlock, EncodeBlock;
  }

  lemma DecodedBegins(data: Buf)
    requires DecodeBlock(data).Some?
    ensures var (value, signature) := DecodeBlock(data).value; EncodeBlock(value, signature) <= data
  {
    var (value, signature) := DecodeBlock(data).value;
    var v, s := |value|, |signature|;
    PutGetBE(data[0..4]);
    PutGetBE(data[4 + v..8 + v]);
    hide GetBE, PutBE;
    FiveParts(data, v, s);
  }

  lemma FiveParts(data: Buf, v: nat, s: nat)
    requires 8 + v + s <= |data|
    ensures data[0..4] + data[4..4 + v] + data[4 + v..8 + v] + data[8 + v..8 + v + s] <= data
  {
  }

  lemma DecodeIgnoresRest(front: Buf, data: Buf)
    requires front <= data && DecodeBlock(front).Some?
    ensures DecodeBlock(data) == DecodeBlock(front)
  {
    hide GetBE;
    var v := GetBE(front[0..4]);
    assert data[0..4] == front[0..4] && data[4..4 + v] == front[4..4 + v];
    assert data[4 + v..8 + v] == front[4 + v..8 + v];
    var s := GetBE(front[4 + v..8 + v]);
    assert data[8 + v..8 + v + s] == front[8 + v..8 + v + s];
  }

  function PutBlock(repo: Repo, feed: Buf, index: nat, value: Buf, signature: Buf): Repo {
    repo[(feed, index) := EncodeBlock(value, signature)]
  }

  function GetBlock(repo: Repo, feed: Buf, index: nat): Option<(Buf, Buf)> {
    if (feed, index) in repo then DecodeBlock(repo[(feed, index)]) else None
  }
}
