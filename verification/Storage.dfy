/** The flat-file block log: a data file and an index of 16-byte records (pkg/hypercore/storage.go). */
module Storage {
  import opened Bytes

  /** File sizes are signed 64-bit in the program. */
  const MAX_FILE: nat := 0x8000_0000_0000_0000

  datatype Entry = Entry(offset: nat, length: nat)

  // ----- What the two files mean

  function Record(e: Entry): Buf { Put64(e.offset) + Put64(e.length) }

  function ParseRecord(b: Buf): Entry
    requires |b| == 16
  {
    Entry(GetBE(b[0..8]), GetBE(b[8..16]))
  }

  /** Whole records of the index file, in order; a shorter tail is not a record. */
  function ParseIndex(index: Buf): (es: seq<Entry>)
    ensures |es| == |index| / 16
  {
    if |index| < 16 then [] else [ParseRecord(index[..16])] + ParseIndex(index[16..])
  }

  /** The read of this entry succeeds; an empty read succeeds at every offset. */
  predicate InFile(e: Entry, data: Buf) {
    e.offset < MAX_FILE && (e.length == 0 || e.offset + e.length <= |data|)
  }

  function Block(e: Entry, data: Buf): Buf
    requires InFile(e, data)
  {
    if e.length == 0 then [] else data[e.offset..e.offset + e.length]
  }

  lemma ParseIndexHead(index: Buf, pos: nat)
    requires pos + 16 <= |index|
    ensures ParseIndex(index[pos..]) == [ParseRecord(index[pos..pos + 16])] + ParseIndex(index[pos + 16..])
  {
    assert index[pos..][..16] == index[pos..pos + 16] && index[pos..][16..] == index[pos + 16..];
  }

  lemma ParseIndexEnds(index: Buf)
    ensures |index| < 16 ==> ParseIndex(index) == []
  {
  }

  predicate AllInFile(es: seq<Entry>, data: Buf) {
    forall i | 0 <= i < |es| :: InFile(es[i], data)
  }

  function Blocks(es: seq<Entry>, data: Buf): (bs: seq<Buf>)
    requires AllInFile(es, data)
    ensures |bs| == |es|
    ensures forall i | 0 <= i < |es| :: bs[i] == Block(es[i], data)
  {
    seq(|es|, i requires 0 <= i < |es| => Block(es[i], data))
  }

  /** The pair of files is a log: whole records only, each within the data file. */
  predicate IsLog(data: Buf, index: Buf) {
    |data| < MAX_FILE && |index| % 16 == 0 && AllInFile(ParseIndex(index), data)
  }

  /** The sequence of blocks the two files stand for. */
  function Log(data: Buf, index: Buf): seq<Buf>
    requires IsLog(data, index)
  {
    Blocks(ParseIndex(index), data)
  }

  // ----- Facts about the files

  lemma RecordRoundTrip(e: Entry)
    requires e.offset < U64 && e.length < U64
    ensures ParseRecord(Record(e)) == e
  {
    hide PutBE, GetBE;
    TwoFields(Put64(e.offset), Put64(e.length));
  }

  lemma TwoFields(a: Buf, b: Buf)
    requires |a| == 8 && |b| == 8
    ensures (a + b)[0..8] == a && (a + b)[8..16] == b
  {
  }

  lemma {:induction false} ParseIndexAppend(index: Buf, r: Buf)
    requires |index| % 16 == 0 && |r| == 16
    ensures ParseIndex(index + r) == ParseIndex(index) + [ParseRecord(r)]
  {
    if index == [] {
      assert index + r == r && r[..16] == r;
      assert ParseIndex(r[16..]) == [];
    } else {
      assert (index + r)[..16] == index[..16] && (index + r)[16..] == index[16..] + r;
      ParseIndexAppend(index[16..], r);
    }
  }

  /** Bytes added to the data file alone change no block. */
  lemma BlocksIgnoreTail(es: seq<Entry>, data: Buf, tail: Buf)
    requires AllInFile(es, data)
    ensures AllInFile(es, data + tail)
    ensures Blocks(es, data + tail) == Blocks(es, data)
  {
    forall i | 0 <= i < |es|
      ensures InFile(es[i], data + tail) && Block(es[i], data + tail) == Block(es[i], data)
    {
      assert InFile(es[i], data);
    }
  }

  /** The files after one whole append. */
  function DataAfter(data: Buf, block: Buf): Buf { data + block }

  function IndexAfter(data: Buf, index: Buf, block: Buf): Buf { index + Record(Entry(|data|, |block|)) }

  lemma AppendToFiles(data: Buf, index: Buf, block: Buf)
    requires IsLog(data, index) && |data| + |block| < MAX_FILE
    ensures IsLog(DataAfter(data, block), IndexAfter(data, index, block))
    ensures Log(DataAfter(data, block), IndexAfter(data, index, block)) == Log(data, index) + [block]
  {
    var e := Entry(|data|, |block|);
    RecordRoundTrip(e);
    ParseIndexAppend(index, Record(e));
    BlocksIgnoreTail(ParseIndex(index), data, block);
    assert Block(e, data + block) == block;
  }

  /**
   * A crash between the data write and the index write leaves orphaned bytes. The files are still a log
   * with exactly the indexed blocks, and a later append on top of the orphan adds exactly its own block.
   */
  lemma CrashKeepsIndexedBlocks(data: Buf, index: Buf, orphan: Buf, block: Buf)
    requires IsLog(data, index) && |data| + |orphan| + |block| < MAX_FILE
    ensures IsLog(data + orphan, index)
    ensures Log(data + orphan, index) == Log(data, index)
    ensures IsLog(DataAfter(data + orphan, block), IndexAfter(data + orphan, index, block))
    ensures Log(DataAfter(data + orphan, block), IndexAfter(data + orphan, index, block)) == Log(data, index) + [block]
  {
    BlocksIgnoreTail(ParseIndex(index), data, orphan);
    AppendToFiles(data + orphan, index, block);
  }

  /** One step of a process's life: a whole append, or a crash after the data write followed by a reopen. */
  datatype Event = Appended(block: Buf) | Crashed(orphan: Buf)

  function RunData(data: Buf, events: seq<Event>): Buf
    decreases events
  {
    if events == [] then data
    else match events[0]
      case Appended(b) => RunData(data + b, events[1..])
      case Crashed(o) => RunData(data + o, events[1..])
  }

  function RunIndex(data: Buf, index: Buf, events: seq<Event>): Buf
    decreases events
  {
    if events == [] then index
    else match events[0]
      case Appended(b) => RunIndex(data + b, IndexAfter(data, index, b), events[1..])
      case Crashed(o) => RunIndex(data + o, index, events[1..])
  }

  /** The blocks whose appends completed. */
  function Completed(events: seq<Event>): seq<Buf> {
    if events == [] then []
    else match events[0]
      case Appended(b) => [b] + Completed(events[1..])
      case Crashed(_) => Completed(events[1..])
  }

  /** Over any history of appends and crashes the files hold the completed blocks, in order. */
  lemma {:induction false} HistoryKeepsCompletedBlocks(data: Buf, index: Buf, events: seq<Event>)
    requires IsLog(data, index) && |RunData(data, events)| < MAX_FILE
    ensures IsLog(RunData(data, events), RunIndex(data, index, events))
    ensures Log(RunData(data, events), RunIndex(data, index, events)) == Log(data, index) + Completed(events)
    decreases events
  {
    hide Log, IsLog, IndexAfter;
    if events == [] {
      assert Log(data, index) + [] == Log(data, index);
    } else {
      var rest := events[1..];
      match events[0]
      case Appended(b) =>
        RunDataGrows(data + b, rest);
        AppendToFiles(data, index, b);
        HistoryKeepsCompletedBlocks(data + b, IndexAfter(data, index, b), rest);
        assert Log(data, index) + [b] + Completed(rest) == Log(data, index) + ([b] + Completed(rest));
      case Crashed(o) =>
        RunDataGrows(data + o, rest);
        CrashKeepsIndexedBlocks(data, index, o, []);
        HistoryKeepsCompletedBlocks(data + o, index, rest);
    }
  }

  lemma {:induction false} RunDataGrows(data: Buf, events: seq<Event>)
    ensures |RunData(data, events)| >= |data|
    decreases events
  {
    if events == [] {
    } else {
      match events[0]
      case Appended(b) => RunDataGrows(data + b, events[1..]);
      case Crashed(o) => RunDataGrows(data + o, events[1..]);
    }
  }

  // ----- The open log

  class Store {
    var dataF: Buf
    var indexF: Buf
    var entries: seq<Entry>
    var dataSize: nat

    /** The in-memory index and size agree with the files, and the files are a log. */
    ghost predicate Valid()
      reads this
    {
      IsLog(dataF, indexF) && entries == ParseIndex(indexF) && dataSize == |dataF|
    }

    ghost function Contents(): seq<Buf>
      requires Valid()
      reads this
    {
      Log(dataF, indexF)
    }

    /** NewStorage: read the index records in a loop and take the data size from the file. */
    constructor Open(data: Buf, index: Buf)
      ensures dataF == data && indexF == index
      ensures entries == ParseIndex(index) && dataSize == |data|
      ensures IsLog(data, index) ==> Valid() && Contents() == Log(data, index)
    {
      hide ParseIndex, ParseRecord, Log;
      dataF, indexF := data, index;
      dataSize := |data|;
      var read: seq<Entry> := [];
      var pos := 0;
      assert index[0..] == index;
      while pos + 16 <= |index|
        invariant pos <= |index| && pos % 16 == 0
        invariant read + ParseIndex(index[pos..]) == ParseIndex(index)
      {
        var buf := index[pos..pos + 16];
        ParseIndexHead(index, pos);
        read := read + [ParseRecord(buf)];
        pos := pos + 16;
      }
      ParseIndexEnds(index[pos..]);
      entries := read;
    }

    method Append(block: Buf)
      requires dataSize == |dataF| && |dataF| + |block| < MAX_FILE
      modifies this
      ensures dataF == old(dataF) + block && dataSize == |dataF|
      ensures indexF == old(indexF) + Record(Entry(old(dataSize), |block|))
      ensures entries == old(entries) + [Entry(old(dataSize), |block|)]
      ensures old(Valid()) ==> Valid() && Contents() == old(Contents()) + [block]
    {
      var offset, length := dataSize, |block|;
      ghost var wasLog := IsLog(dataF, indexF);
      if wasLog {
        AppendToFiles(dataF, indexF, block);
        RecordRoundTrip(Entry(offset, length));
        ParseIndexAppend(indexF, Record(Entry(offset, length)));
      }
      dataF := dataF + block;
      dataSize := dataSize + length;
      indexF := indexF + (Put64(offset) + Put64(length));
      entries := entries + [Entry(offset, length)];
    }

    method Get(index: nat) returns (r: Option<Buf>)
      ensures r == if index < |entries| && InFile(entries[index], dataF) then Some(Block(entries[index], dataF))
                   else None
      ensures Valid() ==> r == if index < |Contents()| then Some(Contents()[index]) else None
    {
      if index >= |entries| {
        return None;
      }
      var entry := entries[index];
      if InFile(entry, dataF) {
        r := Some(Block(entry, dataF));
      } else {
        r := None;
      }
    }

    method Len() returns (n: nat)
      ensures n == |entries|
      ensures Valid() ==> n == |Contents()|
    {
      n := |entries|;
    }
  }

  /** Closing a log and opening its files again gives the same sequence of blocks. */
  method CloseAndReopen(s: Store) returns (t: Store)
    requires s.Valid()
    ensures fresh(t) && t.Valid() && t.Contents() == s.Contents()
  {
    t := new Store.Open(s.dataF, s.indexF);
  }
}
