/** The buffered spill file of the attribute amend: an append-only file of fixed-width records,
    written through a staging buffer and read back through a refill buffer. */
module SpillFiles {
  import opened Bytes

  function Max(a: nat, b: nat): nat { if a < b then b else a }
  function Min(a: nat, b: nat): nat { if a < b then a else b }

  class SpillFile {
    const recordSize: nat
    const buffer: array<byte>
    var records: nat
    var used: nat     // writing: bytes staged; reading: bytes valid
    var cursor: nat   // reading: first byte of the buffer not handed out yet
    const writing: bool
    var disk: seq<byte>  // what the file holds
    var diskPos: nat     // reading: position of the file handle

    /** open_write: an empty file and an empty staging buffer of at least one record. */
    constructor OpenWrite(size: nat, bufferBytes: nat)
      requires size > 0
      ensures Writer() && fresh(buffer) && recordSize == size && records == 0
      ensures Written() == []
    {
      recordSize := size;
      buffer := new byte[Max(bufferBytes, size)](_ => 0);
      records, used, cursor, writing, disk, diskPos := 0, 0, 0, true, [], 0;
    }

    /** open_read: the handle stands at the first byte of `bytes`. */
    constructor OpenRead(bytes: seq<byte>, size: nat, bufferBytes: nat)
      requires size > 0
      ensures Reader() && fresh(buffer) && recordSize == size
      ensures Pending() == bytes
    {
      recordSize := size;
      buffer := new byte[Max(bufferBytes, size)](_ => 0);
      records, used, cursor, writing, disk, diskPos := 0, 0, 0, false, bytes, 0;
    }

    ghost predicate Writer()
      reads this
    {
      writing && 0 < recordSize <= buffer.Length && used <= buffer.Length
    }

    ghost predicate Reader()
      reads this
    {
      !writing && 0 < recordSize <= buffer.Length && cursor <= used <= buffer.Length && diskPos <= |disk|
    }

    /** Everything appended so far, flushed or not. */
    ghost function Written(): seq<byte>
      requires Writer()
      reads this, buffer
    {
      disk + buffer[..used]
    }

    /** Everything not handed out yet, buffered or still in the file. */
    ghost function Pending(): seq<byte>
      requires Reader()
      reads this, buffer
    {
      buffer[cursor..used] + disk[diskPos..]
    }

    method Append(record: seq<byte>)
      requires Writer() && |record| == recordSize
      modifies this, buffer
      ensures Writer() && records == old(records) + 1
      ensures Written() == old(Written()) + record
    {
      if used + recordSize > buffer.Length {
        Flush();
      }
      ghost var before := Written();
      ghost var staged := buffer[..used];
      CopyIn(buffer, used, record);
      assert buffer[..used + recordSize] == staged + record;
      used := used + recordSize;
      records := records + 1;
      assert Written() == before + record;
    }

    method Flush()
      requires Writer()
      modifies this
      ensures Writer() && records == old(records)
      ensures used == 0 && disk == Written() == old(Written())
    {
      disk := disk + buffer[..used];
      used := 0;
    }

    /** Carry the unread tail to the front of the buffer and read on behind it. */
    method Refill()
      requires Reader()
      modifies this, buffer
      ensures Reader() && cursor == 0
      ensures used < recordSize ==> diskPos == |disk|
      ensures Pending() == old(Pending())
    {
      var tail := buffer[cursor..used];
      ghost var rest := disk[diskPos..];
      CopyIn(buffer, 0, tail);
      var got := Min(buffer.Length - |tail|, |disk| - diskPos);
      var chunk := disk[diskPos..diskPos + got];
      CopyIn(buffer, |tail|, chunk);
      diskPos := diskPos + got;
      cursor, used := 0, |tail| + got;
      assert rest == chunk + disk[diskPos..];
      assert buffer[0..used] == buffer[..used] == tail + chunk;
      assert tail + (chunk + disk[diskPos..]) == tail + chunk + disk[diskPos..];
    }

    /** next: hand out one record. A record cut by the end of the buffer is completed by a refill. */
    method Next() returns (ok: bool, record: seq<byte>, error: bool)
      requires Reader()
      modifies this, buffer
      ensures Reader()
      ensures ok <==> |old(Pending())| >= recordSize
      ensures ok ==> !error && old(Pending()) == record + Pending() && |record| == recordSize
      ensures !ok ==> Pending() == old(Pending()) && (error <==> old(Pending()) != [])
    {
      record, error := [], false;
      ok := true;
      if cursor + recordSize > used {
        Refill();
        if recordSize > used {
          error := used != 0 && used % recordSize != 0;
          SmallRemainder(used, recordSize);
          assert |Pending()| == used;
          return false, record, error;
        }
      }
      record := buffer[cursor..cursor + recordSize];
      assert buffer[cursor..used] == record + buffer[cursor + recordSize..used];
      cursor := cursor + recordSize;
    }
  }

  lemma SmallRemainder(a: nat, m: nat)
    requires a < m
    ensures a % m == a
  {
    DivModUnique(a, m, 0, a);
  }

  /** memcpy into a buffer; the source is a value, so overlapping moves are covered too. */
  method CopyIn(a: array<byte>, at: nat, bytes: seq<byte>)
    requires at + |bytes| <= a.Length
    modifies a
    ensures a[..at + |bytes|] == old(a[..at]) + bytes
  {
    forall i | 0 <= i < |bytes| {
      a[at + i] := bytes[i];
    }
  }

  /** A record stream read to its end: the records of the file in order, and an error exactly when
      the file ends in the middle of one, whatever the buffer size. */
  method ReadAll(bytes: seq<byte>, size: nat, bufferBytes: nat) returns (out: seq<seq<byte>>, error: bool)
    requires size > 0
    ensures out == Records(bytes, size)
    ensures error <==> |bytes| % size != 0
  {
    var file := new SpillFile.OpenRead(bytes, size, bufferBytes);
    out, error := [], false;
    var more := true;
    ghost var left := bytes;
    while more
      invariant file.Reader() && file.recordSize == size && fresh(file) && fresh(file.buffer)
      invariant left == file.Pending()
      invariant out + Records(left, size) == Records(bytes, size)
      invariant Tail(left, size) == Tail(bytes, size)
      invariant !more ==> |left| < size && (error <==> left != [])
      decreases more, |left|
    {
      var ok, record, err := file.Next();
      if ok {
        StreamStep(record, file.Pending(), size);
        out := out + [record];
      } else {
        more, error := false, err;
      }
      left := file.Pending();
    }
    TailLength(bytes, size);
  }

  /** What was appended and flushed comes back identical and in order, for every pair of buffer
      sizes, and then the stream ends without an error. */
  method RoundTrip(records: seq<seq<byte>>, size: nat, writeBuffer: nat, readBuffer: nat)
    returns (out: seq<seq<byte>>, error: bool)
    requires size > 0 && forall i :: 0 <= i < |records| ==> |records[i]| == size
    ensures out == records && !error
  {
    var file := new SpillFile.OpenWrite(size, writeBuffer);
    for i := 0 to |records|
      invariant file.Writer() && file.recordSize == size && fresh(file) && fresh(file.buffer)
      invariant file.Written() == Flatten(records[..i])
    {
      file.Append(records[i]);
      FlattenSnoc(records[..i], records[i]);
      assert records[..i + 1] == records[..i] + [records[i]];
    }
    assert records[..|records|] == records;
    file.Flush();
    out, error := ReadAll(file.disk, size, readBuffer);
    RecordsOfFlatten(records, size, []);
    assert Flatten(records) + [] == Flatten(records);
    FlattenLength(records, size);
    DivModUnique(|file.disk|, size, |records|, 0);
  }
}
