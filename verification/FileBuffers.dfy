/**
 * The chunked file writer and the refilling file reader. A file is a byte
 * sequence; a scalar is handed over as the bytes of its memory image.
 */
module FileBuffers {
  import opened Bytes

  class BufferWriter {
    var file: seq<byte>      // what the stream has been given
    var isOpen: bool
    const buffer: array<byte>
    var offset: nat
    var validSize: nat

    ghost predicate Valid()
      reads this, buffer
    {
      offset == validSize <= buffer.Length
    }

    /** Everything written so far, flushed or not. */
    ghost function Written(): seq<byte>
      requires Valid()
      reads this, buffer
    {
      file + buffer[..validSize]
    }

    /** Opens a truncated file; `succeeds` says whether the system let it. */
    constructor (size: nat, succeeds: bool)
      ensures Valid() && fresh(buffer) && buffer.Length == size && isOpen == succeeds && file == Written() == [] && offset == 0
    {
      file, isOpen, buffer := [], succeeds, new byte[size];
      offset, validSize := 0, 0;
    }

    /** One scalar, which has to fit into the buffer. */
    method Write(t: seq<byte>) returns (ok: bool)
      requires Valid() && |t| <= buffer.Length
      modifies this, buffer
      ensures Valid() && isOpen == old(isOpen)
      ensures ok == isOpen
      ensures Written() == old(Written()) + if ok then t else []
      ensures file == if ok && old(offset) + |t| > buffer.Length then old(Written()) else old(file)
    {
      if !isOpen { return false; }
      if offset + |t| > buffer.Length { Flush(); }
      ghost var before, start := Written(), offset;
      forall i | 0 <= i < |t| { buffer[offset + i] := t[i]; }
      offset := offset + |t|;
      validSize := validSize + |t|;
      assert buffer[..validSize] == buffer[..start] + t;
      ok := true;
    }

    /** On a closed stream the buffered bytes are lost. */
    method Flush()
      requires Valid()
      modifies this
      ensures Valid() && isOpen == old(isOpen) && validSize == 0
      ensures file == if isOpen then old(Written()) else old(file)
      ensures Written() == file
    {
      if isOpen { file := file + buffer[..validSize]; }
      offset, validSize := 0, 0;
    }

    /** Closing the stream does not flush. */
    method Close()
      requires Valid()
      modifies this
      ensures Valid() && !isOpen && Written() == old(Written()) && file == old(file)
    {
      isOpen := false;
    }
  }

  /** A byte that was written but not flushed when the stream was closed never reaches the file. */
  method CloseBeforeFlush() returns (writer: BufferWriter)
    ensures fresh(writer) && writer.file == []
  {
    writer := new BufferWriter(8, true);
    var written := writer.Write([7]);
    assert written && writer.Written() == [7];
    writer.Close();
    writer.Flush();
  }

  class BufferReader {
    const file: seq<byte>
    var position: nat        // of the stream
    var atEof: bool          // the stream's end-of-file flag
    const failed: bool       // the file could not be opened
    const buffer: array<byte>
    var offset: nat
    var validSize: nat

    ghost predicate Valid()
      reads this, buffer
    {
      && offset <= validSize <= buffer.Length
      && position <= |file|
      && (atEof ==> position == |file|)
      && (failed ==> file == [])
    }

    /** The bytes not yet returned. */
    ghost function Remaining(): seq<byte>
      requires Valid()
      reads this, buffer
    {
      buffer[offset..validSize] + file[position..]
    }

    constructor (file: seq<byte>, size: nat, succeeds: bool)
      ensures Valid() && fresh(buffer) && buffer.Length == size
      ensures Remaining() == if succeeds then file else []
    {
      this.file := if succeeds then file else [];
      failed, buffer := !succeeds, new byte[size];
      position, atEof, offset, validSize := 0, false, 0, 0;
    }

    /** The next `n` bytes, as one scalar; fails only when fewer remain, and then consumes nothing. */
    method Read(n: nat) returns (ok: bool, t: seq<byte>)
      requires Valid() && 0 < n <= buffer.Length
      modifies this, buffer
      ensures Valid()
      ensures ok <==> n <= |old(Remaining())|
      ensures ok ==> t == old(Remaining())[..n] && Remaining() == old(Remaining())[n..]
      ensures !ok ==> Remaining() == old(Remaining())
    {
      t := [];
      if offset == validSize || validSize - offset < n {
        var filled := FillBuffer();
        if !filled || validSize < n { return false, []; }
      }
      ghost var rest := Remaining();
      t := buffer[offset..offset + n];
      assert t == rest[..n];
      offset := offset + n;
      assert Remaining() == rest[n..];
      ok := true;
    }

    /** Moves the unread bytes to the front and tops the buffer up from the stream. */
    method FillBuffer() returns (more: bool)
      requires Valid()
      modifies this, buffer
      ensures Valid() && Remaining() == old(Remaining())
      ensures more ==> offset == 0 && (validSize < buffer.Length ==> position == |file|)
      ensures !more ==> validSize - offset == old(validSize - offset)
      ensures !more ==> validSize - offset == buffer.Length || position == |file|
    {
      if atEof || failed { return false; }
      var rested := validSize - offset;
      ghost var unread, tail := buffer[offset..validSize], file[position..];
      forall i | 0 <= i < rested { buffer[i] := buffer[offset + i]; }
      assert buffer[..rested] == unread;
      var wanted := buffer.Length - rested;
      var got := if wanted <= |file| - position then wanted else |file| - position;
      ghost var block := file[position..position + got];
      forall i | 0 <= i < got { buffer[rested + i] := file[position + i]; }
      assert buffer[..rested] == unread;
      assert buffer[rested..rested + got] == block;
      position := position + got;
      atEof := got < wanted;
      validSize := rested + got;
      offset := 0;
      assert buffer[..validSize] == unread + block;
      assert tail == block + file[position..];
      more := got > 0;
    }
  }
}
