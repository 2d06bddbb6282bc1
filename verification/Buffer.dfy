/** The byte buffer of a connection (Buffer.h): a byte array with a reader and a
    writer index behind eight reserved bytes. It refines a plain byte sequence. */
module Buffers {

  const CHEAP_PREPEND: nat := 8
  const INITIAL_SIZE: nat := 1024

  class Buffer {
    var data: array<char>
    var readerIndex: nat
    var writerIndex: nat

    ghost predicate Valid()
      reads this
    {
      CHEAP_PREPEND <= readerIndex <= writerIndex <= data.Length
    }

    /** The bytes appended and not yet retrieved. */
    ghost function Contents(): (s: string)
      requires Valid()
      reads this, data
      ensures |s| == ReadableBytes()
    {
      data[readerIndex..writerIndex]
    }

    constructor (initialSize: nat := INITIAL_SIZE)
      ensures Valid() && fresh(data) && Contents() == ""
    {
      data := new char[initialSize + CHEAP_PREPEND];
      readerIndex, writerIndex := CHEAP_PREPEND, CHEAP_PREPEND;
    }

    function ReadableBytes(): nat
      requires Valid()
      reads this
    {
      writerIndex - readerIndex
    }

    function WritableBytes(): nat
      requires Valid()
      reads this
    {
      data.Length - writerIndex
    }

    function PrependableBytes(): nat
      reads this
    {
      readerIndex
    }

    method Peek() returns (bytes: string)
      requires Valid()
      ensures bytes == Contents()
    {
      bytes := data[readerIndex..writerIndex];
    }

    method Retrieve(len: nat)
      requires Valid()
      modifies this
      ensures Valid() && data == old(data)
      ensures Contents() == if len < |old(Contents())| then old(Contents())[len..] else ""
    {
      if len < ReadableBytes() {
        readerIndex := readerIndex + len;
      } else {
        RetrieveAll();
      }
    }

    method RetrieveAll()
      requires Valid()
      modifies this
      ensures Valid() && data == old(data) && Contents() == ""
    {
      readerIndex, writerIndex := CHEAP_PREPEND, CHEAP_PREPEND;
    }

    method EnsureWritableBytes(len: nat)
      requires Valid()
      modifies this, data
      ensures Valid() && (data == old(data) || fresh(data))
      ensures Contents() == old(Contents()) && len <= WritableBytes()
      ensures old(data.Length) <= data.Length
    {
      if WritableBytes() < len {
        MakeSpace(len);
      }
    }

    /** Grows the array, or moves the contents to the front of it. */
    method MakeSpace(len: nat)
      requires Valid() && WritableBytes() < len
      modifies this, data
      ensures Valid() && (data == old(data) || fresh(data))
      ensures Contents() == old(Contents()) && len <= WritableBytes()
      ensures old(data.Length) <= data.Length
    {
      if WritableBytes() + PrependableBytes() < len + CHEAP_PREPEND {
        Resize(writerIndex + len);
      } else {
        var readable := ReadableBytes();
        MoveDown(readable);
        readerIndex := CHEAP_PREPEND;
        writerIndex := CHEAP_PREPEND + readable;
      }
    }

    /** Copies upwards into the reserved gap; source and target may overlap. */
    method MoveDown(readable: nat)
      requires Valid() && readable == ReadableBytes()
      modifies data
      ensures data[CHEAP_PREPEND..CHEAP_PREPEND + readable] == old(Contents())
    {
      var i := 0;
      while i < readable
        invariant i <= readable
        invariant data[CHEAP_PREPEND..CHEAP_PREPEND + i] == old(Contents())[..i]
        invariant forall k :: readerIndex + i <= k < writerIndex ==> data[k] == old(data[k])
      {
        data[CHEAP_PREPEND + i] := data[readerIndex + i];
        i := i + 1;
      }
    }

    method Resize(size: nat)
      requires Valid() && data.Length <= size
      modifies this
      ensures Valid() && fresh(data) && data.Length == size
      ensures readerIndex == old(readerIndex) && writerIndex == old(writerIndex)
      ensures Contents() == old(Contents())
    {
      var bigger := new char[size];
      forall k | 0 <= k < data.Length {
        bigger[k] := data[k];
      }
      data := bigger;
    }

    method Append(bytes: string)
      requires Valid()
      modifies this, data
      ensures Valid() && (data == old(data) || fresh(data))
      ensures Contents() == old(Contents()) + bytes
    {
      EnsureWritableBytes(|bytes|);
      ghost var before := Contents();
      forall k | 0 <= k < |bytes| {
        data[writerIndex + k] := bytes[k];
      }
      writerIndex := writerIndex + |bytes|;
      assert data[readerIndex..writerIndex] == before + bytes;
    }
  }
}
