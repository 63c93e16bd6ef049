/** The receive buffer: a growing array with a read and a write position, used as a byte queue. */
module BufferReaders {
  import opened Bytes

  const MAX_BYTES_PER_READ := 4096
  const MAX_BUFFER_SIZE := 1000000 * 1024

  /** What the operating system answers to one receive call. */
  datatype Received = Data(bytes: seq<Byte>) | Failure

  class BufferReader {
    var buffer: array<Byte>
    var readIndex: nat
    var writeIndex: nat

    ghost predicate Valid()
      reads this
    {
      readIndex <= writeIndex <= buffer.Length
    }

    /** The bytes received and not yet retrieved. */
    ghost function Contents(): seq<Byte>
      reads this, buffer
      requires Valid()
    {
      buffer[readIndex..writeIndex]
    }

    constructor (size: nat)
      ensures Valid() && fresh(buffer) && buffer.Length == size && Contents() == []
    {
      buffer := new Byte[size];
      readIndex, writeIndex := 0, 0;
    }

    method Readable() returns (n: nat)
      requires Valid()
      ensures n == |Contents()|
    {
      n := writeIndex - readIndex;
    }

    /** The unread bytes, as the parser sees them through the read pointer. */
    method Peek() returns (bytes: seq<Byte>)
      requires Valid()
      ensures bytes == Contents()
    {
      bytes := buffer[readIndex..writeIndex];
    }

    method RetrieveAll()
      requires Valid()
      modifies this`readIndex, this`writeIndex
      ensures Valid() && Contents() == []
    {
      readIndex, writeIndex := 0, 0;
    }

    /** Drops the first `n` unread bytes, or all of them when there are fewer. */
    method Retrieve(n: nat)
      requires Valid()
      modifies this`readIndex, this`writeIndex
      ensures Valid()
      ensures Contents() == if n <= |old(Contents())| then old(Contents())[n..] else []
    {
      if n <= writeIndex - readIndex {
        readIndex := readIndex + n;
        if readIndex == writeIndex {
          RetrieveAll();
        }
      } else {
        RetrieveAll();
      }
    }

    method Grow(size: nat)
      requires Valid() && size >= buffer.Length
      modifies this`buffer
      ensures Valid() && fresh(buffer) && buffer.Length == size && Contents() == old(Contents())
    {
      var bigger := new Byte[size];
      forall i | 0 <= i < buffer.Length {
        bigger[i] := buffer[i];
      }
      buffer := bigger;
    }

    /** One receive call. Room for a full read is made first; at the size limit nothing is read. */
    method ReadFromSocket(answer: Received) returns (n: int)
      requires Valid()
      requires answer.Data? ==> |answer.bytes| <= MAX_BYTES_PER_READ
      modifies this, buffer
      ensures Valid() && (buffer == old(buffer) || fresh(buffer))
      ensures n == if old(buffer.Length - writeIndex < 4096 && buffer.Length >= 1024000000) then 0
                   else if answer.Failure? then -1 else |answer.bytes|
      ensures Contents() == if n > 0 then old(Contents()) + answer.bytes else old(Contents())
      ensures buffer.Length == old(buffer.Length) + if old(buffer.Length - writeIndex < 4096 && buffer.Length < 1024000000) then 4096 else 0
    {
      if buffer.Length - writeIndex < MAX_BYTES_PER_READ {
        if buffer.Length < MAX_BUFFER_SIZE {
          Grow(buffer.Length + MAX_BYTES_PER_READ);
        } else {
          return 0;
        }
      }
      if answer.Failure? {
        return -1;
      }
      n := |answer.bytes|;
      var unread := buffer[readIndex..writeIndex];
      forall i | 0 <= i < n {
        buffer[writeIndex + i] := answer.bytes[i];
      }
      writeIndex := writeIndex + n;
      assert Contents() == unread + answer.bytes;
    }
  }
}
