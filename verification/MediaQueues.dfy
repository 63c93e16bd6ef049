/** The queues between capture, encoding and playing: a doubly linked list and a byte buffer for audio. */
module MediaQueues {
  import opened Bytes

  // ---------- the linked list ----------

  class Node<T> {
    const value: T
    var prev: Node?<T>
    var next: Node?<T>

    constructor (value: T)
      ensures this.value == value && prev == null && next == null
    {
      this.value := value;
      prev, next := null, null;
    }
  }

  ghost function At<T>(spine: seq<Node<T>>, i: int): Node?<T> {
    if 0 <= i < |spine| then spine[i] else null
  }

  ghost function Values<T>(spine: seq<Node<T>>): seq<T> {
    seq(|spine|, i requires 0 <= i < |spine| => spine[i].value)
  }

  lemma ValuesAppend<T>(spine: seq<Node<T>>, node: Node<T>)
    ensures Values(spine + [node]) == Values(spine) + [node.value]
  {}

  lemma NoValues<T>(spine: seq<Node<T>>)
    requires |spine| == 0
    ensures Values(spine) == []
  {}

  lemma ValuesStep<T>(spine: seq<Node<T>>)
    requires |spine| > 0
    ensures Values(spine) == [spine[0].value] + Values(spine[1..])
  {}

  class AVList<T> {
    var head: Node?<T>
    var tail: Node?<T>
    var size: int
    /** The nodes from head to tail. */
    ghost var spine: seq<Node<T>>

    /** Head, tail and both chains of pointers are those of a list without a cycle, and the size is its length. */
    ghost predicate Valid()
      reads this, spine
    {
      && size == |spine|
      && head == At(spine, 0) && tail == At(spine, |spine| - 1)
      && (forall i, j :: 0 <= i < j < |spine| ==> spine[i] != spine[j])
      && (forall i {:trigger spine[i].next} :: 0 <= i < |spine| ==> spine[i].next == At(spine, i + 1))
      && (forall i {:trigger spine[i].prev} :: 0 <= i < |spine| ==> spine[i].prev == At(spine, i - 1))
    }

    ghost function Contents(): seq<T>
      reads this
    {
      Values(spine)
    }

    constructor ()
      ensures Valid() && Contents() == [] && spine == []
    {
      head, tail, size, spine := null, null, 0, [];
    }

    method Push(value: T)
      requires Valid()
      modifies this, spine
      ensures Valid() && Contents() == old(Contents()) + [value]
      ensures spine[..|spine| - 1] == old(spine) && fresh(spine[|spine| - 1])
    {
      hide Values;
      var node := new Node(value);
      if tail != null {
        tail.next := node;
        node.prev := tail;
        tail := node;
      } else {
        head, tail := node, node;
      }
      size := size + 1;
      ghost var was := spine;
      spine := spine + [node];
      assert forall i :: 0 <= i < |was| ==> spine[i] == was[i] && was[i] in was;
      ValuesAppend(was, node);
    }

    /** Takes the oldest value; `kept` is what the caller's variable held and still holds if there is none. */
    method Pop(kept: T) returns (ok: bool, value: T)
      requires Valid()
      modifies this, spine
      ensures Valid() && (ok <==> old(Contents()) != [])
      ensures old(Contents()) == if ok then [value] + Contents() else []
      ensures !ok ==> value == kept && Contents() == []
      ensures spine == if ok then old(spine)[1..] else old(spine)
    {
      hide Values;
      if |spine| == 0 {
        NoValues(spine);
      } else {
        ValuesStep(spine);
      }
      if head == null {
        return false, kept;
      }
      value := head.value;
      assert head.next != null ==> head.next == spine[1] && spine[1] in spine;
      head := head.next;
      if head != null {
        head.prev := null;
      } else {
        tail := null;
      }
      size := size - 1;
      ghost var was := spine;
      spine := spine[1..];
      assert forall i :: 0 <= i < |spine| ==> spine[i] == was[i + 1] && was[i + 1] in was;
      ok := true;
    }

    /** Empties the list. Every node is freed exactly once, and left before it is freed. */
    method Clear() returns (ghost freed: seq<Node<T>>)
      requires Valid()
      modifies this
      ensures Valid() && Contents() == [] && freed == old(spine)
    {
      freed := [];
      var node := head;
      while node != null
        invariant |freed| <= |spine| && freed == spine[..|freed|]
        invariant node == At(spine, |freed|)
        decreases |spine| - |freed|
      {
        var next := node.next;
        freed := freed + [node];
        node := next;
      }
      head, tail := null, null;
      size := 0;
      spine := [];
    }
  }

  // ---------- the audio buffer ----------

  class AudioBuffer {
    var buffer: array<Byte>
    var reader: nat
    var writer: nat

    /** Between calls the unread bytes start at the front. */
    ghost predicate Valid()
      reads this
    {
      reader == 0 && writer <= buffer.Length < 0x1_0000_0000
    }

    ghost function Contents(): seq<Byte>
      reads this, buffer
      requires reader <= writer <= buffer.Length
    {
      buffer[reader..writer]
    }

    constructor (size: U32)
      ensures Valid() && fresh(buffer) && buffer.Length == size && Contents() == []
    {
      buffer := new Byte[size];
      reader, writer := 0, 0;
    }

    /** Moves the unread bytes to the front and clears what is behind the old end of the data. */
    method Compact()
      requires reader <= writer <= buffer.Length
      modifies this`reader, this`writer, buffer
      ensures reader == 0 && writer <= buffer.Length && Contents() == old(Contents())
    {
      var n := buffer.Length - reader;
      for i := 0 to n
        invariant reader == old(reader) && writer == old(writer)
        invariant forall k :: 0 <= k < i ==> buffer[k] == old(buffer[reader + k])
        invariant forall k :: i <= k < buffer.Length ==> buffer[k] == old(buffer[k])
      {
        buffer[i] := buffer[reader + i];
      }
      forall i | n <= i < buffer.Length {
        buffer[i] := 0;
      }
      writer := writer - reader;
      reader := 0;
    }

    method RetrieveAll()
      requires buffer.Length < 0x1_0000_0000
      modifies this`reader, this`writer
      ensures Valid() && Contents() == []
    {
      reader, writer := 0, 0;
    }

    method Retrieve(len: nat)
      requires Valid()
      modifies this`reader, this`writer, buffer
      ensures Valid()
      ensures Contents() == if len <= |old(Contents())| then old(Contents())[len..] else old(Contents())
    {
      if len > 0 {
        if len <= writer - reader {
          reader := reader + len;
          if reader == writer {
            reader, writer := 0, 0;
          }
        }
      }
      if reader > 0 && writer > 0 {
        Compact();
      }
    }

    /** Takes as many bytes as fit. */
    method Write(data: seq<Byte>) returns (n: nat)
      requires Valid() && |data| < 0x1_0000_0000
      modifies this`reader, this`writer, buffer
      ensures Valid() && n == Min(|data|, buffer.Length - |old(Contents())|)
      ensures Contents() == old(Contents()) + data[..n]
    {
      n := |data|;
      if buffer.Length - writer < n {
        n := buffer.Length - writer;
      }
      if n > 0 {
        forall i | 0 <= i < n {
          buffer[writer + i] := data[i];
        }
        writer := writer + n;
      }
      assert Contents() == old(Contents()) + data[..n];
      Retrieve(0);
    }

    /** Gives the oldest bytes, or none at all if there are fewer. */
    method Read(size: nat) returns (n: int, data: seq<Byte>)
      requires Valid()
      modifies this`reader, this`writer, buffer
      ensures Valid() && n == if size <= |old(Contents())| then size else -1
      ensures old(Contents()) == data + Contents() && |data| == if n == -1 then 0 else size
    {
      if size > writer - reader {
        Retrieve(0);
        return -1, [];
      }
      data := buffer[reader..reader + size];
      Retrieve(size);
      n := size;
    }

    method Size() returns (n: nat)
      requires Valid()
      ensures n == |Contents()|
    {
      n := writer - reader;
    }
  }

  // ---------- samples and bytes ----------

  /** How many samples (of all channels) the buffered bytes hold, in 32-bit arithmetic. */
  function Samples(bytes: U32, bits: U32, channels: U32): int
    requires bits > 0 && channels > 0
  {
    (bytes * 8) % 0x1_0000_0000 / bits / channels
  }

  /** The bytes asked for, in 32-bit arithmetic. */
  function Request(samples: U32, bits: U32, channels: U32): nat {
    ((samples * bits) % 0x1_0000_0000 / 8 * channels) % 0x1_0000_0000
  }

  lemma QuotientAtMost(n: nat, a: nat, d: nat)
    requires d > 0
    ensures n <= a / d <==> n * d <= a
  {
    var q := a / d;
    assert a == q * d + a % d;
    if n <= q {
      assert n * d <= q * d;
    } else {
      assert n * d >= (q + 1) * d == q * d + d;
    }
  }

  /** A number of samples is there exactly if its bits are among those counted in 32-bit arithmetic; below
      half a gigabyte those are all the bits. */
  lemma SamplesExactly(bytes: U32, bits: U32, channels: U32, n: nat)
    requires bits > 0 && channels > 0
    ensures n <= Samples(bytes, bits, channels)
      <==> n * channels * bits <= bytes * 8 % 0x1_0000_0000
    ensures bytes < 0x2000_0000 ==>
      (n <= Samples(bytes, bits, channels) <==> n * channels * bits <= bytes * 8)
  {
    var a := bytes * 8 % 0x1_0000_0000;
    QuotientAtMost(n, a / bits, channels);
    QuotientAtMost(n * channels, a, bits);
  }

  lemma ScaledQuotient(x: nat, c: nat)
    requires c > 0
    ensures x / 8 * c * 8 <= x * c
    ensures x / 8 * c * 8 == x * c <==> x % 8 == 0
  {}

  lemma Reordered(n: nat, b: nat, c: nat)
    requires c > 0
    ensures n * c * b == n * b * c >= n * b
  {}

  /** The request for a number of samples that is there never wraps around, is available, and is the size
      of the samples exactly if they fill whole bytes in each channel. */
  lemma RequestAvailable(bytes: U32, bits: U32, channels: U32, samples: U32)
    requires bits > 0 && channels > 0 && samples <= Samples(bytes, bits, channels)
    ensures Request(samples, bits, channels) == samples * bits / 8 * channels <= bytes
    ensures Request(samples, bits, channels) * 8 == samples * bits * channels <==> samples * bits % 8 == 0
  {
    hide Samples;
    var x := samples * bits;
    SamplesExactly(bytes, bits, channels, samples);
    Reordered(samples, bits, channels);
    ScaledQuotient(x, channels);
    var asked := x / 8 * channels;
    assert asked * 8 <= bytes * 8;
    assert x % 0x1_0000_0000 == x && asked % 0x1_0000_0000 == asked;
  }

  class AudioCapture {
    const buffer: AudioBuffer
    var channels: U32
    var bits: U32

    ghost predicate Valid()
      reads this, buffer
    {
      buffer.Valid() && channels > 0 && bits > 0
    }

    constructor (size: U32)
      ensures Valid() && fresh(buffer) && fresh(buffer.buffer) && buffer.Contents() == []
      ensures channels == 2 && bits == 16 && buffer.buffer.Length == size
    {
      channels, bits := 2, 16;
      buffer := new AudioBuffer(size);
    }

    /** The device hands over some audio and says what format it is in. */
    method Captured(channels: U32, bits: U32, data: seq<Byte>)
      requires Valid() && channels > 0 && bits > 0 && |data| < 0x1_0000_0000
      modifies this, buffer`reader, buffer`writer, buffer.buffer
      ensures Valid() && this.channels == channels && this.bits == bits
      ensures var was := old(buffer.Contents());
        buffer.Contents() == was + data[..Min(|data|, buffer.buffer.Length - |was|)]
    {
      this.channels, this.bits := channels, bits;
      var _ := buffer.Write(data);
    }

    method GetSamples() returns (n: int)
      requires Valid()
      ensures n == Samples(|buffer.Contents()|, bits, channels)
    {
      hide Samples;
      var size := buffer.Size();
      n := Samples(size, bits, channels);
    }

    /** Reads samples, or none if there are too few. Whenever the samples are there the bytes are. */
    method Read(samples: U32) returns (n: nat, data: seq<Byte>)
      requires Valid()
      modifies buffer`reader, buffer`writer, buffer.buffer
      ensures Valid() && old(buffer.Contents()) == data + buffer.Contents()
      ensures if samples <= Samples(|old(buffer.Contents())|, bits, channels)
              then n == samples && |data| == samples * bits / 8 * channels
              else n == 0 && data == []
    {
      var there := GetSamples();
      if samples > there {
        return 0, [];
      }
      RequestAvailable(|buffer.Contents()|, bits, channels, samples);
      var got;
      got, data := buffer.Read((samples * bits) % 0x1_0000_0000 / 8 * channels % 0x1_0000_0000);
      n := samples;
    }
  }
}
