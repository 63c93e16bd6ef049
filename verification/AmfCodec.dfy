/** The AMF0 encoder, writing into a growing buffer, and the decoder, reading from memory. */
module AmfCodec {
  import opened Bytes
  import opened AmfSpec
  import opened AmfRoundTrip

  class AmfEncoder {
    var data: array<Byte>
    var index: nat

    ghost predicate Valid()
      reads this
    {
      index <= data.Length
    }

    /** What has been encoded since the last reset. */
    ghost function Written(): seq<Byte>
      reads this, data
      requires Valid()
    {
      data[..index]
    }

    constructor (size: nat)
      ensures Valid() && fresh(data) && Written() == []
    {
      data, index := new Byte[size], 0;
    }

    method Reset()
      requires Valid()
      modifies this`index
      ensures Valid() && Written() == []
    {
      index := 0;
    }

    method Realloc(size: nat)
      requires Valid()
      modifies this`data
      ensures Valid() && Written() == old(Written()) && (data == old(data) || fresh(data))
      ensures data.Length == if size <= old(data.Length) then old(data.Length) else size
    {
      if size <= data.Length { return; }
      var bigger := new Byte[size];
      forall i | 0 <= i < index {
        bigger[i] := data[i];
      }
      data := bigger;
    }

    /** Stores bytes that fit. */
    method Put(bytes: seq<Byte>)
      requires Valid() && |bytes| <= data.Length - index
      modifies this`index, data
      ensures Valid() && Written() == old(Written()) + bytes && data == old(data)
    {
      forall i | 0 <= i < |bytes| {
        data[index + i] := bytes[i];
      }
      index := index + |bytes|;
      assert data[..old(index)] == old(data[..index]);
      assert data[..index] == data[..old(index)] + bytes;
    }

    method EncodeInt8(v: Byte)
      requires Valid()
      modifies this, data
      ensures Valid() && Written() == old(Written()) + [v] && (data == old(data) || fresh(data))
    {
      if data.Length - index < 1 {
        Realloc(data.Length + 1024);
      }
      Put([v]);
    }

    method EncodeInt16(v: U32)
      requires Valid()
      modifies this, data
      ensures Valid() && Written() == old(Written()) + WriteU16BE(v) && (data == old(data) || fresh(data))
      ensures data.Length >= old(data.Length)
    {
      if data.Length - index < 2 {
        Realloc(data.Length + 1024);
      }
      Put(WriteU16BE(v));
    }

    method EncodeInt32(v: U32)
      requires Valid()
      modifies this, data
      ensures Valid() && Written() == old(Written()) + WriteU32BE(v) && (data == old(data) || fresh(data))
      ensures data.Length >= old(data.Length)
    {
      if data.Length - index < 4 {
        Realloc(data.Length + 1024);
      }
      Put(WriteU32BE(v));
    }

    method EncodeString(s: Text, typed: bool)
      requires Valid() && |s| < 0x1_0000_0000
      modifies this, data
      ensures Valid() && Written() == old(Written()) + EncText(s, typed) && (data == old(data) || fresh(data))
    {
      if data.Length - index < |s| + 5 {
        Realloc(data.Length + |s| + 5);
      }
      EncodeLength(|s|, typed);
      Put(s);
    }

    method EncodeLength(n: U32, typed: bool)
      requires Valid() && data.Length - index >= n + 5
      modifies this, data
      ensures Valid() && Written() == old(Written()) + TextHead(n, typed) && (data == old(data) || fresh(data))
      ensures data.Length - index >= n
    {
      ghost var before := Written();
      if n < 65536 {
        if typed { Put([STRING]); }
        EncodeInt16(n);
        assert typed ==> before + [STRING] + WriteU16BE(n) == before + ([STRING] + WriteU16BE(n));
        assert [] + WriteU16BE(n) == WriteU16BE(n);
      } else {
        if typed { Put([LONG_STRING]); }
        EncodeInt32(n);
        assert typed ==> before + [LONG_STRING] + WriteU32BE(n) == before + ([LONG_STRING] + WriteU32BE(n));
        assert [] + WriteU32BE(n) == WriteU32BE(n);
      }
    }

    method EncodeNumber(bits: seq<Byte>)
      requires Valid() && |bits| == 8
      modifies this, data
      ensures Valid() && Written() == old(Written()) + EncValue(Number(bits)) && (data == old(data) || fresh(data))
    {
      if data.Length - index < 9 {
        Realloc(data.Length + 1024);
      }
      hide Reversed;
      ghost var before := Written();
      Put([NUMBER]);
      Put(Reversed(bits));
      assert before + [NUMBER] + Reversed(bits) == before + ([NUMBER] + Reversed(bits));
    }

    method EncodeBoolean(on: bool)
      requires Valid()
      modifies this, data
      ensures Valid() && Written() == old(Written()) + EncValue(Boolean(on)) && (data == old(data) || fresh(data))
    {
      if data.Length - index < 2 {
        Realloc(data.Length + 1024);
      }
      Put([BOOLEAN]);
      Put([if on then 1 else 0]);
    }

    method EncodeValue(v: Value)
      requires Valid() && ValueOk(v)
      modifies this, data
      ensures Valid() && Written() == old(Written()) + EncValue(v) && (data == old(data) || fresh(data))
    {
      match v {
        case Number(bits) => EncodeNumber(bits);
        case Boolean(on) => EncodeBoolean(on);
        case Str(s) => EncodeString(s, true);
      }
    }

    method EncodeEntry(k: Text, v: Value)
      requires Valid() && |k| < 0x1_0000_0000 && ValueOk(v)
      modifies this, data
      ensures Valid() && Written() == old(Written()) + (EncText(k, false) + EncValue(v)) && (data == old(data) || fresh(data))
    {
      hide EncText, EncValue;
      EncodeString(k, false);
      EncodeValue(v);
    }

    /** The loop over a map, in the order it happens to yield its entries. */
    method EncodeEntries(objs: map<Text, Value>) returns (ghost es: seq<(Text, Value)>)
      requires Valid()
      requires forall k <- objs :: |k| < 0x1_0000_0000 && ValueOk(objs[k])
      modifies this, data
      ensures Valid() && (data == old(data) || fresh(data))
      ensures Lists(es, objs) && EntriesOk(es) && Written() == old(Written()) + EncEntries(es)
    {
      hide EncText, EncValue, EncEntries, EntriesOk, Listing, Lists, Written;
      es := [];
      NoEntries(objs);
      ghost var before := Written();
      var left := objs.Keys;
      while left != {}
        invariant Valid() && (data == old(data) || fresh(data))
        invariant left <= objs.Keys && Listing(es, objs, left) && EntriesOk(es)
        invariant Written() == before + EncEntries(es)
        decreases left
      {
        var k :| k in left;
        ListingStep(es, objs, left, k);
        EntriesGrow(es, (k, objs[k]));
        EncodeEntry(k, objs[k]);
        es := es + [(k, objs[k])];
        left := left - {k};
      }
      AllListed(es, objs);
    }

    /** Encodes a map. */
    method EncodeObjects(objs: map<Text, Value>) returns (ghost es: seq<(Text, Value)>)
      requires Valid()
      requires forall k <- objs :: |k| < 0x1_0000_0000 && ValueOk(objs[k])
      modifies this, data
      ensures Valid() && (data == old(data) || fresh(data))
      ensures Lists(es, objs) && EntriesOk(es) && Written() == old(Written()) + EncObject(es)
    {
      es := [];
      NoEntries(objs);
      if objs == map[] {
        AllListed(es, objs);
        EncodeInt8(NULL);
        return;
      }
      hide EncText, EncValue, EncEntries, EncObject, EntriesOk, Written;
      ghost var before := Written();
      EncodeInt8(OBJECT);
      es := EncodeEntries(objs);
      ListsAll(es, objs);
      ObjectParts(es);
      EncodeString([], false);
      EncodeInt8(OBJECT_END);
      Regroup4(before, [OBJECT], EncEntries(es), EncText([], false), [OBJECT_END]);
    }
  }

  lemma Regroup4(a: seq<Byte>, b: seq<Byte>, c: seq<Byte>, d: seq<Byte>, e: seq<Byte>)
    ensures a + b + c + d + e == a + (b + c + d + e)
  {}

  lemma ListsAll(es: seq<(Text, Value)>, objs: map<Text, Value>)
    requires Lists(es, objs) && objs != map[]
    ensures es != []
  {
    var k :| k in objs;
    assert (k, objs[k]) in es;
  }

  /** The entries listed so far are those of the map but for the keys that are left. */
  ghost predicate Listing(es: seq<(Text, Value)>, objs: map<Text, Value>, left: set<Text>) {
    && left <= objs.Keys && DistinctKeys(es)
    && (forall e <- es :: e.0 in objs && objs[e.0] == e.1 && e.0 !in left)
    && (forall k <- objs :: k in left || (k, objs[k]) in es)
  }

  lemma ListingStep(es: seq<(Text, Value)>, objs: map<Text, Value>, left: set<Text>, k: Text)
    requires Listing(es, objs, left) && k in left
    ensures k in objs && Listing(es + [(k, objs[k])], objs, left - {k})
  {
    KeysGrow(es, (k, objs[k]));
  }

  lemma AllListed(es: seq<(Text, Value)>, objs: map<Text, Value>)
    requires Listing(es, objs, {})
    ensures Lists(es, objs) && (es == [] <==> objs == map[])
  {
    assert es != [] ==> es[0] in es;
    if objs != map[] {
      var k :| k in objs;
      assert (k, objs[k]) in es;
    }
  }

  lemma ObjectParts(es: seq<(Text, Value)>)
    requires EntriesOk(es) && es != []
    ensures EncObject(es) == [OBJECT] + EncEntries(es) + EncText([], false) + [OBJECT_END]
  {}

  lemma NoEntries(objs: map<Text, Value>)
    ensures EntriesOk([]) && EncEntries([]) == [] && EncObject([]) == [NULL] && Listing([], objs, objs.Keys)
  {}

  lemma KeysGrow(es: seq<(Text, Value)>, e: (Text, Value))
    requires DistinctKeys(es) && forall x <- es :: x.0 != e.0
    ensures DistinctKeys(es + [e])
  {}

  lemma {:induction false} EntriesGrow(es: seq<(Text, Value)>, e: (Text, Value))
    requires EntriesOk(es) && |e.0| < 0x1_0000_0000 && ValueOk(e.1)
    ensures EntriesOk(es + [e])
    ensures EncEntries(es + [e]) == EncEntries(es) + (EncText(e.0, false) + EncValue(e.1))
    decreases |es|
  {
    hide EncText, EncValue;
    var more := es + [e];
    assert forall i :: 0 <= i < |more| ==> more[i] == if i < |es| then es[i] else e;
    if es == [] {
      assert more[1..] == [];
    } else {
      assert more[1..] == es[1..] + [e];
      EntriesGrow(es[1..], e);
    }
  }

  class AmfDecoder {
    var obj: AmfObject
    var objs: Table

    /** The memory of a new decoder is not initialised, except for the text. */
    constructor (found: AmfObject)
      ensures obj == found && objs == map[]
    {
      obj, objs := found, map[];
    }

    ghost function State(): Decoder
      reads this
    {
      Decoder(obj, objs)
    }

    static method CopyOfText(mem: seq<Byte>, at: nat, n: nat) returns (s: Text)
      requires CopyText(mem, at, n).Got?
      ensures CopyText(mem, at, n) == Got(n, s)
    {
      var z := at;
      while mem[z] != 0
        invariant at <= z < |mem| && ZeroAt(mem, z) == ZeroAt(mem, at)
        decreases |mem| - z
      {
        z := z + 1;
      }
      s := mem[at..Min(z, at + n)];
    }

    /** One value behind its type byte. */
    method DecodeOne(mem: seq<Byte>, at: nat, size: int, marker: Byte, blank: Memory) returns (ret: int)
      requires DecodeValue(mem, at, size, marker, State(), blank).Got?
      modifies this
      ensures Got(ret, State()) == DecodeValue(mem, at, size, marker, old(State()), blank)
      decreases NonNegative(size), 4
    {
      ret := 0;
      if marker == NUMBER {
        obj := obj.(kind := KNumber);
        if size < 8 { return -1; }
        obj := obj.(num := Reversed(mem[at..at + 8]));
        ret := 8;
      } else if marker == BOOLEAN {
        obj := obj.(kind := KBoolean);
        if size < 1 { return -1; }
        obj := obj.(on := mem[at] != 0);
        ret := 1;
      } else if marker == STRING {
        obj := obj.(kind := KString);
        if size < 2 { return -1; }
        var n := ReadU16BE(mem, at);
        if n > size - 2 { return -2; }
        var s := CopyOfText(mem, at + 2, n);
        obj := obj.(text := s);
        ret := 2 + n;
      } else if marker == OBJECT {
        ret, objs := DecodeObject(mem, at, size, blank);
      } else if marker == ECMA_ARRAY {
        ret, objs := DecodeObject(mem, at + 4, size - 4, blank);
      }
    }

    method DecodeAll(mem: seq<Byte>, at: nat, size: int, n: int, blank: Memory) returns (used: nat)
      requires Decode(mem, at, size, 0, n, State(), blank).Got?
      modifies this
      ensures Got(used, State()) == Decode(mem, at, size, 0, n, old(State()), blank)
      decreases NonNegative(size), 2
    {
      hide DecodeValue;
      used := 0;
      var left := n;
      ghost var goal := Decode(mem, at, size, 0, n, State(), blank);
      while used < size
        invariant Decode(mem, at, size, used, left, State(), blank) == goal
        decreases size - used
      {
        var marker := mem[at + used];
        used := used + 1;
        var ret := DecodeOne(mem, at + used, size - used, marker, blank);
        if ret < 0 { return; }
        used := used + ret;
        left := left - 1;
        if left == 0 { return; }
      }
    }

    /** One entry of an object. */
    static lemma EntryStep(mem: seq<Byte>, at: nat, left: int, used: nat, objs: Table, blank: Memory)
      requires left > 0 && DecodeEntries(mem, at, left, used, objs, blank).Got?
      ensures at + used + 2 <= |mem|
      ensures var n := ReadU16BE(mem, at + used); var from := at + used + 2;
        if left - 2 < n then DecodeEntries(mem, at, left, used, objs, blank) == Got(used, objs)
        else
          var key := CopyText(mem, from, n);
          var r := Decode(mem, from + n, left - 2 - n, 0, 1, Decoder(blank(from + n), map[]), blank);
          && key.Got? && r.Got?
          && DecodeEntries(mem, at, left, used, objs, blank) ==
               if r.ret <= 1 then Got(used + 2 + n + r.ret, objs)
               else DecodeEntries(mem, at, left - 2 - n, used + 2 + n + r.ret,
                                  if key.value in objs then objs else objs[key.value := r.value.obj], blank)
    {
      hide Decode, CopyText, ReadU16BE;
    }

    static lemma NoEntries(mem: seq<Byte>, at: nat, left: int, used: nat, objs: Table, blank: Memory)
      requires left <= 0
      ensures DecodeEntries(mem, at, left, used, objs, blank) == Got(used, objs)
    {}

    static method DecodeObject(mem: seq<Byte>, at: nat, size: int, blank: Memory) returns (used: nat, objs: Table)
      requires DecodeEntries(mem, at, size, 0, map[], blank).Got?
      ensures Got(used, objs) == DecodeEntries(mem, at, size, 0, map[], blank)
      decreases NonNegative(size), 3
    {
      hide Decode, DecodeEntries, CopyText, ReadU16BE;
      used, objs := 0, map[];
      var left := size;
      ghost var goal := DecodeEntries(mem, at, size, 0, map[], blank);
      while left > 0
        invariant left <= size && DecodeEntries(mem, at, left, used, objs, blank) == goal
        decreases left
      {
        EntryStep(mem, at, left, used, objs, blank);
        var n := ReadU16BE(mem, at + used);
        left := left - 2;
        if left < n { return; }
        var key := CopyOfText(mem, at + used + 2, n);
        left := left - n;
        var dec := new AmfDecoder(blank(at + used + 2 + n));
        var ret := dec.DecodeAll(mem, at + used + 2 + n, left, 1, blank);
        used := used + 2 + n + ret;
        if ret <= 1 { return; }
        if key !in objs {
          objs := objs[key := dec.obj];
        }
      }
      NoEntries(mem, at, left, used, objs, blank);
    }
  }
}
