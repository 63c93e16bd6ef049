/** Decoding what has been encoded. */
module AmfRoundTrip {
  import opened Bytes
  import opened AmfSpec

  // ---------- texts ----------

  /** A zero byte lies in readable memory at or behind the position. */
  ghost predicate ZeroBehind(mem: seq<Byte>, at: nat) {
    exists z :: at <= z < |mem| && mem[z] == 0
  }

  lemma {:induction false} ZeroAtExactly(mem: seq<Byte>, at: nat)
    ensures ZeroAt(mem, at).Got? <==> ZeroBehind(mem, at)
    decreases |mem| - at
  {
    if at < |mem| && mem[at] != 0 {
      ZeroAtExactly(mem, at + 1);
    }
  }

  lemma ZeroEarlier(mem: seq<Byte>, from: nat, at: nat)
    requires from <= at
    ensures ZeroBehind(mem, at) ==> ZeroBehind(mem, from)
  {}

  /** What a C string keeps of a text: everything in front of its first zero byte. */
  function Cut(s: Text): Text {
    if s == [] || s[0] == 0 then [] else [s[0]] + Cut(s[1..])
  }

  lemma {:induction false} CutAt(s: Text, n: nat)
    requires n <= |s| && (forall i :: 0 <= i < n ==> s[i] != 0) && (n < |s| ==> s[n] == 0)
    ensures Cut(s) == s[..n]
    decreases n
  {
    if n > 0 {
      CutAt(s[1..], n - 1);
    }
  }

  lemma {:induction false} CutExactly(s: Text)
    ensures Cut(s) == s <==> 0 !in s
    decreases |s|
  {
    if s != [] {
      CutExactly(s[1..]);
      assert s == [s[0]] + s[1..];
    }
  }

  lemma HeldSlice(mem: seq<Byte>, at: nat, s: seq<Byte>, n: nat)
    requires Holds(mem, at, s) && n <= |s|
    ensures at + n <= |mem| && mem[at..at + n] == s[..n]
  {}

  lemma HeldAt(mem: seq<Byte>, at: nat, s: seq<Byte>, i: nat)
    requires Holds(mem, at, s) && i < |s|
    ensures at + i < |mem| && s[i] == mem[at + i]
  {}

  /** The bytes of a text that lie in front of a first zero byte. */
  lemma CutHeld(mem: seq<Byte>, at: nat, s: Text, z: nat)
    requires Holds(mem, at, s) && at <= z < |mem| && mem[z] == 0
    requires forall i :: at <= i < z ==> mem[i] != 0
    ensures at <= Min(z, at + |s|) <= |mem| && mem[at..Min(z, at + |s|)] == Cut(s)
  {
    hide Holds, Cut;
    var n := Min(z - at, |s|);
    HeldSlice(mem, at, s, n);
    forall i | 0 <= i < n
      ensures s[i] != 0
    {
      HeldAt(mem, at, s, i);
    }
    if n < |s| {
      HeldAt(mem, at, s, n);
    }
    CutAt(s, n);
  }

  /** Copying a text that lies in memory stays inside readable memory exactly if a zero byte follows its
      start somewhere, and gives the text up to its first zero byte. */
  lemma CopyTextExactly(mem: seq<Byte>, at: nat, s: Text)
    requires Holds(mem, at, s)
    ensures CopyText(mem, at, |s|) == if ZeroBehind(mem, at) then Got(|s|, Cut(s)) else Outside
  {
    hide ZeroAt, ZeroBehind, Cut, Holds;
    ZeroAtExactly(mem, at);
    if ZeroAt(mem, at).Got? {
      CutHeld(mem, at, s, ZeroAt(mem, at).ret);
    }
  }

  lemma TextParts(mem: seq<Byte>, at: nat, s: Text)
    requires |s| < 65536 && Holds(mem, at, WriteU16BE(|s|) + s)
    ensures at + 2 <= |mem| && ReadU16BE(mem, at) == |s| && Holds(mem, at + 2, s)
    ensures CopyText(mem, at + 2, |s|) == if ZeroBehind(mem, at + 2) then Got(|s|, Cut(s)) else Outside
  {
    hide CopyText, Cut, ZeroBehind, ReadU16BE, WriteU16BE, Holds;
    HoldsParts(mem, at, WriteU16BE(|s|), s);
    U16BERoundTrip(mem, at, |s|);
    CopyTextExactly(mem, at + 2, s);
  }

  /** A text below the long form is decoded up to its first zero byte, if a zero byte is found at all. */
  lemma TextDecodes(mem: seq<Byte>, at: nat, size: int, s: Text, d: Decoder)
    requires |s| < 65536 && Holds(mem, at, WriteU16BE(|s|) + s) && size >= |s| + 2
    ensures DecodeText(mem, at, size, d) ==
            if ZeroBehind(mem, at + 2) then Got(2 + |s|, d.(obj := d.obj.(kind := KString, text := Cut(s)))) else Outside
  {
    hide Holds, Cut, CopyText, ReadU16BE, WriteU16BE, ZeroBehind;
    TextParts(mem, at, s);
  }

  /** It comes back exactly if it has no zero byte and one follows it. */
  lemma TextDecodesExactly(mem: seq<Byte>, at: nat, size: int, s: Text, d: Decoder)
    requires |s| < 65536 && Holds(mem, at, WriteU16BE(|s|) + s) && size >= |s| + 2
    ensures DecodeText(mem, at, size, d) == Got(2 + |s|, d.(obj := d.obj.(kind := KString, text := s)))
            <==> 0 !in s && ZeroBehind(mem, at + 2 + |s|)
  {
    hide DecodeText, Holds, Cut, ZeroBehind, CopyText, ReadU16BE, WriteU16BE;
    TextParts(mem, at, s);
    TextDecodes(mem, at, size, s, d);
    CutExactly(s);
    if 0 !in s {
      ZeroSkips(mem, at + 2, s);
    }
  }

  lemma ZeroSkips(mem: seq<Byte>, at: nat, s: Text)
    requires Holds(mem, at, s) && 0 !in s
    ensures ZeroBehind(mem, at) <==> ZeroBehind(mem, at + |s|)
  {
    forall z | at <= z < at + |s|
      ensures mem[z] != 0
    {
      var i := z - at;
      assert mem[at + i] == s[i] && s[i] in s;
    }
  }

  // ---------- scalars ----------

  lemma {:induction false} ReversedTwice(s: seq<Byte>)
    ensures Reversed(Reversed(s)) == s
    decreases |s|
  {
    if s != [] {
      ReversedTwice(s[1..]);
      ReversedSnoc(Reversed(s[1..]), s[0]);
    }
  }

  lemma {:induction false} ReversedSnoc(s: seq<Byte>, x: Byte)
    ensures Reversed(s + [x]) == [x] + Reversed(s)
    decreases |s|
  {
    if s == [] {
      assert ([] + [x])[1..] == [];
    } else {
      assert (s + [x])[1..] == s[1..] + [x];
      ReversedSnoc(s[1..], x);
    }
  }

  /** What is kept of a text: all of it, or what a C string keeps. */
  function Kept(s: Text, whole: bool): Text {
    if whole then s else Cut(s)
  }

  /** A decoder's object after a scalar. */
  function Keep(obj: AmfObject, v: Value, whole: bool): AmfObject {
    match v
    case Number(bits) => obj.(kind := KNumber, num := bits)
    case Boolean(on) => obj.(kind := KBoolean, on := on)
    case Str(s) => obj.(kind := KString, text := Kept(s, whole))
  }

  /** Values whose texts are below the long form. */
  predicate Short(v: Value) {
    ValueOk(v) && (v.Str? ==> |v.text| < 65536)
  }

  /** A decoder reads a value as it was encoded, texts cut at a zero byte; and it leaves readable memory
      exactly if the value is a text and no zero byte follows its start. */
  lemma ValueDecodes(mem: seq<Byte>, at: nat, size: int, v: Value, d: Decoder, blank: Memory)
    requires Short(v) && Holds(mem, at, EncValue(v)) && size >= |EncValue(v)|
    ensures DecodeValue(mem, at + 1, size - 1, mem[at], d, blank) ==
            if v.Str? && !ZeroBehind(mem, at + 3) then Outside
            else Got(|EncValue(v)| - 1, d.(obj := Keep(d.obj, v, false)))
  {
    hide DecodeValue, ZeroBehind, EncValue, Keep, Holds;
    match v
    case Number(bits) => NumberDecodes(mem, at, size, bits, d, blank);
    case Boolean(on) => BooleanDecodes(mem, at, size, on, d, blank);
    case Str(s) => StrDecodes(mem, at, size, s, d, blank);
  }

  lemma BooleanDecodes(mem: seq<Byte>, at: nat, size: int, on: bool, d: Decoder, blank: Memory)
    requires Holds(mem, at, EncValue(Boolean(on))) && size >= |EncValue(Boolean(on))|
    ensures DecodeValue(mem, at + 1, size - 1, mem[at], d, blank) ==
            Got(|EncValue(Boolean(on))| - 1, d.(obj := Keep(d.obj, Boolean(on), false)))
  {
    assert mem[at + 0] == EncValue(Boolean(on))[0] && mem[at + 1] == EncValue(Boolean(on))[1];
  }

  lemma StrDecodes(mem: seq<Byte>, at: nat, size: int, s: Text, d: Decoder, blank: Memory)
    requires |s| < 65536 && Holds(mem, at, EncValue(Str(s))) && size >= |EncValue(Str(s))|
    ensures DecodeValue(mem, at + 1, size - 1, mem[at], d, blank) ==
            if !ZeroBehind(mem, at + 3) then Outside
            else Got(|EncValue(Str(s))| - 1, d.(obj := Keep(d.obj, Str(s), false)))
  {
    StrBytes(s);
    hide ZeroBehind, DecodeText, DecodeNumber, DecodeBoolean, DecodeEntries, Cut, EncValue, WriteU16BE;
    HoldsParts(mem, at, [STRING], WriteU16BE(|s|) + s);
    FirstHeld(mem, at, STRING);
    hide Holds;
    TextDecodes(mem, at + 1, size - 1, s, d);
  }

  lemma StrBytes(s: Text)
    requires |s| < 65536
    ensures EncValue(Str(s)) == [STRING] + (WriteU16BE(|s|) + s) && |EncValue(Str(s))| == 3 + |s|
  {}

  lemma NumberDecodes(mem: seq<Byte>, at: nat, size: int, bits: seq<Byte>, d: Decoder, blank: Memory)
    requires |bits| == 8 && Holds(mem, at, EncValue(Number(bits))) && size >= |EncValue(Number(bits))|
    ensures DecodeValue(mem, at + 1, size - 1, mem[at], d, blank) == Got(|EncValue(Number(bits))| - 1, d.(obj := Keep(d.obj, Number(bits), false)))
  {
    hide Reversed;
    HoldsParts(mem, at, [NUMBER], Reversed(bits));
    FirstHeld(mem, at, NUMBER);
    assert mem[at + 1..at + 9] == Reversed(bits);
    ReversedTwice(bits);
  }

  lemma FirstHeld(mem: seq<Byte>, at: nat, b: Byte)
    requires Holds(mem, at, [b])
    ensures mem[at] == b
  {
    assert mem[at + 0] == [b][0];
  }

  lemma ValueSize(v: Value)
    requires ValueOk(v)
    ensures |EncValue(v)| > 1
  {}

  // ---------- objects ----------

  predicate ShortEntries(es: seq<(Text, Value)>) {
    forall i :: 0 <= i < |es| ==> |es[i].0| < 65536 && Short(es[i].1)
  }

  /** The size of an entry. */
  function EntrySize(e: (Text, Value)): nat
    requires |e.0| < 65536 && Short(e.1)
  {
    2 + |e.0| + |EncValue(e.1)|
  }

  /** What decoding entries that lie at a position gives: of keys that are equal, perhaps only after they
      were cut, the first one is kept. */
  function Collect(es: seq<(Text, Value)>, blank: Memory, at: nat, whole: bool): Table
    requires ShortEntries(es)
  {
    if es == [] then map[]
    else
      var (k, v) := es[0];
      Collect(es[1..], blank, at + EntrySize(es[0]), whole)[Kept(k, whole) := Keep(blank(at + 2 + |k|), v, whole)]
  }

  predicate DistinctKeys(es: seq<(Text, Value)>) {
    forall i, j :: 0 <= i < j < |es| ==> es[i].0 != es[j].0
  }

  /** The bytes that end an object: an empty key and the end marker. */
  const OBJECT_TAIL: seq<Byte> := [0, 0, 9]

  lemma ShortRest(es: seq<(Text, Value)>)
    requires es != [] && ShortEntries(es)
    ensures ShortEntries(es[1..]) && |es[0].0| < 65536 && Short(es[0].1)
  {
    var rest := es[1..];
    assert forall i :: 0 <= i < |rest| ==> rest[i] == es[i + 1];
  }

  lemma ShortIsOk(es: seq<(Text, Value)>)
    requires ShortEntries(es)
    ensures EntriesOk(es)
  {}

  lemma Regroup(a: seq<Byte>, b: seq<Byte>, c: seq<Byte>, d: seq<Byte>)
    ensures a + b + c + d == a + (b + (c + d))
  {}

  lemma KeyBytes(k: Text)
    requires |k| < 65536
    ensures EncText(k, false) == WriteU16BE(|k|) + k
  {
    assert [] + WriteU16BE(|k|) == WriteU16BE(|k|);
  }

  lemma EntryBytes(es: seq<(Text, Value)>, tail: seq<Byte>)
    requires es != [] && ShortEntries(es) && EntriesOk(es)
    ensures EntriesOk(es[1..]) && ShortEntries(es[1..]) && |es[0].0| < 65536 && Short(es[0].1)
    ensures EncEntries(es) + tail ==
      (WriteU16BE(|es[0].0|) + es[0].0) + (EncValue(es[0].1) + (EncEntries(es[1..]) + tail))
    ensures |EncEntries(es)| == EntrySize(es[0]) + |EncEntries(es[1..])|
  {
    hide EncValue, ValueOk, WriteU16BE;
    ShortRest(es);
    ShortIsOk(es[1..]);
    KeyBytes(es[0].0);
    hide EncText;
    Regroup(EncText(es[0].0, false), EncValue(es[0].1), EncEntries(es[1..]), tail);
  }

  lemma EntryParts(mem: seq<Byte>, at: nat, es: seq<(Text, Value)>, tail: seq<Byte>)
    requires es != [] && ShortEntries(es) && EntriesOk(es) && Holds(mem, at, EncEntries(es) + tail)
    ensures ShortEntries(es[1..]) && EntriesOk(es[1..]) && |es[0].0| < 65536 && Short(es[0].1)
    ensures var (k, v) := es[0];
      && Holds(mem, at, WriteU16BE(|k|) + k) && Holds(mem, at + 2 + |k|, EncValue(v))
      && Holds(mem, at + EntrySize(es[0]), EncEntries(es[1..]) + tail)
      && |EncEntries(es)| == EntrySize(es[0]) + |EncEntries(es[1..])|
  {
    hide EncValue, ValueOk, WriteU16BE, EncEntries, Holds, ShortEntries, EntriesOk;
    var (k, v) := es[0];
    EntryBytes(es, tail);
    var key, val, rest := WriteU16BE(|k|) + k, EncValue(v), EncEntries(es[1..]) + tail;
    HoldsParts(mem, at, key, val + rest);
    HoldsParts(mem, at + |key|, val, rest);
  }

  /** A fresh decoder reads one value. */
  lemma OneValue(mem: seq<Byte>, at: nat, size: int, v: Value, blank: Memory)
    requires Short(v) && Holds(mem, at, EncValue(v)) && size >= |EncValue(v)|
    ensures Decode(mem, at, size, 0, 1, Decoder(blank(at), map[]), blank) ==
            if v.Str? && !ZeroBehind(mem, at + 3) then Outside
            else Got(|EncValue(v)|, Decoder(Keep(blank(at), v, false), map[]))
  {
    hide ZeroBehind, DecodeValue, Keep;
    ValueSize(v);
    ValueDecodes(mem, at, size, v, Decoder(blank(at), map[]), blank);
  }

  lemma EndOfObject(mem: seq<Byte>, at: nat, size: int, used: nat, objs: Table, blank: Memory)
    requires Holds(mem, at + used, OBJECT_TAIL) && size >= 3
    ensures DecodeEntries(mem, at, size, used, objs, blank) ==
            if ZeroBehind(mem, at + used + 2) then Got(used + 3, objs) else Outside
  {
    var p := at + used + 2;
    ZeroAtExactly(mem, p);
    assert mem[at + used + 0] == OBJECT_TAIL[0] && mem[at + used + 1] == OBJECT_TAIL[1] && mem[at + used + 2] == OBJECT_TAIL[2];
    assert ReadU16BE(mem, at + used) == 0;
    var d := Decoder(blank(p), map[]);
    assert DecodeValue(mem, p + 1, size - 3, OBJECT_END, d, blank) == Got(0, d);
    assert Decode(mem, p, size - 2, 0, 1, d, blank) == Got(1, d);
  }

  /** One entry: its key is read, then its value, each looking for a zero byte. */
  lemma EntryDecodes(mem: seq<Byte>, at: nat, size: int, used: nat, k: Text, v: Value, objs: Table, blank: Memory)
    requires |k| < 65536 && Short(v)
    requires Holds(mem, at + used, WriteU16BE(|k|) + k) && Holds(mem, at + used + 2 + |k|, EncValue(v))
    requires size >= EntrySize((k, v))
    ensures DecodeEntries(mem, at, size, used, objs, blank) ==
            if !ZeroBehind(mem, at + used + 2) || (v.Str? && !ZeroBehind(mem, at + used + 2 + |k| + 3)) then Outside
            else DecodeEntries(mem, at, size - 2 - |k|, used + EntrySize((k, v)),
                               if Cut(k) in objs then objs else objs[Cut(k) := Keep(blank(at + used + 2 + |k|), v, false)], blank)
  {
    hide Decode, EncValue, Keep, ZeroBehind, CopyText, ReadU16BE, ValueOk;
    HoldsParts(mem, at + used, WriteU16BE(|k|), k);
    U16BERoundTrip(mem, at + used, |k|);
    CopyTextExactly(mem, at + used + 2, k);
    OneValue(mem, at + used + 2 + |k|, size - 2 - |k|, v, blank);
    ValueSize(v);
  }

  /** The entries of an object decode to the table they came from, cut; and reading them stays inside
      readable memory exactly if a zero byte lies behind the start of the empty key that ends them. */
  lemma {:induction false} EntriesDecode(mem: seq<Byte>, at: nat, size: int, used: nat, es: seq<(Text, Value)>, objs: Table, blank: Memory)
    requires ShortEntries(es) && EntriesOk(es)
    requires Holds(mem, at + used, EncEntries(es) + OBJECT_TAIL) && size >= |EncEntries(es)| + 3
    ensures DecodeEntries(mem, at, size, used, objs, blank) ==
            if ZeroBehind(mem, at + used + |EncEntries(es)| + 2)
            then Got(used + |EncEntries(es)| + 3, Collect(es, blank, at + used, false) + objs) else Outside
    decreases |es|
  {
    hide DecodeEntries, EncValue, Keep, Holds, ZeroBehind, ShortEntries, EntriesOk, Collect, EncEntries, EntrySize, Cut, EncText;
    var end := at + used + |EncEntries(es)| + 2;
    if es == [] {
      NoEntriesLeft(blank, at + used, objs);
      EndOfObject(mem, at, size, used, objs, blank);
    } else {
      var (k, v) := es[0];
      EntryParts(mem, at + used, es, OBJECT_TAIL);
      EntryRoom(es[0]);
      ZeroEarlier(mem, at + used + 2, end);
      if v.Str? {
        ZeroEarlier(mem, at + used + 2 + |k| + 3, end);
      }
      EntryDecodes(mem, at, size, used, k, v, objs, blank);
      var objs' := if Cut(k) in objs then objs else objs[Cut(k) := Keep(blank(at + used + 2 + |k|), v, false)];
      EntriesDecode(mem, at, size - 2 - |k|, used + EntrySize(es[0]), es[1..], objs', blank);
      CollectStep(es, objs, blank, at + used);
    }
  }

  lemma NoEntriesLeft(blank: Memory, at: nat, objs: Table)
    ensures ShortEntries([]) && EntriesOk([]) && EncEntries([]) == [] && EncEntries([]) + OBJECT_TAIL == OBJECT_TAIL
    ensures Collect([], blank, at, false) + objs == objs
  {}

  lemma EntryRoom(e: (Text, Value))
    requires |e.0| < 65536 && Short(e.1)
    ensures EntrySize(e) > 2 + |e.0| && (e.1.Str? ==> EntrySize(e) >= 2 + |e.0| + 3)
  {
    ValueSize(e.1);
    if e.1.Str? {
      StrBytes(e.1.text);
    }
  }

  lemma CollectStep(es: seq<(Text, Value)>, objs: Table, blank: Memory, at: nat)
    requires es != [] && ShortEntries(es)
    ensures ShortEntries(es[1..]) && |es[0].0| < 65536 && Short(es[0].1)
    ensures var (k, v) := es[0];
      var objs' := if Cut(k) in objs then objs else objs[Cut(k) := Keep(blank(at + 2 + |k|), v, false)];
      Collect(es, blank, at, false) + objs == Collect(es[1..], blank, at + EntrySize(es[0]), false) + objs'
  {
    hide Keep, EncValue, Cut;
    ShortRest(es);
  }

  // ---------- whole messages ----------

  predicate ShortItem(it: Item) {
    match it case Scalar(v) => Short(v) case Object(es) => ShortEntries(es) && EntriesOk(es)
  }

  predicate ShortItems(its: seq<Item>) {
    ItemsOk(its) && forall i :: 0 <= i < |its| ==> ShortItem(its[i])
  }

  lemma ShortItemsRest(its: seq<Item>)
    requires its != [] && ShortItems(its)
    ensures ShortItem(its[0]) && ItemOk(its[0]) && ShortItems(its[1..])
  {
    var rest := its[1..];
    assert forall i :: 0 <= i < |rest| ==> rest[i] == its[i + 1];
  }

  /** The decoder after one item that lies at a position: a scalar is kept in the field of its kind, a
      non-empty object replaces the table. */
  function After(d: Decoder, it: Item, blank: Memory, at: nat, whole: bool): Decoder
    requires ShortItem(it)
  {
    match it
    case Scalar(v) => d.(obj := Keep(d.obj, v, whole))
    case Object(es) => if es == [] then d else d.(objs := Collect(es, blank, at + 1, whole))
  }

  function AfterAll(d: Decoder, its: seq<Item>, blank: Memory, at: nat, whole: bool): Decoder
    requires ShortItems(its)
    decreases |its|
  {
    if its == [] then d else
      ShortItemsRest(its);
      AfterAll(After(d, its[0], blank, at, whole), its[1..], blank, at + |EncItem(its[0])|, whole)
  }

  /** Where the last text of an item starts, its last key included; there is none in a number, a boolean or
      an empty object. */
  function LastText(it: Item): (p: int)
    requires ItemOk(it)
    ensures p == -1 || 0 <= p <= |EncItem(it)|
  {
    match it
    case Scalar(v) => if v.Str? then |EncItem(it)| - |v.text| else -1
    case Object(es) => if es == [] then -1 else |EncItem(it)| - 1
  }

  /** The same in a sequence. */
  function LastTextOf(its: seq<Item>): (p: int)
    requires ItemsOk(its)
    ensures p >= -1
    decreases |its|
  {
    if its == [] then -1 else
      var p := LastTextOf(its[1..]);
      if p >= 0 then |EncItem(its[0])| + p else LastText(its[0])
  }

  lemma ItemDecodes(mem: seq<Byte>, at: nat, size: int, it: Item, d: Decoder, blank: Memory)
    requires ShortItem(it) && Holds(mem, at, EncItem(it)) && size >= |EncItem(it)|
    ensures |EncItem(it)| > 0 && at < |mem|
    ensures DecodeValue(mem, at + 1, size - 1, mem[at], d, blank) ==
            if LastText(it) >= 0 && !ZeroBehind(mem, at + LastText(it)) then Outside
            else Got(|EncItem(it)| - 1, After(d, it, blank, at, false))
  {
    hide DecodeValue, ZeroBehind, Collect, EncObject, EncValue, Keep, Holds;
    match it
    case Scalar(v) => ScalarDecodes(mem, at, size, v, d, blank);
    case Object(es) =>
      if es == [] {
        NullDecodes(mem, at, size, d, blank);
      } else {
        ObjectDecodes(mem, at, size, es, d, blank);
      }
  }

  lemma ScalarDecodes(mem: seq<Byte>, at: nat, size: int, v: Value, d: Decoder, blank: Memory)
    requires Short(v) && Holds(mem, at, EncValue(v)) && size >= |EncValue(v)|
    ensures |EncValue(v)| > 0 && at < |mem| && (v.Str? ==> |EncValue(v)| - |v.text| == 3)
    ensures DecodeValue(mem, at + 1, size - 1, mem[at], d, blank) ==
            if v.Str? && !ZeroBehind(mem, at + 3) then Outside
            else Got(|EncValue(v)| - 1, d.(obj := Keep(d.obj, v, false)))
  {
    hide ZeroBehind, DecodeValue, Keep;
    ValueSize(v);
    if v.Str? {
      StrBytes(v.text);
    }
    hide EncValue;
    ValueDecodes(mem, at, size, v, d, blank);
  }

  lemma ObjectDecodes(mem: seq<Byte>, at: nat, size: int, es: seq<(Text, Value)>, d: Decoder, blank: Memory)
    requires EntriesOk(es) && ShortEntries(es) && es != []
    requires Holds(mem, at, EncObject(es)) && size >= |EncObject(es)|
    ensures at < |mem| && EncObject(es) != []
    ensures DecodeValue(mem, at + 1, size - 1, mem[at], d, blank) ==
            if !ZeroBehind(mem, at + |EncObject(es)| - 1) then Outside
            else Got(|EncObject(es)| - 1, d.(objs := Collect(es, blank, at + 1, false)))
  {
    hide ZeroBehind, DecodeEntries, DecodeValue, EncObject, EncEntries, EntriesOk, ShortEntries, Collect;
    var body := EncEntries(es) + OBJECT_TAIL;
    ObjectBytes(es);
    HoldsParts(mem, at, [OBJECT], body);
    FirstHeld(mem, at, OBJECT);
    hide Holds;
    EntriesDecode(mem, at + 1, size - 1, 0, es, map[], blank);
    NothingAdded(Collect(es, blank, at + 1, false));
    ObjectIsEntries(mem, at + 1, size - 1, d, blank);
  }

  lemma NullDecodes(mem: seq<Byte>, at: nat, size: int, d: Decoder, blank: Memory)
    requires Holds(mem, at, EncObject([]))
    ensures EncObject([]) == [NULL] && at < |mem|
    ensures DecodeValue(mem, at + 1, size - 1, mem[at], d, blank) == Got(0, d)
  {
    FirstHeld(mem, at, NULL);
  }

  lemma NothingAdded(t: Table)
    ensures t + map[] == t
  {}

  lemma ObjectIsEntries(mem: seq<Byte>, at: nat, size: int, d: Decoder, blank: Memory)
    ensures var r := DecodeEntries(mem, at, size, 0, map[], blank);
            DecodeValue(mem, at, size, OBJECT, d, blank) == if r.Got? then Got(r.ret, d.(objs := r.value)) else Outside
  {}

  lemma ObjectBytes(es: seq<(Text, Value)>)
    requires EntriesOk(es) && es != []
    ensures EncObject(es) == [OBJECT] + (EncEntries(es) + OBJECT_TAIL)
  {
    hide EncEntries;
    assert EncText([], false) + [OBJECT_END] == OBJECT_TAIL;
  }

  /** What the first item adds to the encoding of a sequence, to its outcome and to its last text. */
  lemma FirstItem(its: seq<Item>, d: Decoder, blank: Memory, at: nat, whole: bool)
    requires its != [] && ShortItems(its)
    ensures ShortItem(its[0]) && ItemOk(its[0]) && ShortItems(its[1..]) && ItemsOk(its) && ItemsOk(its[1..])
    ensures EncItems(its) == EncItem(its[0]) + EncItems(its[1..])
    ensures AfterAll(d, its, blank, at, whole) ==
            AfterAll(After(d, its[0], blank, at, whole), its[1..], blank, at + |EncItem(its[0])|, whole)
    ensures LastTextOf(its) == if LastTextOf(its[1..]) >= 0 then |EncItem(its[0])| + LastTextOf(its[1..]) else LastText(its[0])
  {
    hide EncItem, After, LastText, ShortItem, ItemOk;
    ShortItemsRest(its);
  }

  lemma DecodePass(mem: seq<Byte>, at: nat, size: int, used: nat, n: int, d: Decoder, blank: Memory)
    requires used < size && at + used < |mem| && n < 0
    ensures var r := DecodeValue(mem, at + used + 1, size - used - 1, mem[at + used], d, blank);
      && (r.Outside? ==> Decode(mem, at, size, used, n, d, blank) == Outside)
      && (r.Got? && r.ret >= 0 ==>
            Decode(mem, at, size, used, n, d, blank) == Decode(mem, at, size, used + 1 + r.ret, n - 1, r.value, blank))
  {
    hide DecodeValue;
  }

  lemma NoItems(mem: seq<Byte>, at: nat, used: nat, n: int, d: Decoder, blank: Memory)
    ensures EncItems([]) == [] && ShortItems([]) && LastTextOf([]) == -1 && AfterAll(d, [], blank, at + used, false) == d
    ensures Decode(mem, at, used, used, n, d, blank) == Got(used, d)
  {}

  lemma {:induction false} ItemsDecode(mem: seq<Byte>, at: nat, size: int, used: nat, n: int, its: seq<Item>, d: Decoder, blank: Memory)
    requires ShortItems(its) && n < 0
    requires Holds(mem, at + used, EncItems(its)) && size == used + |EncItems(its)|
    ensures Decode(mem, at, size, used, n, d, blank) ==
            if LastTextOf(its) >= 0 && !ZeroBehind(mem, at + used + LastTextOf(its)) then Outside
            else Got(size, AfterAll(d, its, blank, at + used, false))
    decreases |its|
  {
    hide *;
    if its == [] {
      NoItems(mem, at, used, n, d, blank);
    } else {
      FirstItem(its, d, blank, at + used, false);
      var first, rest := EncItem(its[0]), EncItems(its[1..]);
      HoldsParts(mem, at + used, first, rest);
      ItemDecodes(mem, at + used, size - used, its[0], d, blank);
      DecodePass(mem, at, size, used, n, d, blank);
      var p := LastTextOf(its[1..]);
      if p >= 0 && LastText(its[0]) >= 0 {
        ZeroEarlier(mem, at + used + LastText(its[0]), at + used + |first| + p);
      }
      ItemsDecode(mem, at, size, used + |first|, n - 1, its[1..], After(d, its[0], blank, at + used, false), blank);
    }
  }

  // ---------- what is lost ----------

  predicate PlainEntries(es: seq<(Text, Value)>) {
    forall i :: 0 <= i < |es| ==> 0 !in es[i].0 && (es[i].1.Str? ==> 0 !in es[i].1.text)
  }

  predicate IsStr(it: Item) {
    it.Scalar? && it.v.Str?
  }

  predicate HasStr(its: seq<Item>) {
    its != [] && (HasStr(its[1..]) || IsStr(its[0]))
  }

  /** The last text among the scalars. */
  function LastStr(its: seq<Item>): Text
    requires HasStr(its)
  {
    if HasStr(its[1..]) then LastStr(its[1..]) else its[0].v.text
  }

  predicate IsFull(it: Item) {
    it.Object? && it.entries != []
  }

  predicate HasObject(its: seq<Item>) {
    its != [] && (HasObject(its[1..]) || IsFull(its[0]))
  }

  /** The last object that is not empty. */
  function LastObject(its: seq<Item>): seq<(Text, Value)>
    requires HasObject(its)
  {
    if HasObject(its[1..]) then LastObject(its[1..]) else its[0].entries
  }

  function ObjectAt(its: seq<Item>, at: nat): nat
    requires HasObject(its) && ItemsOk(its)
  {
    if HasObject(its[1..]) then ObjectAt(its[1..], at + |EncItem(its[0])|) else at
  }

  lemma {:induction false} LastIsShort(its: seq<Item>)
    requires ShortItems(its) && HasObject(its)
    ensures ShortEntries(LastObject(its))
    decreases |its|
  {
    ShortItemsRest(its);
    if HasObject(its[1..]) {
      LastIsShort(its[1..]);
    }
  }

  /** What an item does to a decoder's object, with and without cutting, and to its table. */
  lemma AfterText(d: Decoder, d': Decoder, it: Item, blank: Memory, at: nat)
    requires ShortItem(it) && d'.obj == d.obj.(text := d'.obj.text)
    ensures var w, c := After(d, it, blank, at, true).obj, After(d', it, blank, at, false).obj;
      && c == w.(text := c.text)
      && w.text == (if it.Scalar? && it.v.Str? then it.v.text else d.obj.text)
      && c.text == (if it.Scalar? && it.v.Str? then Cut(it.v.text) else d'.obj.text)
  {
    hide Collect, Cut;
  }

  lemma AfterTable(d: Decoder, it: Item, blank: Memory, at: nat, whole: bool)
    requires ShortItem(it)
    ensures IsFull(it) ==> ShortEntries(it.entries) && After(d, it, blank, at, whole).objs == Collect(it.entries, blank, at + 1, whole)
    ensures !IsFull(it) ==> After(d, it, blank, at, whole).objs == d.objs
  {
    hide Collect, Cut;
  }

  /** After a sequence, the text is that of the last string; the other fields of the object do not depend
      on how texts are cut. */
  lemma {:induction false} TextAfterAll(d: Decoder, d': Decoder, its: seq<Item>, blank: Memory, at: nat)
    requires ShortItems(its) && d'.obj == d.obj.(text := d'.obj.text)
    ensures var w, c := AfterAll(d, its, blank, at, true).obj, AfterAll(d', its, blank, at, false).obj;
      && c == w.(text := c.text)
      && w.text == (if HasStr(its) then LastStr(its) else d.obj.text)
      && c.text == (if HasStr(its) then Cut(LastStr(its)) else d'.obj.text)
    decreases |its|
  {
    hide AfterAll, After, Cut, EncItem, ShortItem, ShortItems, ItemsOk;
    if its == [] {
      NothingAfter(d, d', blank, at);
    } else {
      FirstItem(its, d, blank, at, true);
      FirstItem(its, d', blank, at, false);
      AfterText(d, d', its[0], blank, at);
      TextAfterAll(After(d, its[0], blank, at, true), After(d', its[0], blank, at, false), its[1..], blank, at + |EncItem(its[0])|);
    }
  }

  lemma {:induction false} TableKept(d: Decoder, its: seq<Item>, blank: Memory, at: nat, whole: bool)
    requires ShortItems(its) && !HasObject(its)
    ensures AfterAll(d, its, blank, at, whole).objs == d.objs
    decreases |its|
  {
    hide AfterAll, After, EncItem, ShortItem, ShortItems, Collect;
    if its == [] {
      NothingAfter(d, d, blank, at);
    } else {
      FirstItem(its, d, blank, at, whole);
      AfterTable(d, its[0], blank, at, whole);
      TableKept(After(d, its[0], blank, at, whole), its[1..], blank, at + |EncItem(its[0])|, whole);
    }
  }

  /** And the table is that of the last object that is not empty. */
  lemma {:induction false} TableAfterAll(d: Decoder, its: seq<Item>, blank: Memory, at: nat, whole: bool)
    requires ShortItems(its) && ItemsOk(its) && HasObject(its) && ShortEntries(LastObject(its))
    ensures AfterAll(d, its, blank, at, whole).objs == Collect(LastObject(its), blank, ObjectAt(its, at) + 1, whole)
    decreases |its|
  {
    hide AfterAll, After, EncItem, ShortItem, ShortItems, Collect, ItemsOk, ShortEntries;
    FirstItem(its, d, blank, at, whole);
    var d1, at1 := After(d, its[0], blank, at, whole), at + |EncItem(its[0])|;
    if HasObject(its[1..]) {
      TableAfterAll(d1, its[1..], blank, at1, whole);
    } else {
      AfterTable(d, its[0], blank, at, whole);
      TableKept(d1, its[1..], blank, at1, whole);
    }
  }

  lemma NothingAfter(d: Decoder, d': Decoder, blank: Memory, at: nat)
    ensures ShortItems([]) && !HasStr([]) && !HasObject([])
    ensures AfterAll(d, [], blank, at, true) == d && AfterAll(d', [], blank, at, false) == d'
  {}

  lemma {:induction false} InCollect(es: seq<(Text, Value)>, blank: Memory, at: nat, whole: bool, i: nat)
    requires ShortEntries(es) && i < |es|
    ensures Kept(es[i].0, whole) in Collect(es, blank, at, whole)
    decreases |es|
  {
    ShortRest(es);
    if i > 0 {
      assert es[i] == es[1..][i - 1];
      hide Keep, EncValue, Cut;
      InCollect(es[1..], blank, at + EntrySize(es[0]), whole, i - 1);
    }
  }

  lemma {:induction false} FromCollect(es: seq<(Text, Value)>, blank: Memory, at: nat, whole: bool, k: Text) returns (i: nat)
    requires ShortEntries(es) && k in Collect(es, blank, at, whole)
    ensures i < |es| && Kept(es[i].0, whole) == k
    decreases |es|
  {
    hide Collect, Kept, ShortEntries, EntrySize;
    CollectKeys(es, blank, at, whole, k);
    if k == Kept(es[0].0, whole) {
      i := 0;
    } else {
      i := FromCollect(es[1..], blank, at + EntrySize(es[0]), whole, k);
      assert es[i + 1] == es[1..][i];
      i := i + 1;
    }
  }

  lemma CollectKeys(es: seq<(Text, Value)>, blank: Memory, at: nat, whole: bool, k: Text)
    requires ShortEntries(es) && k in Collect(es, blank, at, whole)
    ensures es != [] && ShortEntries(es[1..]) && |es[0].0| < 65536 && Short(es[0].1)
    ensures k == Kept(es[0].0, whole) || k in Collect(es[1..], blank, at + EntrySize(es[0]), whole)
  {
    ShortRest(es);
    hide Keep, EncValue, Cut, Kept;
  }

  lemma DistinctRest(es: seq<(Text, Value)>)
    requires es != [] && DistinctKeys(es)
    ensures DistinctKeys(es[1..]) && forall i :: 0 <= i < |es[1..]| ==> es[1..][i].0 != es[0].0
  {}

  lemma {:induction false} PlainCollects(es: seq<(Text, Value)>, blank: Memory, at: nat)
    requires ShortEntries(es) && PlainEntries(es)
    ensures Collect(es, blank, at, false) == Collect(es, blank, at, true)
    decreases |es|
  {
    if es != [] {
      ShortRest(es);
      var rest := es[1..];
      assert forall i :: 0 <= i < |rest| ==> rest[i] == es[i + 1];
      PlainCollects(rest, blank, at + EntrySize(es[0]));
      CutExactly(es[0].0);
      if es[0].1.Str? {
        CutExactly(es[0].1.text);
      }
    }
  }

  /** The value under a key, when keys are distinct. */
  lemma {:induction false} CollectedAt(es: seq<(Text, Value)>, blank: Memory, at: nat, i: nat) returns (p: nat)
    requires ShortEntries(es) && DistinctKeys(es) && i < |es|
    requires forall j :: 0 <= j < |es| ==> Cut(es[j].0) == es[j].0
    ensures es[i].0 in Collect(es, blank, at, true) && es[i].0 in Collect(es, blank, at, false)
    ensures Collect(es, blank, at, true)[es[i].0] == Keep(blank(p), es[i].1, true)
    ensures Collect(es, blank, at, false)[es[i].0] == Keep(blank(p), es[i].1, false)
    decreases |es|
  {
    hide Collect, Keep, EncValue, Cut, EntrySize, ShortEntries, DistinctKeys;
    CollectUncut(es, blank, at, true);
    CollectUncut(es, blank, at, false);
    if i == 0 {
      p := at + 2 + |es[0].0|;
    } else {
      DistinctRest(es);
      assert es[i] == es[1..][i - 1];
      assert forall j :: 0 <= j < |es[1..]| ==> es[1..][j] == es[j + 1];
      p := CollectedAt(es[1..], blank, at + EntrySize(es[0]), i - 1);
    }
  }

  lemma CollectUncut(es: seq<(Text, Value)>, blank: Memory, at: nat, whole: bool)
    requires ShortEntries(es) && es != [] && Cut(es[0].0) == es[0].0
    ensures ShortEntries(es[1..]) && |es[0].0| < 65536 && Short(es[0].1)
    ensures Collect(es, blank, at, whole) ==
      Collect(es[1..], blank, at + EntrySize(es[0]), whole)[es[0].0 := Keep(blank(at + 2 + |es[0].0|), es[0].1, whole)]
  {
    ShortRest(es);
    hide Keep, Cut;
  }

  /** If cutting leaves the keys of a table alone, no key has a zero byte. */
  lemma SameKeysArePlain(es: seq<(Text, Value)>, blank: Memory, at: nat, i: nat)
    requires ShortEntries(es) && Collect(es, blank, at, false).Keys == Collect(es, blank, at, true).Keys && i < |es|
    ensures Cut(es[i].0) == es[i].0
  {
    hide Collect, Cut, ShortEntries;
    InCollect(es, blank, at, true, i);
    assert es[i].0 in Collect(es, blank, at, false).Keys;
    var j := FromCollect(es, blank, at, false, es[i].0);
    CutHasNoZero(es[j].0);
    CutExactly(es[i].0);
  }

  /** Cutting texts changes the table of an object exactly if some text in it has a zero byte. */
  lemma CollectExactly(es: seq<(Text, Value)>, blank: Memory, at: nat)
    requires ShortEntries(es) && DistinctKeys(es)
    ensures Collect(es, blank, at, false) == Collect(es, blank, at, true) <==> PlainEntries(es)
  {
    if PlainEntries(es) {
      PlainCollects(es, blank, at);
    }
    if Collect(es, blank, at, false) == Collect(es, blank, at, true) {
      hide Collect, Cut, ShortEntries, DistinctKeys;
      forall i | 0 <= i < |es|
        ensures Cut(es[i].0) == es[i].0
      {
        SameKeysArePlain(es, blank, at, i);
      }
      forall i | 0 <= i < |es|
        ensures 0 !in es[i].0 && (es[i].1.Str? ==> 0 !in es[i].1.text)
      {
        CutExactly(es[i].0);
        var p := CollectedAt(es, blank, at, i);
        if es[i].1.Str? {
          CutExactly(es[i].1.text);
        }
      }
    }
  }

  lemma {:induction false} CutHasNoZero(s: Text)
    ensures 0 !in Cut(s)
    decreases |s|
  {
    if s != [] {
      CutHasNoZero(s[1..]);
    }
  }

  predicate DistinctItems(its: seq<Item>) {
    forall i :: 0 <= i < |its| && its[i].Object? ==> DistinctKeys(its[i].entries)
  }

  lemma {:induction false} LastIsDistinct(its: seq<Item>)
    requires DistinctItems(its) && HasObject(its)
    ensures DistinctKeys(LastObject(its))
    decreases |its|
  {
    if HasObject(its[1..]) {
      assert forall i :: 0 <= i < |its[1..]| ==> its[1..][i] == its[i + 1];
      LastIsDistinct(its[1..]);
    } else {
      assert its[0].Object?;
    }
  }

  // ---------- the round trip ----------

  lemma HoldsFront(a: seq<Byte>, b: seq<Byte>)
    ensures Holds(a + b, 0, a)
  {}

  /** Any sequence of scalars and objects, texts and keys below the long form, encoded and then decoded
      without a limit. Decoding stays inside readable memory exactly if there is no text at all, or a zero
      byte lies at or behind the start of the last one, the empty key at the end of an object included. It
      then consumes every byte and leaves the last scalar of each kind and the last non-empty object, texts
      cut at a zero byte. */
  lemma DecodesExactly(its: seq<Item>, behind: seq<Byte>, d: Decoder, blank: Memory)
    requires ShortItems(its)
    ensures Decode(EncItems(its) + behind, 0, |EncItems(its)|, 0, -1, d, blank) ==
            if LastTextOf(its) >= 0 && !ZeroBehind(EncItems(its) + behind, LastTextOf(its)) then Outside
            else Got(|EncItems(its)|, AfterAll(d, its, blank, 0, false))
  {
    hide Decode, ZeroBehind, AfterAll, EncItems, Holds, LastTextOf;
    HoldsFront(EncItems(its), behind);
    ItemsDecode(EncItems(its) + behind, 0, |EncItems(its)|, 0, -1, its, d, blank);
  }

  /** Nothing is lost exactly if the last text among the scalars and the last non-empty object have no zero
      byte in their texts. */
  lemma LosesExactly(its: seq<Item>, d: Decoder, blank: Memory, at: nat)
    requires ShortItems(its) && DistinctItems(its)
    ensures AfterAll(d, its, blank, at, false) == AfterAll(d, its, blank, at, true)
      <==> (HasStr(its) ==> 0 !in LastStr(its)) && (HasObject(its) ==> PlainEntries(LastObject(its)))
  {
    hide AfterAll, Collect, Cut, ShortEntries, PlainEntries, LastStr, LastObject, HasStr, HasObject, ObjectAt;
    TextAfterAll(d, d, its, blank, at);
    if HasObject(its) {
      LastIsShort(its);
      LastIsDistinct(its);
      TableAfterAll(d, its, blank, at, true);
      TableAfterAll(d, its, blank, at, false);
      CollectExactly(LastObject(its), blank, ObjectAt(its, at) + 1);
    } else {
      TableKept(d, its, blank, at, true);
      TableKept(d, its, blank, at, false);
    }
    if HasStr(its) {
      CutExactly(LastStr(its));
    }
  }

  /** The round trip: decoding gives back exactly what was encoded if and only if reading finds its zero
      byte and the texts that remain have none. */
  lemma RoundTrip(its: seq<Item>, behind: seq<Byte>, d: Decoder, blank: Memory)
    requires ShortItems(its) && DistinctItems(its)
    ensures Decode(EncItems(its) + behind, 0, |EncItems(its)|, 0, -1, d, blank) ==
              Got(|EncItems(its)|, AfterAll(d, its, blank, 0, true))
      <==> && (LastTextOf(its) < 0 || ZeroBehind(EncItems(its) + behind, LastTextOf(its)))
           && (HasStr(its) ==> 0 !in LastStr(its)) && (HasObject(its) ==> PlainEntries(LastObject(its)))
  {
    hide Decode, AfterAll, ZeroBehind, PlainEntries, ShortItems;
    DecodesExactly(its, behind, d, blank);
    LosesExactly(its, d, blank, 0);
  }

  /** An object with nothing behind it: the search for the end of its last key leaves the memory. */
  lemma ObjectNeedsZeroBehind(es: seq<(Text, Value)>, d: Decoder, blank: Memory)
    requires es != [] && ShortEntries(es) && EntriesOk(es)
    ensures ShortItems([Object(es)])
    ensures Decode(EncItems([Object(es)]), 0, |EncItems([Object(es)])|, 0, -1, d, blank) == Outside
  {
    hide Decode, EncEntries, EncObject, ShortEntries, EntriesOk;
    var its := [Object(es)];
    assert its[1..] == [];
    ObjectBytes(es);
    var enc := EncItems(its);
    assert enc == EncObject(es) + [] && enc[|enc| - 1] == OBJECT_TAIL[2];
    assert enc + [] == enc && LastTextOf(its) == |enc| - 1;
    DecodesExactly(its, [], d, blank);
  }

  // ---------- maps ----------

  /** The entries are those of the map, each once, in some order. */
  ghost predicate Lists(es: seq<(Text, Value)>, m: map<Text, Value>) {
    && DistinctKeys(es)
    && (forall e <- es :: e.0 in m && m[e.0] == e.1)
    && (forall k <- m :: (k, m[k]) in es)
  }

  /** The object holds the value in the field of its kind. */
  predicate Carries(obj: AmfObject, v: Value) {
    match v
    case Number(bits) => obj.kind == KNumber && obj.num == bits
    case Boolean(on) => obj.kind == KBoolean && obj.on == on
    case Str(s) => obj.kind == KString && obj.text == s
  }

  lemma {:induction false} Collected(es: seq<(Text, Value)>, blank: Memory, at: nat)
    requires ShortEntries(es) && DistinctKeys(es)
    ensures forall e <- es :: e.0 in Collect(es, blank, at, true) && Carries(Collect(es, blank, at, true)[e.0], e.1)
    decreases |es|
  {
    if es != [] {
      ShortRest(es);
      DistinctRest(es);
      Collected(es[1..], blank, at + EntrySize(es[0]));
      hide EncValue;
      forall e | e in es
        ensures e.0 in Collect(es, blank, at, true) && Carries(Collect(es, blank, at, true)[e.0], e.1)
      {
        assert e == es[0] || e in es[1..];
      }
    }
  }

  /** Whatever the order in which a map yields its entries, and whatever memory the decoders find, the
      decoded table has the map's keys and carries its values. */
  lemma OrderDoesNotMatter(es: seq<(Text, Value)>, m: map<Text, Value>, blank: Memory, at: nat)
    requires ShortEntries(es) && Lists(es, m)
    ensures var t := Collect(es, blank, at, true);
      t.Keys == m.Keys && forall k <- m :: Carries(t[k], m[k])
  {
    hide Carries, Keep, EncValue;
    Collected(es, blank, at);
    var t := Collect(es, blank, at, true);
    forall k
      ensures k in t <==> k in m
    {
      if k in t {
        var i := FromCollect(es, blank, at, true, k);
        assert es[i] in es;
      }
      if k in m {
        assert (k, m[k]) in es;
      }
    }
    forall k | k in m
      ensures Carries(t[k], m[k])
    {
      assert (k, m[k]) in es;
    }
  }
}
