/** The AMF0 format byte by byte, in plain numbers: what the encoder writes and what the decoder makes of it, each on
    its own. */
module AmfFormat {
  import opened Bytes
  import opened AmfSpec
  import opened AmfRoundTrip

  // ---------- the encoder ----------

  /** A number is a zero and the eight bytes of the double in reverse order. */
  lemma NumberForm(bits: seq<Byte>)
    requires |bits| == 8
    ensures EncValue(Number(bits)) == [0, bits[7], bits[6], bits[5], bits[4], bits[3], bits[2], bits[1], bits[0]]
  {
    EightReversed(bits);
  }

  lemma EightReversed(bits: seq<Byte>)
    requires |bits| == 8
    ensures Reversed(bits) == [bits[7], bits[6], bits[5], bits[4], bits[3], bits[2], bits[1], bits[0]]
  {
    ReversedAt(bits);
  }

  lemma {:induction false} ReversedAt(s: seq<Byte>)
    ensures forall i :: 0 <= i < |s| ==> Reversed(s)[i] == s[|s| - 1 - i]
    decreases |s|
  {
    if s != [] {
      ReversedAt(s[1..]);
      assert forall i :: 0 <= i < |s| - 1 ==> Reversed(s)[i] == s[1..][|s| - 2 - i];
    }
  }

  lemma BooleanForm(on: bool)
    ensures EncValue(Boolean(on)) == if on then [1, 1] else [1, 0]
  {}

  /** A text is a two and a length of two bytes, or from 65536 on a twelve and a length of four; and the text. */
  lemma TextForm(s: Text)
    requires |s| < 4294967296
    ensures EncValue(Str(s)) ==
      (if |s| < 65536 then [2, |s| / 256, |s| % 256]
       else [12, |s| / 16777216, |s| / 65536 % 256, |s| / 256 % 256, |s| % 256]) + s
    ensures EncText(s, false) ==
      (if |s| < 65536 then [|s| / 256, |s| % 256]
       else [|s| / 16777216, |s| / 65536 % 256, |s| / 256 % 256, |s| % 256]) + s
  {
    HeadForm(|s|);
    hide TextHead;
  }

  lemma HeadForm(n: U32)
    ensures TextHead(n, true) ==
      if n < 65536 then [2, n / 256, n % 256] else [12, n / 16777216, n / 65536 % 256, n / 256 % 256, n % 256]
    ensures TextHead(n, false) ==
      if n < 65536 then [n / 256, n % 256] else [n / 16777216, n / 65536 % 256, n / 256 % 256, n % 256]
  {
    assert n < 65536 ==> n / 256 % 256 == n / 256;
  }

  /** An object is a three, its entries and 0 0 9; an empty one is a five. An entry is its key without a type byte, and
      its value. */
  lemma ObjectForm(es: seq<(Text, Value)>)
    requires EntriesOk(es)
    ensures EncItem(Object(es)) == if es == [] then [5] else [3] + EncEntries(es) + [0, 0, 9]
    ensures EncEntries(es) == if es == [] then [] else EncText(es[0].0, false) + EncValue(es[0].1) + EncEntries(es[1..])
  {
    assert EncText([], false) == [0, 0];
  }

  // ---------- the decoder ----------

  /** What the type byte leads to. `at` is the position behind it. */
  lemma ValueByType(mem: seq<Byte>, at: nat, size: int, marker: Byte, d: Decoder, blank: Memory)
    ensures var r := DecodeValue(mem, at, size, marker, d, blank); var o := d.obj;
      && (marker == 0 ==> r == NumberAt(mem, at, size, d.(obj := o.(kind := KNumber))))
      && (marker == 1 ==> r == BooleanAt(mem, at, size, d.(obj := o.(kind := KBoolean))))
      && (marker == 3 ==> r == Tabled(DecodeEntries(mem, at, size, 0, map[], blank), d))
      && (marker == 8 ==> r == Tabled(DecodeEntries(mem, at + 4, size - 4, 0, map[], blank), d))
      && (marker !in {0, 1, 2, 3, 8} ==> r == Got(0, d))
  {
    hide DecodeEntries, Reversed;
    if at + 8 <= |mem| {
      EightReversed(mem[at..at + 8]);
    }
  }

  function NumberAt(mem: seq<Byte>, at: nat, size: int, d: Decoder): Out<Decoder> {
    if size < 8 then Got(-1, d)
    else if at + 8 > |mem| then Outside
    else
      var num := [mem[at + 7], mem[at + 6], mem[at + 5], mem[at + 4], mem[at + 3], mem[at + 2], mem[at + 1], mem[at]];
      Got(8, d.(obj := d.obj.(num := num)))
  }

  function BooleanAt(mem: seq<Byte>, at: nat, size: int, d: Decoder): Out<Decoder> {
    if size < 1 then Got(-1, d)
    else if at >= |mem| then Outside
    else Got(1, d.(obj := d.obj.(on := mem[at] != 0)))
  }

  function Tabled(r: Out<Table>, d: Decoder): Out<Decoder> {
    match r
    case Outside => Outside
    case Got(ret, objs) => Got(ret, d.(objs := objs))
  }

  /** A text: two bytes of length, then so many bytes, of which those from the first zero byte on are lost. */
  lemma TextByType(mem: seq<Byte>, at: nat, size: int, d: Decoder, blank: Memory)
    ensures var r := DecodeValue(mem, at, size, 2, d, blank);
      if size < 2 then r == Got(-1, d.(obj := d.obj.(kind := KString)))
      else if at + 2 > |mem| then r == Outside
      else
        var n := 256 * mem[at] as int + mem[at + 1];
        if n > size - 2 then r == Got(-2, d.(obj := d.obj.(kind := KString)))
        else if forall z :: at + 2 <= z < |mem| ==> mem[z] != 0 then r == Outside
        else
          && r.Got? && r.ret == 2 + n && r.value == d.(obj := d.obj.(kind := KString, text := r.value.obj.text))
          && var s := r.value.obj.text;
          && |s| <= n && at + 2 + |s| <= |mem| && s == mem[at + 2..at + 2 + |s|] && 0 !in s
          && (|s| < n ==> at + 2 + |s| < |mem| && mem[at + 2 + |s|] == 0)
  {
    if size >= 2 && at + 2 <= |mem| {
      ZeroAtExactly(mem, at + 2);
    }
  }

  /** The loop reads as many values as it was asked for, and not a byte more. */
  lemma {:induction false} LimitedDecode(mem: seq<Byte>, at: nat, size: int, used: nat, its: seq<Item>, d: Decoder, blank: Memory)
    requires ShortItems(its) && its != []
    requires Holds(mem, at + used, EncItems(its)) && size >= used + |EncItems(its)|
    ensures Decode(mem, at, size, used, |its|, d, blank) ==
            if LastTextOf(its) >= 0 && !ZeroBehind(mem, at + used + LastTextOf(its)) then Outside
            else Got(used + |EncItems(its)|, AfterAll(d, its, blank, at + used, false))
    decreases |its|
  {
    hide *;
    FirstItem(its, d, blank, at + used, false);
    var first, rest := EncItem(its[0]), EncItems(its[1..]);
    HoldsParts(mem, at + used, first, rest);
    ItemDecodes(mem, at + used, size - used, its[0], d, blank);
    LimitedPass(mem, at, size, used, |its|, d, blank);
    var d' := After(d, its[0], blank, at + used, false);
    if |its| == 1 {
      NoItems(mem, at, used + |first|, 0, d', blank);
      assert its[1..] == [];
    } else {
      var p := LastTextOf(its[1..]);
      if p >= 0 && LastText(its[0]) >= 0 {
        ZeroEarlier(mem, at + used + LastText(its[0]), at + used + |first| + p);
      }
      LimitedDecode(mem, at, size, used + |first|, its[1..], d', blank);
    }
  }

  lemma LimitedPass(mem: seq<Byte>, at: nat, size: int, used: nat, n: int, d: Decoder, blank: Memory)
    requires used < size && at + used < |mem| && n > 0
    ensures var r := DecodeValue(mem, at + used + 1, size - used - 1, mem[at + used], d, blank);
      && (r.Outside? ==> Decode(mem, at, size, used, n, d, blank) == Outside)
      && (r.Got? && r.ret < 0 ==> Decode(mem, at, size, used, n, d, blank) == Got(used + 1, r.value))
      && (r.Got? && r.ret >= 0 ==>
            Decode(mem, at, size, used, n, d, blank) ==
              if n == 1 then Got(used + 1 + r.ret, r.value) else Decode(mem, at, size, used + 1 + r.ret, n - 1, r.value, blank))
  {
    hide DecodeValue;
  }

  /** In the table of an object the first entry under a key counts, and its value is in the field of its kind. */
  lemma {:induction false} FirstKeyCounts(es: seq<(Text, Value)>, blank: Memory, at: nat, i: nat)
    requires ShortEntries(es) && i < |es| && forall j :: 0 <= j < i ==> es[j].0 != es[i].0
    ensures var t := Collect(es, blank, at, true);
      && es[i].0 in t
      && match es[i].1
         case Number(bits) => t[es[i].0].kind == KNumber && t[es[i].0].num == bits
         case Boolean(on) => t[es[i].0].kind == KBoolean && t[es[i].0].on == on
         case Str(text) => t[es[i].0].kind == KString && t[es[i].0].text == text
    decreases |es|
  {
    ShortRest(es);
    if i > 0 {
      assert es[i] == es[1..][i - 1];
      assert forall j :: 0 <= j < |es[1..]| ==> es[1..][j] == es[j + 1];
      FirstKeyCounts(es[1..], blank, at + EntrySize(es[0]), i - 1);
    }
  }
}
