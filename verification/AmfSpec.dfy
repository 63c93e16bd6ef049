/** AMF0: the byte form of values and objects, and what the decoder makes of bytes in memory. */
module AmfSpec {
  import opened Bytes

  const NUMBER: Byte := 0
  const BOOLEAN: Byte := 1
  const STRING: Byte := 2
  const OBJECT: Byte := 3
  const NULL: Byte := 5
  const ECMA_ARRAY: Byte := 8
  const OBJECT_END: Byte := 9
  const LONG_STRING: Byte := 12

  type Text = seq<Byte>

  /** A scalar. A number is the eight bytes of the double, as they lie in memory. */
  datatype Value = Number(bits: seq<Byte>) | Boolean(on: bool) | Str(text: Text)

  /** What is sent: a scalar, or an object as its entries in the order the map yields them. */
  datatype Item = Scalar(v: Value) | Object(entries: seq<(Text, Value)>)

  // ---------- encoding ----------

  function Reversed(s: seq<Byte>): (r: seq<Byte>)
    ensures |r| == |s|
  {
    if s == [] then [] else Reversed(s[1..]) + [s[0]]
  }

  /** The type byte, if any, and the length of a text. */
  function TextHead(n: U32, typed: bool): seq<Byte> {
    if n < 65536 then (if typed then [STRING] else []) + WriteU16BE(n)
    else (if typed then [LONG_STRING] else []) + WriteU32BE(n)
  }

  function EncText(s: Text, typed: bool): seq<Byte>
    requires |s| < 0x1_0000_0000
  {
    TextHead(|s|, typed) + s
  }

  predicate ValueOk(v: Value) {
    match v
    case Number(bits) => |bits| == 8
    case Boolean(_) => true
    case Str(s) => |s| < 0x1_0000_0000
  }

  function EncValue(v: Value): seq<Byte>
    requires ValueOk(v)
  {
    match v
    case Number(bits) => [NUMBER] + Reversed(bits)
    case Boolean(on) => [BOOLEAN, if on then 1 else 0]
    case Str(s) => EncText(s, true)
  }

  predicate EntriesOk(es: seq<(Text, Value)>) {
    forall i :: 0 <= i < |es| ==> |es[i].0| < 0x1_0000_0000 && ValueOk(es[i].1)
  }

  function EncEntries(es: seq<(Text, Value)>): seq<Byte>
    requires EntriesOk(es)
  {
    if es == [] then [] else EncText(es[0].0, false) + EncValue(es[0].1) + EncEntries(es[1..])
  }

  function EncObject(es: seq<(Text, Value)>): seq<Byte>
    requires EntriesOk(es)
  {
    if es == [] then [NULL] else [OBJECT] + EncEntries(es) + EncText([], false) + [OBJECT_END]
  }

  predicate ItemOk(it: Item) {
    match it case Scalar(v) => ValueOk(v) case Object(es) => EntriesOk(es)
  }

  function EncItem(it: Item): seq<Byte>
    requires ItemOk(it)
  {
    match it case Scalar(v) => EncValue(v) case Object(es) => EncObject(es)
  }

  predicate ItemsOk(its: seq<Item>) {
    forall i :: 0 <= i < |its| ==> ItemOk(its[i])
  }

  function EncItems(its: seq<Item>): seq<Byte>
    requires ItemsOk(its)
  {
    if its == [] then [] else EncItem(its[0]) + EncItems(its[1..])
  }

  // ---------- decoding ----------

  datatype Kind = KNumber | KBoolean | KString

  /** The decoder's object: a kind and one field per kind. Only the field of the last value of each
      kind means anything; a fresh object holds whatever its memory held. */
  datatype AmfObject = AmfObject(kind: Kind, text: Text, num: seq<Byte>, on: bool)

  type Table = map<Text, AmfObject>

  /** The memory a new decoder finds, which nobody initialised: it may depend on where the value lies that
      the decoder is made for. */
  type Memory = nat -> AmfObject

  datatype Decoder = Decoder(obj: AmfObject, objs: Table)

  /** A call either reads outside the readable memory, or returns a number and a new state. */
  datatype Out<+T> = Outside | Got(ret: int, value: T)

  /** The position of the first zero byte from `at` on. */
  function ZeroAt(mem: seq<Byte>, at: nat): (z: Out<()>)
    ensures z.Got? ==> at <= z.ret < |mem| && mem[z.ret] == 0 && forall i :: at <= i < z.ret ==> mem[i] != 0
    decreases |mem| - at
  {
    if at >= |mem| then Outside else if mem[at] == 0 then Got(at, ()) else ZeroAt(mem, at + 1)
  }

  /** Text is copied by way of a C string: it ends at the first zero byte, which is looked for even
      beyond the announced length. */
  function CopyText(mem: seq<Byte>, at: nat, n: nat): Out<Text> {
    match ZeroAt(mem, at)
    case Outside => Outside
    case Got(z, _) => Got(n, mem[at..Min(z, at + n)])
  }

  function DecodeNumber(mem: seq<Byte>, at: nat, size: int, d: Decoder): Out<Decoder> {
    var d' := d.(obj := d.obj.(kind := KNumber));
    if size < 8 then Got(-1, d')
    else if at + 8 > |mem| then Outside
    else Got(8, d'.(obj := d'.obj.(num := Reversed(mem[at..at + 8]))))
  }

  function DecodeBoolean(mem: seq<Byte>, at: nat, size: int, d: Decoder): Out<Decoder> {
    var d' := d.(obj := d.obj.(kind := KBoolean));
    if size < 1 then Got(-1, d')
    else if at >= |mem| then Outside
    else Got(1, d'.(obj := d'.obj.(on := mem[at] != 0)))
  }

  function DecodeText(mem: seq<Byte>, at: nat, size: int, d: Decoder): Out<Decoder> {
    var d' := d.(obj := d.obj.(kind := KString));
    if size < 2 then Got(-1, d')
    else if at + 2 > |mem| then Outside
    else
      var n := ReadU16BE(mem, at);
      if n > size - 2 then Got(-2, d')
      else
        match CopyText(mem, at + 2, n)
        case Outside => Outside
        case Got(_, s) => Got(2 + n, d'.(obj := d'.obj.(text := s)))
  }

  function NonNegative(n: int): nat { if n < 0 then 0 else n }

  /** One value behind its type byte. A type the decoder does not know takes no bytes. */
  function DecodeValue(mem: seq<Byte>, at: nat, size: int, marker: Byte, d: Decoder, blank: Memory): Out<Decoder>
    decreases NonNegative(size), 4
  {
    if marker == NUMBER then DecodeNumber(mem, at, size, d)
    else if marker == BOOLEAN then DecodeBoolean(mem, at, size, d)
    else if marker == STRING then DecodeText(mem, at, size, d)
    else if marker == OBJECT || marker == ECMA_ARRAY then
      var skip := if marker == OBJECT then 0 else 4;
      match DecodeEntries(mem, at + skip, size - skip, 0, map[], blank)
      case Outside => Outside
      case Got(ret, objs) => Got(ret, d.(objs := objs))
    else Got(0, d)
  }

  /** The decoding loop: at most `n` values, or all of them when `n` is negative. */
  function Decode(mem: seq<Byte>, at: nat, size: int, used: nat, n: int, d: Decoder, blank: Memory): (r: Out<Decoder>)
    ensures r.Got? ==> r.ret >= used
    decreases NonNegative(size - used), 2
  {
    if used >= size then Got(used, d)
    else if at + used >= |mem| then Outside
    else
      match DecodeValue(mem, at + used + 1, size - used - 1, mem[at + used], d, blank)
      case Outside => Outside
      case Got(ret, d') =>
        if ret < 0 then Got(used + 1, d')
        else if n - 1 == 0 then Got(used + 1 + ret, d')
        else Decode(mem, at, size, used + 1 + ret, n - 1, d', blank)
  }

  /** The entries of an object. Each value is decoded by a fresh decoder; a value that takes no bytes
      behind its type byte ends the object. `size` counts the keys only, so it is never too small. */
  function DecodeEntries(mem: seq<Byte>, at: nat, size: int, used: nat, objs: Table, blank: Memory): (r: Out<Table>)
    ensures r.Got? ==> r.ret >= used
    decreases NonNegative(size), 3
  {
    if size <= 0 then Got(used, objs)
    else if at + used + 2 > |mem| then Outside
    else
      var n := ReadU16BE(mem, at + used);
      if size - 2 < n then Got(used, objs)
      else
        match CopyText(mem, at + used + 2, n)
        case Outside => Outside
        case Got(_, key) =>
          match Decode(mem, at + used + 2 + n, size - 2 - n, 0, 1, Decoder(blank(at + used + 2 + n), map[]), blank)
          case Outside => Outside
          case Got(ret, d) =>
            var used' := used + 2 + n + ret;
            if ret <= 1 then Got(used', objs)
            else DecodeEntries(mem, at, size - 2 - n, used', if key in objs then objs else objs[key := d.obj], blank)
  }
}
