/** The Annex B scanner: a window of three bytes, kept in a rotating array, slides over the data. */
module NalFinder {
  import opened Bytes

  predicate ShortCode(data: seq<Byte>, i: int) {
    0 <= i && i + 2 < |data| && data[i] == 0 && data[i + 1] == 0 && data[i + 2] == 1
  }

  predicate LongCode(data: seq<Byte>, i: int) {
    0 <= i && i + 3 < |data| && data[i] == 0 && data[i + 1] == 0 && data[i + 2] == 0 && data[i + 3] == 1
  }

  const NULL := -1

  /** A start code with at least one byte behind it begins at `i`, and none before. */
  ghost predicate FirstCode(data: seq<Byte>, i: int) {
    && 0 <= i < |data| - 3 && (ShortCode(data, i) || LongCode(data, i))
    && forall j :: 0 <= j < i ==> !ShortCode(data, j) && !LongCode(data, j)
  }

  /** The first start code is a long one and ends the data: there is no unit behind it. */
  ghost predicate Bare(data: seq<Byte>, i: int) {
    LongCode(data, i) && i == |data| - 4
  }

  /** The unit behind the start code at `i`. Behind a long code it ends in front of the next long
      code; behind a short one, in front of the last short code; and otherwise with the data. */
  ghost predicate Unit(data: seq<Byte>, i: int, first: int, last: int) {
    if LongCode(data, i) then
      && first == i + 4
      && ((last == |data| - 1 && forall j :: i < j < |data| - 3 ==> !LongCode(data, j))
          || (LongCode(data, last + 1) && i < last + 1 < |data| - 3 && forall j :: i < j < last + 1 ==> !LongCode(data, j)))
    else
      && first == i + 3
      && ((last == |data| - 1 && forall j :: i < j < |data| - 3 ==> !ShortCode(data, j))
          || (ShortCode(data, last + 1) && i < last + 1 < |data| - 3 && forall j :: last + 1 < j < |data| - 3 ==> !ShortCode(data, j)))
  }

  /** What the scanner returns: the positions of the first and last byte of the unit behind the first
      start code, or nothing when there is no such unit or hardly any data. */
  ghost predicate IsNal(data: seq<Byte>, first: int, last: int) {
    || (first == NULL && last == NULL && (|data| < 5 || forall i :: FirstCode(data, i) ==> Bare(data, i)))
    || (|data| >= 5 && exists i :: FirstCode(data, i) && !Bare(data, i) && Unit(data, i, first, last))
  }

  /** The result is determined by the data. */
  lemma NalIsUnique(data: seq<Byte>, first: int, last: int, first': int, last': int)
    requires IsNal(data, first, last) && IsNal(data, first', last')
    ensures first == first' && last == last'
  {}

  /** Three bytes 0 0 1 from `j` on, with a byte behind them. */
  predicate ShortAt(data: seq<Byte>, j: int) {
    0 <= j < |data| - 3 && data[j] == 0 && data[j + 1] == 0 && data[j + 2] == 1
  }

  predicate LongAt(data: seq<Byte>, j: int) {
    0 <= j < |data| - 3 && data[j] == 0 && data[j + 1] == 0 && data[j + 2] == 0 && data[j + 3] == 1
  }

  /** Data that opens with a start code, in plain bytes. Behind 0 0 1 the unit ends in front of the last 0 0 1; behind
      0 0 0 1 in front of the next 0 0 0 1. */
  lemma NalAtStart(data: seq<Byte>, first: int, last: int)
    requires |data| >= 5 && IsNal(data, first, last)
    ensures ShortAt(data, 0) ==>
      first == 3 && if exists j :: 0 < j && ShortAt(data, j) then ShortAt(data, last + 1) && forall j :: last + 1 < j ==> !ShortAt(data, j)
                    else last == |data| - 1
    ensures LongAt(data, 0) ==>
      first == 4 && if exists j :: 0 < j && LongAt(data, j) then 0 < last + 1 && LongAt(data, last + 1) && forall j :: 0 < j < last + 1 ==> !LongAt(data, j)
                    else last == |data| - 1
  {
    if ShortAt(data, 0) || LongAt(data, 0) {
      assert FirstCode(data, 0) && !Bare(data, 0);
      var i :| FirstCode(data, i) && Unit(data, i, first, last);
      assert i == 0;
      assert forall j :: 0 <= j < |data| - 3 ==> (ShortAt(data, j) <==> ShortCode(data, j)) && (LongAt(data, j) <==> LongCode(data, j));
    }
  }

  /** Nothing is found exactly in data of less than five bytes, and where no start code has a byte behind it. */
  lemma NothingFound(data: seq<Byte>, first: int, last: int)
    requires IsNal(data, first, last)
    ensures first == -1 <==> last == -1
    ensures first == -1 <==> |data| < 5 || forall j :: !ShortAt(data, j) && (LongAt(data, j) ==> j == |data| - 4)
  {
    assert forall j :: 0 <= j < |data| - 3 ==> (ShortAt(data, j) <==> ShortCode(data, j)) && (LongAt(data, j) <==> LongCode(data, j));
    if j :| ShortAt(data, j) || (LongAt(data, j) && j != |data| - 4) {
      var i := FirstUpTo(data, j);
    }
  }

  lemma {:induction false} FirstUpTo(data: seq<Byte>, j: int) returns (i: int)
    requires 0 <= j < |data| - 3 && (ShortCode(data, j) || LongCode(data, j))
    ensures i <= j && FirstCode(data, i)
    decreases j
  {
    if k :| 0 <= k < j && (ShortCode(data, k) || LongCode(data, k)) {
      i := FirstUpTo(data, k);
    } else {
      i := j;
    }
  }

  /** The scanner's result after the windows before `i`. */
  ghost predicate Scanned(data: seq<Byte>, i: int, first: int, last: int, code: int, at: int) {
    if first == NULL then
      last == |data| - 1 && code == 0 && forall j :: 0 <= j < i ==> !ShortCode(data, j) && !LongCode(data, j)
    else
      && FirstCode(data, at) && at < i && at <= |data| - 4
      && if LongCode(data, at) then
           at < |data| - 4 && code == 4 && first == at + 4 && last == |data| - 1 && forall j :: at < j < i ==> !LongCode(data, j)
         else
           code == 3 && first == at + 3 &&
           ((last == |data| - 1 && forall j :: at < j < i ==> !ShortCode(data, j))
            || (ShortCode(data, last + 1) && at < last + 1 < i && forall j :: last + 1 < j < i ==> !ShortCode(data, j)))
  }

  lemma NoCodeHere(data: seq<Byte>, i: int, first: int, last: int, code: int, at: int)
    requires Scanned(data, i, first, last, code, at) && 0 <= i < |data| - 3
    requires !ShortCode(data, i) || (first != NULL && code != 3)
    requires !LongCode(data, i) || (first != NULL && code != 4)
    ensures Scanned(data, i + 1, first, last, code, at)
  {}

  lemma ShortCodeHere(data: seq<Byte>, i: int, first: int, last: int, code: int, at: int)
    requires Scanned(data, i, first, last, code, at) && 0 <= i < |data| - 3 && ShortCode(data, i)
    ensures first == NULL ==> Scanned(data, i + 1, i + 3, last, 3, i)
    ensures first != NULL && code == 3 ==> Scanned(data, i + 1, first, i - 1, code, at)
  {}

  lemma FirstLongCode(data: seq<Byte>, i: int, last: int, code: int, at: int)
    requires Scanned(data, i, NULL, last, code, at) && 0 <= i < |data| - 3 && LongCode(data, i)
    ensures if i < |data| - 4 then Scanned(data, i + 1, i + 4, last, 4, i) else IsNal(data, NULL, NULL)
  {
    assert FirstCode(data, i);
  }

  lemma NextLongCode(data: seq<Byte>, i: int, first: int, last: int, at: int)
    requires Scanned(data, i, first, last, 4, at) && 0 <= i < |data| - 3 && LongCode(data, i) && first != NULL
    ensures IsNal(data, first, i - 1)
  {
    assert FirstCode(data, at) && !Bare(data, at) && Unit(data, at, first, i - 1);
  }

  lemma AllScanned(data: seq<Byte>, first: int, last: int, code: int, at: int)
    requires Scanned(data, |data| - 3, first, last, code, at) && |data| >= 5
    ensures IsNal(data, first, if first == NULL then NULL else last)
  {
    if first != NULL {
      assert FirstCode(data, at) && !Bare(data, at) && Unit(data, at, first, last);
    }
  }

  /** The rotating array holds the three bytes up to `p`, the oldest at `pos`. */
  ghost predicate Window(prefix: seq<Byte>, pos: nat, data: seq<Byte>, p: int) {
    && |prefix| == 3 && 2 <= p < |data|
    && prefix[pos % 3] == data[p - 2] && prefix[(pos + 1) % 3] == data[p - 1] && prefix[(pos + 2) % 3] == data[p]
  }

  lemma WindowTurns(prefix: seq<Byte>, pos: nat, data: seq<Byte>, p: int)
    requires Window(prefix, pos, data, p) && p + 1 < |data|
    ensures |prefix| == 3 && 2 <= p
    ensures prefix[pos % 3] == data[p - 2] && prefix[(pos + 1) % 3] == data[p - 1] && prefix[(pos + 2) % 3] == data[p]
    ensures Window(prefix[pos % 3 := data[p + 1]], pos + 1, data, p + 1)
  {}

  method FindNal(data: seq<Byte>) returns (first: int, last: int)
    ensures IsNal(data, first, last)
  {
    first, last := NULL, NULL;
    if |data| < 5 {
      return;
    }
    last := |data| - 1;
    var code, pos := 0, 0;
    var prefix := data[..3];
    var left, p := |data| - 3, 2;
    ghost var at, settled := 0, false;
    assert Scanned(data, 0, first, last, code, at);
    assert Window(prefix, pos, data, p);
    hide Scanned, IsNal, Window;
    while left > 0
      invariant 0 <= left <= |data| - 3 && p == |data| - 1 - left && pos == p - 2
      invariant Window(prefix, pos, data, p)
      invariant !settled && Scanned(data, p - 2, first, last, code, at)
    {
      left := left - 1;
      WindowTurns(prefix, pos, data, p);
      if prefix[pos % 3] == 0 && prefix[(pos + 1) % 3] == 0 && prefix[(pos + 2) % 3] == 1 {
        ShortCodeHere(data, p - 2, first, last, code, at);
        if first == NULL {
          first, code, at := p + 1, 3, p - 2;
        } else if code == 3 {
          last := p - 3;
        } else {
          NoCodeHere(data, p - 2, first, last, code, at);
        }
      } else if prefix[pos % 3] == 0 && prefix[(pos + 1) % 3] == 0 && prefix[(pos + 2) % 3] == 0 && data[p + 1] == 1 {
        if first == NULL {
          FirstLongCode(data, p - 2, last, code, at);
          if left < 1 {
            settled := true;
            break;
          }
          first, code, at := p + 2, 4, p - 2;
        } else if code == 4 {
          NextLongCode(data, p - 2, first, last, at);
          last := p - 3;
          settled := true;
          break;
        } else {
          NoCodeHere(data, p - 2, first, last, code, at);
        }
      } else {
        NoCodeHere(data, p - 2, first, last, code, at);
      }
      p := p + 1;
      prefix := prefix[pos % 3 := data[p]];
      pos := pos + 1;
    }
    if !settled {
      AllScanned(data, first, last, code, at);
    }
    if first == NULL {
      last := NULL;
    }
  }

  // ---------- parameter sets ----------

  const START: seq<Byte> := [0, 0, 0, 1]

  /** The encoder's parameter sets: two units, each behind a long start code. */
  function ParameterSets(sps: seq<Byte>, pps: seq<Byte>): seq<Byte> {
    START + sps + START + pps
  }

  ghost predicate NoLongCode(s: seq<Byte>) {
    forall j :: 0 <= j < |s| ==> !LongCode(s, j)
  }

  lemma At(sps: seq<Byte>, pps: seq<Byte>)
    ensures var d := ParameterSets(sps, pps); var n := |sps|;
      && |d| == n + |pps| + 8
      && d[0] == 0 && d[1] == 0 && d[2] == 0 && d[3] == 1
      && d[n + 4] == 0 && d[n + 5] == 0 && d[n + 6] == 0 && d[n + 7] == 1
      && (forall i :: 4 <= i < n + 4 ==> d[i] == sps[i - 4])
      && (forall i :: n + 8 <= i < |d| ==> d[i] == pps[i - n - 8])
  {}

  /** The long codes of the parameter sets are the two start codes and those inside a unit: none
      reaches over the border of a unit. */
  lemma LongCodesOf(sps: seq<Byte>, pps: seq<Byte>, i: int)
    ensures var d := ParameterSets(sps, pps); var n := |sps|;
      LongCode(d, i) <==> i == 0 || LongCode(sps, i - 4) || i == n + 4 || LongCode(pps, i - n - 8)
  {}

  /** The unit found first is the sequence parameter set exactly if that has no long start code. */
  lemma SpsFound(sps: seq<Byte>, pps: seq<Byte>, first: int, last: int)
    requires sps != [] && pps != []
    requires IsNal(ParameterSets(sps, pps), first, last)
    ensures first == 4 && (last == |sps| + 3 <==> NoLongCode(sps))
  {
    hide ParameterSets;
    var d := ParameterSets(sps, pps);
    At(sps, pps);
    LongCodesOf(sps, pps, 0);
    LongCodesOf(sps, pps, |sps| + 4);
    assert FirstCode(d, 0) && !Bare(d, 0);
    var i :| FirstCode(d, i) && Unit(d, i, first, last);
    assert i == 0;
    forall j | 0 < j < |sps| + 4
      ensures LongCode(d, j) <==> LongCode(sps, j - 4)
    {
      LongCodesOf(sps, pps, j);
    }
    if NoLongCode(sps) {
      assert !(last + 1 < |sps| + 4) || !LongCode(d, last + 1);
    }
    if last == |sps| + 3 {
      forall j | 0 <= j < |sps|
        ensures !LongCode(sps, j)
      {
        assert LongCode(d, j + 4) <==> LongCode(sps, j);
      }
    }
  }

  /** The second scan starts at the last byte of the unit found first. */
  function Behind(sps: seq<Byte>, pps: seq<Byte>): seq<Byte>
    requires sps != []
  {
    [sps[|sps| - 1]] + START + pps
  }

  lemma PpsFound(sps: seq<Byte>, pps: seq<Byte>, first: int, last: int)
    requires sps != [] && pps != []
    requires IsNal(Behind(sps, pps), first, last)
    ensures first == 5 && (last == |Behind(sps, pps)| - 1 <==> NoLongCode(pps))
  {
    var d := Behind(sps, pps);
    assert d[1] == 0 && d[2] == 0 && d[3] == 0 && d[4] == 1 && |d| == |pps| + 5;
    assert forall j :: 5 <= j < |d| ==> d[j] == pps[j - 5];
    assert FirstCode(d, 1) && !Bare(d, 1);
    var i :| FirstCode(d, i) && Unit(d, i, first, last);
    assert i == 1;
    forall j | 1 < j < |d| - 3
      ensures LongCode(d, j) <==> LongCode(pps, j - 5)
    {
    }
    if NoLongCode(pps) {
      assert !LongCode(d, last + 1) || !(1 < last + 1 < |d| - 3);
    }
    if last == |d| - 1 {
      forall j | 0 <= j < |pps|
        ensures !LongCode(pps, j)
      {
        assert j + 5 < |d| - 3 ==> (LongCode(d, j + 5) <==> LongCode(pps, j));
      }
    }
  }

  const TYPE_SPS := 7
  const TYPE_PPS := 8

  /** The type of a unit is in its first byte. An empty unit is followed by the zero of a start code. */
  predicate OfType(unit: seq<Byte>, kind: int) {
    unit != [] && unit[0] as int % 32 == kind
  }

  /** Splitting the parameter sets with two scans, the second from the last byte of the unit found
      first, gives the two units exactly if they are of the right types and neither has a long start code inside. */
  method Split(sps: seq<Byte>, pps: seq<Byte>) returns (found: (seq<Byte>, seq<Byte>))
    requires sps != [] && pps != []
    ensures found == (sps, pps) <==>
      NoLongCode(sps) && NoLongCode(pps) && sps[0] as int % 32 == 7 && pps[0] as int % 32 == 8
    ensures (found.0 != [] && found.0[0] as int % 32 == 7) || found == ([], [])
    ensures (found.1 != [] && found.1[0] as int % 32 == 8) || found.1 == []
  {
    hide IsNal, NoLongCode;
    var data := ParameterSets(sps, pps);
    var first, last := FindNal(data);
    SpsFound(sps, pps, first, last);
    At(sps, pps);
    NalInside(data, first, last);
    var unit := data[first..last + 1];
    assert last == |sps| + 3 ==> unit == sps;
    assert last != |sps| + 3 ==> |unit| != |sps|;
    if !OfType(unit, TYPE_SPS) {
      return ([], []);
    }
    var rest := data[last..];
    var first', last' := FindNal(rest);
    NalInside(rest, first', last');
    var unit' := if first' == NULL then [] else rest[first'..last' + 1];
    found := (unit, if OfType(unit', TYPE_PPS) then unit' else []);
    if last == |sps| + 3 {
      assert rest == Behind(sps, pps);
      PpsFound(sps, pps, first', last');
      assert last' == |rest| - 1 ==> unit' == pps;
      assert last' != |rest| - 1 ==> |unit'| != |pps|;
    }
  }

  lemma NalInside(data: seq<Byte>, first: int, last: int)
    requires IsNal(data, first, last)
    ensures first == NULL == last || (0 <= first <= last + 1 <= |data| && last >= 0)
  {}
}
