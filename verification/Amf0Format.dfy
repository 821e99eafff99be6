/** AMF 0 on bytes: what a value is written as, what the decoder makes of any bytes, and how the two
    fit together. */
module Amf0Format {
  import opened Bytes
  import opened AmfValues
  import opened AmfIO

  datatype Leaf0 = Null | Boolean(b: bool) | Number(bits: Float64)

  const NUMBER: byte := 0x00
  const BOOLEAN: byte := 0x01
  const STRING: byte := 0x02
  const OBJECT: byte := 0x03
  const NULL: byte := 0x05
  const ECMA_ARRAY: byte := 0x08
  const OBJECT_END: byte := 0x09
  const STRICT_ARRAY: byte := 0x0a
  const LONG_STRING: byte := 0x0c

  const STRING_MAX: nat := 65535

  // ----- Writing --------------------------------------------------------------------------------

  /** A string without marker; of the length only the low 16 bits are written. */
  function ShortString(text: Text): seq<byte> {
    BE(|text|, 2) + text
  }

  function LongString(text: Text): seq<byte> {
    BE(|text|, 4) + text
  }

  function EncodeLeaf(leaf: Leaf0): seq<byte> {
    match leaf
    case Null => [NULL]
    case Boolean(b) => [BOOLEAN, if b then 1 else 0]
    case Number(bits) => [NUMBER] + bits
  }

  /** A typed object is refused, so nothing is written for it. */
  function Encode(o: Ordered<Leaf0>): seq<byte>
    decreases o
  {
    match o
    case OLeaf(leaf) => EncodeLeaf(leaf)
    case OStr(text) =>
      if |text| <= STRING_MAX then [STRING] + ShortString(text) else [LONG_STRING] + LongString(text)
    case OArr(elems) => [STRICT_ARRAY] + (BE(|elems|, 4) + EncodeElems(elems))
    case OObj(props) => [OBJECT] + EncodeProps(props)
    case OTyped(_, _) => []
  }

  function EncodeElems(elems: seq<Ordered<Leaf0>>): seq<byte>
    decreases elems
  {
    if elems == [] then [] else Encode(elems[0]) + EncodeElems(elems[1..])
  }

  /** The properties and the end: an empty name and the end marker. */
  function EncodeProps(props: seq<Prop<Leaf0>>): seq<byte>
    decreases props
  {
    if props == [] then [0, 0, OBJECT_END]
    else ShortString(props[0].key) + (Encode(props[0].value) + EncodeProps(props[1..]))
  }

  function EncodeBatch(os: seq<Ordered<Leaf0>>): seq<byte> {
    EncodeElems(os)
  }

  // ----- Reading --------------------------------------------------------------------------------

  /** A length of `width` bytes and as many bytes as it says. */
  function ReadText(s: seq<byte>, width: nat): (r: Result<Text>)
    ensures |r.rest| <= |s| && (r.out.Done? ==> |r.rest| + width <= |s|)
  {
    var len := Take(s, width);
    if len.out.Failed? then Result(Failed(Bad), len.rest)
    else
      var text := Take(len.rest, FromBE(len.out.value));
      if text.out.Failed? then Result(Failed(Bad), text.rest) else text
  }

  function ReadNumber(s: seq<byte>): (r: Result<Value<Leaf0>>)
    ensures |r.rest| <= |s|
  {
    var bits := Take(s, 8);
    if bits.out.Failed? then Result(Failed(Bad), bits.rest)
    else Result(Done(Leaf(Number(bits.out.value))), bits.rest)
  }

  function ReadBoolean(s: seq<byte>): (r: Result<Value<Leaf0>>)
    ensures |r.rest| <= |s|
  {
    if s == [] then Result(Failed(Eof), [])
    else if s[0] == 0 then Result(Done(Leaf(Boolean(false))), s[1..])
    else if s[0] == 1 then Result(Done(Leaf(Boolean(true))), s[1..])
    else Result(Failed(Bad), s[1..])
  }

  function ReadDate(s: seq<byte>): (r: Result<Value<Leaf0>>)
    ensures |r.rest| <= |s|
  {
    var date := ReadNumber(s);
    if date.out.Failed? then date
    else
      var zone := Take(date.rest, 2);
      if zone.out.Failed? then Result(Failed(Bad), zone.rest) else Result(date.out, zone.rest)
  }

  function AsStr(r: Result<Text>): Result<Value<Leaf0>> {
    Result(if r.out.Done? then Done(Str(r.out.value)) else Failed(r.out.error), r.rest)
  }

  function AsObj(r: Result<map<Text, Value<Leaf0>>>): Result<Value<Leaf0>> {
    Result(if r.out.Done? then Done(Obj(r.out.value)) else Failed(r.out.error), r.rest)
  }

  /** The decoder: a marker and what it announces. */
  function Decode(s: seq<byte>): (r: Result<Value<Leaf0>>)
    ensures |r.rest| <= |s| && (r.out.Done? ==> |r.rest| < |s|)
    decreases |s|, 0
  {
    if s == [] then Result(Failed(Eof), [])
    else
      var t := s[1..];
      match s[0]
      case 0x00 => ReadNumber(t)
      case 0x01 => ReadBoolean(t)
      case 0x02 => AsStr(ReadText(t, 2))
      case 0x03 => AsObj(DecodeProps(t))
      case 0x05 => Result(Done(Leaf(Null)), t)
      case 0x06 => Result(Done(Leaf(Null)), t)
      case 0x08 => DecodeEcma(t)
      case 0x0a => DecodeStrict(t)
      case 0x0b => ReadDate(t)
      case 0x0c => AsStr(ReadText(t, 4))
      case 0x0d => Result(Done(Leaf(Null)), t)
      case 0x0f => AsStr(ReadText(t, 4))
      case 0x10 => DecodeTyped(t)
      case 0x11 => Result(Failed(SwitchToAmf3), t)
      case _ => Result(Failed(Bad), t)
  }

  /** The announced number of properties is skipped, whether it can be read or not. */
  function DecodeEcma(s: seq<byte>): (r: Result<Value<Leaf0>>)
    ensures |r.rest| <= |s|
    decreases |s|, 3
  {
    var r := DecodeProps(Take(s, 4).rest);
    if r.out.Done? then AsObj(r) else Result(Failed(Wrap(r.out.error)), r.rest)
  }

  function DecodeStrict(s: seq<byte>): (r: Result<Value<Leaf0>>)
    ensures |r.rest| <= |s|
    decreases |s|, 3
  {
    var len := Take(s, 4);
    if len.out.Failed? then Result(Failed(Bad), len.rest)
    else
      var r := DecodeElems(len.rest, FromBE(len.out.value));
      Result(if r.out.Done? then Done(Arr(r.out.value)) else Failed(r.out.error), r.rest)
  }

  function DecodeTyped(s: seq<byte>): (r: Result<Value<Leaf0>>)
    ensures |r.rest| <= |s|
    decreases |s|, 3
  {
    var name := ReadText(s, 2);
    if name.out.Failed? then Result(Failed(Bad), name.rest)
    else
      var r := DecodeProps(name.rest);
      if r.out.Done? then Result(Done(Typed(name.out.value, r.out.value)), r.rest)
      else Result(Failed(Wrap(r.out.error)), r.rest)
  }

  function DecodeElems(s: seq<byte>, n: nat): (r: Result<seq<Value<Leaf0>>>)
    ensures |r.rest| <= |s| && (r.out.Done? ==> |r.out.value| == n)
    decreases |s|, 1
  {
    if n == 0 then Result(Done([]), s)
    else
      var v := Decode(s);
      if v.out.Failed? then Result(Failed(Wrap(v.out.error)), v.rest)
      else After([v.out.value], DecodeElems(v.rest, n - 1))
  }

  function After<T>(head: seq<T>, r: Result<seq<T>>): Result<seq<T>> {
    Result(if r.out.Done? then Done(head + r.out.value) else r.out, r.rest)
  }

  function DecodeProps(s: seq<byte>): (r: Result<map<Text, Value<Leaf0>>>)
    ensures |r.rest| <= |s|
    decreases |s|, 2
  {
    var key := ReadText(s, 2);
    if key.out.Failed? then Result(Failed(Bad), key.rest)
    else if key.out.value == [] then Result(ReadEnd(key.rest).out, ReadEnd(key.rest).rest)
    else
      var v := Decode(key.rest);
      if v.out.Failed? then Result(Failed(Wrap(v.out.error)), v.rest)
      else Onto(map[key.out.value := v.out.value], DecodeProps(v.rest))
  }

  function Onto<T>(head: map<Text, T>, r: Result<map<Text, T>>): Result<map<Text, T>> {
    Result(if r.out.Done? then Done(head + r.out.value) else r.out, r.rest)
  }

  function ReadEnd(s: seq<byte>): (r: Result<map<Text, Value<Leaf0>>>)
    ensures |r.rest| <= |s|
  {
    if s == [] then Result(Failed(Bad), [])
    else if s[0] == OBJECT_END then Result(Done(map[]), s[1..])
    else Result(Failed(Bad), s[1..])
  }

  datatype Batch = Batch(values: seq<Value<Leaf0>>, error: Error, rest: seq<byte>)

  /** Values until an error. */
  function DecodeBatch(s: seq<byte>): Batch
    decreases |s|
  {
    var v := Decode(s);
    if v.out.Failed? then Batch([], v.out.error, v.rest)
    else
      var more := DecodeBatch(v.rest);
      more.(values := [v.out.value] + more.values)
  }

  // ----- Round trip -----------------------------------------------------------------------------

  /** What the wire can hold: no typed object, lengths that fit their fields. */
  predicate Representable(o: Ordered<Leaf0>)
    decreases o
  {
    match o
    case OLeaf(_) => true
    case OStr(text) => |text| < 0x1_0000_0000
    case OArr(elems) => |elems| < 0x1_0000_0000 && forall i | 0 <= i < |elems| :: Representable(elems[i])
    case OObj(props) =>
      forall i | 0 <= i < |props| :: |props[i].key| <= STRING_MAX && Representable(props[i].value)
    case OTyped(_, _) => false
  }

  /** No object here or further down has a property with an empty name. */
  predicate Named(o: Ordered<Leaf0>)
    decreases o
  {
    match o
    case OLeaf(_) => true
    case OStr(_) => true
    case OArr(elems) => forall i | 0 <= i < |elems| :: Named(elems[i])
    case OObj(props) => forall i | 0 <= i < |props| :: props[i].key != [] && Named(props[i].value)
    case OTyped(_, _) => true
  }

  /** The same two conditions on a value. */
  predicate Fits(v: Value<Leaf0>)
    decreases v
  {
    match v
    case Leaf(_) => true
    case Str(text) => |text| < 0x1_0000_0000
    case Arr(elems) => |elems| < 0x1_0000_0000 && forall i | 0 <= i < |elems| :: Fits(elems[i])
    case Obj(props) => forall k | k in props :: |k| <= STRING_MAX && Fits(props[k])
    case Typed(_, _) => false
  }

  predicate AllNamed(v: Value<Leaf0>)
    decreases v
  {
    match v
    case Leaf(_) => true
    case Str(_) => true
    case Arr(elems) => forall i | 0 <= i < |elems| :: AllNamed(elems[i])
    case Obj(props) => forall k | k in props :: k != [] && AllNamed(props[k])
    case Typed(_, _) => true
  }

  lemma {:induction false} OrderIsIrrelevant(o: Ordered<Leaf0>)
    requires Once(o)
    ensures Fits(Erase(o)) <==> Representable(o)
    ensures AllNamed(Erase(o)) <==> Named(o)
    decreases o
  {
    match o
    case OLeaf(_) =>
    case OStr(_) =>
    case OArr(elems) => OrderInElems(elems);
    case OObj(props) => OrderInProps(props);
    case OTyped(_, _) =>
  }

  lemma {:induction false} OrderInElems(elems: seq<Ordered<Leaf0>>)
    requires forall i | 0 <= i < |elems| :: Once(elems[i])
    ensures Fits(Arr(EraseElems(elems))) <==> Representable(OArr(elems))
    ensures AllNamed(Arr(EraseElems(elems))) <==> Named(OArr(elems))
    decreases elems
  {
    hide Erase, EraseElems, Once;
    forall i | 0 <= i < |elems|
      ensures EraseElems(elems)[i] == Erase(elems[i])
      ensures Fits(Erase(elems[i])) <==> Representable(elems[i])
      ensures AllNamed(Erase(elems[i])) <==> Named(elems[i])
    {
      EraseElemsAt(elems, i);
      OrderIsIrrelevant(elems[i]);
    }
  }

  lemma {:induction false} OrderInProps(props: seq<Prop<Leaf0>>)
    requires Distinct(props) && forall i | 0 <= i < |props| :: Once(props[i].value)
    ensures Fits(Obj(EraseProps(props))) <==> Representable(OObj(props))
    ensures AllNamed(Obj(EraseProps(props))) <==> Named(OObj(props))
    decreases props
  {
    hide Erase, EraseProps, Once;
    forall i | 0 <= i < |props|
      ensures Fits(Erase(props[i].value)) <==> Representable(props[i].value)
      ensures AllNamed(Erase(props[i].value)) <==> Named(props[i].value)
    {
      OrderIsIrrelevant(props[i].value);
    }
    hide Fits, AllNamed, Representable, Named;
    FitsByProp(props);
    NamedByProp(props);
  }

  lemma FitsByProp(props: seq<Prop<Leaf0>>)
    requires Distinct(props)
    requires forall i | 0 <= i < |props| :: Fits(Erase(props[i].value)) <==> Representable(props[i].value)
    ensures Fits(Obj(EraseProps(props))) <==> Representable(OObj(props))
  {
    hide Erase, EraseProps;
    SameProps(props);
  }

  lemma NamedByProp(props: seq<Prop<Leaf0>>)
    requires Distinct(props)
    requires forall i | 0 <= i < |props| :: AllNamed(Erase(props[i].value)) <==> Named(props[i].value)
    ensures AllNamed(Obj(EraseProps(props))) <==> Named(OObj(props))
  {
    hide Erase, EraseProps;
    SameProps(props);
  }

  /** For every value and every order its properties are written in: what is read back is the value,
      or an error if and only if some property has an empty name. */
  lemma ValueRoundTrip(v: Value<Leaf0>, o: Ordered<Leaf0>, rest: seq<byte>)
    requires Fits(v) && Once(o) && Erase(o) == v
    ensures var r := Decode(Encode(o) + rest);
      if AllNamed(v) then r == Result(Done(v), rest) else r.out.Failed?
  {
    OrderIsIrrelevant(o);
    DecodesEncoded(o, rest);
  }

  lemma TextReads(text: Text, width: nat, rest: seq<byte>)
    requires |text| < Pow256(width)
    ensures ReadText(BE(|text|, width) + text + rest, width) == Result(Done(text), rest)
  {
    hide BE, FromBE, Pow256;
    var len := BE(|text|, width);
    FromBEInvertsBE(|text|, width);
    Regroup(len, text, rest);
    Unjoin(len, text + rest);
    Unjoin(text, rest);
  }

  /** The first byte of a value is its marker, never the end marker. */
  lemma StartsWithMarker(o: Ordered<Leaf0>)
    requires Representable(o)
    ensures Encode(o) != [] && Encode(o)[0] in {NUMBER, BOOLEAN, STRING, OBJECT, NULL, STRICT_ARRAY, LONG_STRING}
  {
    hide EncodeElems, EncodeProps, ShortString, LongString;
  }

  /** Decoding what was encoded gives the value back and leaves what follows, in whatever order
      the properties were written, unless a property has an empty name: then it is an error. */
  lemma {:induction false} DecodesEncoded(o: Ordered<Leaf0>, rest: seq<byte>)
    requires Representable(o)
    ensures var r := Decode(Encode(o) + rest);
      if Named(o) then r == Result(Done(Erase(o)), rest) else r.out.Failed?
    decreases o, 0
  {
    hide DecodeProps, DecodeElems, EncodeElems, EncodeProps, ReadText, BE, FromBE, Pow256;
    var t := (Encode(o) + rest)[1..];
    match o
    case OLeaf(leaf) => LeafReads(leaf, rest);
    case OStr(text) =>
      StrReads(text, rest);
    case OArr(elems) =>
      assert t == BE(|elems|, 4) + EncodeElems(elems) + rest;
      ElemsDecode(elems, rest);
      StrictReads(elems, rest);
    case OObj(props) =>
      assert t == EncodeProps(props) + rest;
      PropsDecode(props, rest);
  }

  lemma LeafReads(leaf: Leaf0, rest: seq<byte>)
    ensures Decode(EncodeLeaf(leaf) + rest) == Result(Done(Leaf(leaf)), rest)
  {
    hide DecodeProps, DecodeElems, ReadText, FromBE, Pow256;
    var t := (EncodeLeaf(leaf) + rest)[1..];
    match leaf
    case Null => assert t == rest;
    case Boolean(b) => assert t[1..] == rest;
    case Number(bits) => assert t == bits + rest && t[..8] == bits && t[8..] == rest;
  }

  lemma StrReads(text: Text, rest: seq<byte>)
    requires |text| < 0x1_0000_0000
    ensures Decode(Encode(OStr(text)) + rest) == Result(Done(Str(text)), rest)
  {
    hide DecodeProps, DecodeElems, ReadText, BE, FromBE, Pow256;
    Pow256Values();
    var t := (Encode(OStr(text)) + rest)[1..];
    if |text| <= STRING_MAX {
      assert t == BE(|text|, 2) + text + rest;
      TextReads(text, 2, rest);
    } else {
      assert t == BE(|text|, 4) + text + rest;
      TextReads(text, 4, rest);
    }
  }

  lemma StrictReads(elems: seq<Ordered<Leaf0>>, rest: seq<byte>)
    requires |elems| < 0x1_0000_0000
    ensures var all := BE(|elems|, 4) + EncodeElems(elems) + rest;
      && Take(all, 4) == Result(Done(BE(|elems|, 4)), EncodeElems(elems) + rest)
      && FromBE(BE(|elems|, 4)) == |elems|
  {
    hide BE, FromBE, Pow256, EncodeElems;
    Pow256Values();
    FromBEInvertsBE(|elems|, 4);
    Regroup(BE(|elems|, 4), EncodeElems(elems), rest);
    Unjoin(BE(|elems|, 4), EncodeElems(elems) + rest);
  }

  lemma {:induction false} ElemsDecode(elems: seq<Ordered<Leaf0>>, rest: seq<byte>)
    requires forall i | 0 <= i < |elems| :: Representable(elems[i])
    ensures var r := DecodeElems(EncodeElems(elems) + rest, |elems|);
      if forall i | 0 <= i < |elems| :: Named(elems[i]) then r == Result(Done(EraseElems(elems)), rest)
      else r.out.Failed?
    decreases elems, 1
  {
    hide Decode, Encode, Erase;
    if elems == [] {
      assert [] + rest == rest;
    } else {
      var more := EncodeElems(elems[1..]);
      Regroup(Encode(elems[0]), more, rest);
      DecodesEncoded(elems[0], more + rest);
      ElemsDecode(elems[1..], rest);
      assert forall i | 0 <= i < |elems| :: elems[i] == if i == 0 then elems[0] else elems[1..][i - 1];
    }
  }

  lemma {:induction false} PropsDecode(props: seq<Prop<Leaf0>>, rest: seq<byte>)
    requires forall i | 0 <= i < |props| :: |props[i].key| <= STRING_MAX && Representable(props[i].value)
    ensures var r := DecodeProps(EncodeProps(props) + rest);
      if forall i | 0 <= i < |props| :: props[i].key != [] && Named(props[i].value)
      then r == Result(Done(EraseProps(props)), rest)
      else r.out.Failed?
    decreases props, 1
  {
    hide Decode, Encode, Erase, ReadText, BE, Pow256, FromBE;
    if props == [] {
      EndReads(rest);
    } else {
      var p, more := props[0], EncodeProps(props[1..]);
      var tail := Encode(p.value) + (more + rest);
      assert EncodeProps(props) + rest == BE(|p.key|, 2) + p.key + tail by {
        Regroup(BE(|p.key|, 2), p.key, tail);
        Regroup(Encode(p.value), more, rest);
        Regroup(ShortString(p.key), Encode(p.value) + more, rest);
      }
      Pow256Values();
      TextReads(p.key, 2, tail);
      if p.key == [] {
        StartsWithMarker(p.value);
      } else {
        DecodesEncoded(p.value, more + rest);
        PropsDecode(props[1..], rest);
      }
      assert forall i | 0 <= i < |props| :: props[i] == if i == 0 then p else props[1..][i - 1];
    }
  }

  lemma EndReads(rest: seq<byte>)
    ensures DecodeProps([0, 0, OBJECT_END] + rest) == Result(Done(map[]), rest)
  {
    hide Decode, ReadText;
    Pow256Values();
    TextReads([], 2, [OBJECT_END] + rest);
    assert BE(0, 1) == BE(0, 0) + [0] == [0];
    assert BE(0, 2) == BE(0, 1) + [0] == [0, 0];
    assert [0, 0, OBJECT_END] + rest == BE(0, 2) + [] + ([OBJECT_END] + rest);
    assert ([OBJECT_END] + rest)[1..] == rest;
  }

  /** An associative array is an object behind a number that does not matter. */
  lemma EcmaDecodes(count: nat, props: seq<Prop<Leaf0>>, rest: seq<byte>)
    requires Representable(OObj(props)) && Named(OObj(props))
    ensures Decode([ECMA_ARRAY] + (BE(count, 4) + EncodeProps(props)) + rest)
         == Result(Done(Obj(EraseProps(props))), rest)
  {
    hide DecodeProps, EncodeProps, DecodeElems, BE, ReadText;
    var s := [ECMA_ARRAY] + (BE(count, 4) + EncodeProps(props)) + rest;
    var t := s[1..];
    assert t == BE(count, 4) + (EncodeProps(props) + rest);
    assert t[4..] == EncodeProps(props) + rest;
    PropsDecode(props, rest);
  }

  /** A batch comes back whole, and then the input is at its end. */
  lemma {:induction false} BatchRoundTrip(os: seq<Ordered<Leaf0>>)
    requires forall i | 0 <= i < |os| :: Representable(os[i]) && Named(os[i])
    ensures DecodeBatch(EncodeBatch(os)) == Batch(EraseElems(os), Eof, [])
  {
    hide Encode, Erase;
    if os != [] {
      DecodesEncoded(os[0], EncodeBatch(os[1..]));
      BatchRoundTrip(os[1..]);
      hide Decode;
    }
  }

  /** The same for a batch of values, in whatever orders their properties were written. */
  lemma BatchOfValues(vs: seq<Value<Leaf0>>, os: seq<Ordered<Leaf0>>)
    requires EraseElems(os) == vs && forall i | 0 <= i < |vs| :: Fits(vs[i]) && AllNamed(vs[i])
    requires forall i | 0 <= i < |os| :: Once(os[i])
    ensures DecodeBatch(EncodeBatch(os)) == Batch(vs, Eof, [])
  {
    hide Fits, AllNamed, Representable, Named, Once, DecodeBatch, EncodeBatch, EraseElems, Erase;
    forall i | 0 <= i < |os| ensures Representable(os[i]) && Named(os[i]) {
      EraseElemsAt(os, i);
      OrderIsIrrelevant(os[i]);
    }
    BatchRoundTrip(os);
  }

  // ----- Any bytes ------------------------------------------------------------------------------

  predicate Suffix(s: seq<byte>, rest: seq<byte>) {
    |rest| <= |s| && s[|s| - |rest|..] == rest
  }

  /** The consumed bytes with others behind them. */
  function Moved(s: seq<byte>, rest: seq<byte>, t: seq<byte>): seq<byte> {
    if |rest| <= |s| then s[..|s| - |rest|] + t else t
  }

  /** What was consumed decides the result: a success leaves a suffix, and whatever else stands
      behind the consumed bytes is left untouched. */
  ghost predicate Local<T>(s: seq<byte>, r: Result<T>, t: seq<byte>, moved: Result<T>) {
    Suffix(s, r.rest) && moved == Result(r.out, t)
  }

  lemma TakeLocal(s: seq<byte>, n: nat, t: seq<byte>)
    requires Take(s, n).out.Done?
    ensures var r := Take(s, n);
      Local(s, r, t, Take(Moved(s, r.rest, t), n))
  {
    Unjoin(s[..n], t);
  }

  /** Two reads in turn are local when both are. */
  lemma Joined(s: seq<byte>, a: seq<byte>, b: seq<byte>, t: seq<byte>)
    requires Suffix(s, a) && Suffix(a, b)
    ensures Suffix(s, b) && Moved(s, b, t) == Moved(s, a, Moved(a, b, t))
  {
  }

  lemma TextLocal(s: seq<byte>, width: nat, t: seq<byte>)
    requires ReadText(s, width).out.Done?
    ensures var r := ReadText(s, width);
      Local(s, r, t, ReadText(Moved(s, r.rest, t), width))
  {
    hide Take, FromBE, Suffix, Moved;
    var len := Take(s, width);
    var n := FromBE(len.out.value);
    var text := Take(len.rest, n);
    TakeLocal(len.rest, n, t);
    TakeLocal(s, width, Moved(len.rest, text.rest, t));
    Joined(s, len.rest, text.rest, t);
  }

  lemma {:induction false} DecodeLocal(s: seq<byte>, t: seq<byte>)
    requires Decode(s).out.Done?
    ensures var r := Decode(s);
      Local(s, r, t, Decode(Moved(s, r.rest, t)))
    decreases |s|, 0
  {
    hide DecodeProps, DecodeElems, ReadText, DecodeTyped, DecodeEcma, DecodeStrict, ReadNumber, ReadDate;
    var r, b := Decode(s), s[1..];
    var m := Moved(s, r.rest, t);
    assert m[0] == s[0] && m[1..] == Moved(b, r.rest, t);
    match s[0]
    case 0x00 => NumberLocal(b, t);
    case 0x01 => assert m[1..][1..] == t;
    case 0x02 => TextLocal(b, 2, t);
    case 0x03 => PropsLocal(b, t);
    case 0x05 =>
    case 0x06 =>
    case 0x08 => EcmaLocal(b, t);
    case 0x0a => StrictLocal(b, t);
    case 0x0b => DateLocal(b, t);
    case 0x0c => TextLocal(b, 4, t);
    case 0x0d =>
    case 0x0f => TextLocal(b, 4, t);
    case 0x10 => TypedLocal(b, t);
  }

  lemma NumberLocal(s: seq<byte>, t: seq<byte>)
    requires ReadNumber(s).out.Done?
    ensures var r := ReadNumber(s);
      Local(s, r, t, ReadNumber(Moved(s, r.rest, t)))
  {
    TakeLocal(s, 8, t);
  }

  lemma DateLocal(s: seq<byte>, t: seq<byte>)
    requires ReadDate(s).out.Done?
    ensures var r := ReadDate(s);
      Local(s, r, t, ReadDate(Moved(s, r.rest, t)))
  {
    hide ReadNumber, Take, Suffix, Moved;
    var date := ReadNumber(s);
    var zone := Take(date.rest, 2);
    TakeLocal(date.rest, 2, t);
    NumberLocal(s, Moved(date.rest, zone.rest, t));
    Joined(s, date.rest, zone.rest, t);
  }

  lemma {:induction false} EcmaLocal(s: seq<byte>, t: seq<byte>)
    requires DecodeEcma(s).out.Done?
    ensures var r := DecodeEcma(s);
      Local(s, r, t, DecodeEcma(Moved(s, r.rest, t)))
    decreases |s|, 3
  {
    hide DecodeProps;
    var len := Take(s, 4);
    var r := DecodeProps(len.rest);
    if |s| < 4 {
      NoProps();
      assert false;
    }
    PropsLocal(len.rest, t);
    TakeLocal(s, 4, Moved(len.rest, r.rest, t));
    Joined(s, len.rest, r.rest, t);
  }

  lemma NoProps()
    ensures DecodeProps([]).out.Failed?
  {
  }

  lemma {:induction false} StrictLocal(s: seq<byte>, t: seq<byte>)
    requires DecodeStrict(s).out.Done?
    ensures var r := DecodeStrict(s);
      Local(s, r, t, DecodeStrict(Moved(s, r.rest, t)))
    decreases |s|, 3
  {
    hide DecodeElems, FromBE, Take, Suffix, Moved;
    var len := Take(s, 4);
    var n := FromBE(len.out.value);
    var r := DecodeElems(len.rest, n);
    ElemsLocal(len.rest, n, t);
    TakeLocal(s, 4, Moved(len.rest, r.rest, t));
    Joined(s, len.rest, r.rest, t);
  }

  lemma {:induction false} TypedLocal(s: seq<byte>, t: seq<byte>)
    requires DecodeTyped(s).out.Done?
    ensures var r := DecodeTyped(s);
      Local(s, r, t, DecodeTyped(Moved(s, r.rest, t)))
    decreases |s|, 3
  {
    hide DecodeProps, ReadText, Suffix, Moved;
    var name := ReadText(s, 2);
    var r := DecodeProps(name.rest);
    PropsLocal(name.rest, t);
    TextLocal(s, 2, Moved(name.rest, r.rest, t));
    Joined(s, name.rest, r.rest, t);
  }

  lemma {:induction false} ElemsLocal(s: seq<byte>, n: nat, t: seq<byte>)
    requires DecodeElems(s, n).out.Done?
    ensures var r := DecodeElems(s, n);
      Local(s, r, t, DecodeElems(Moved(s, r.rest, t), n))
    decreases |s|, 1
  {
    if n > 0 {
      hide Decode, Suffix, Moved;
      var v := Decode(s);
      var r := DecodeElems(v.rest, n - 1);
      ElemsLocal(v.rest, n - 1, t);
      DecodeLocal(s, Moved(v.rest, r.rest, t));
      Joined(s, v.rest, r.rest, t);
    }
  }

  lemma {:induction false} PropsLocal(s: seq<byte>, t: seq<byte>)
    requires DecodeProps(s).out.Done?
    ensures var r := DecodeProps(s);
      Local(s, r, t, DecodeProps(Moved(s, r.rest, t)))
    decreases |s|, 2
  {
    hide Decode, ReadText, ReadEnd, Suffix, Moved;
    var key := ReadText(s, 2);
    if key.out.value == [] {
      var r := ReadEnd(key.rest);
      EndLocal(key.rest, t);
      TextLocal(s, 2, Moved(key.rest, r.rest, t));
      Joined(s, key.rest, r.rest, t);
    } else {
      var v := Decode(key.rest);
      var r := DecodeProps(v.rest);
      PropsLocal(v.rest, t);
      DecodeLocal(key.rest, Moved(v.rest, r.rest, t));
      Joined(key.rest, v.rest, r.rest, t);
      TextLocal(s, 2, Moved(key.rest, r.rest, t));
      Joined(s, key.rest, r.rest, t);
    }
  }

  lemma EndLocal(s: seq<byte>, t: seq<byte>)
    requires ReadEnd(s).out.Done?
    ensures var r := ReadEnd(s);
      Local(s, r, t, ReadEnd(Moved(s, r.rest, t)))
  {
    assert Moved(s, s[1..], t) == [OBJECT_END] + t;
    assert ([OBJECT_END] + t)[1..] == t;
  }

  /** A value found at the front of the input is found there when more input follows. */
  lemma MoreInput(p: seq<byte>, t: seq<byte>)
    requires Decode(p).out.Done?
    ensures Decode(p + t) == Result(Decode(p).out, Decode(p).rest + t)
  {
    var r := Decode(p);
    DecodeLocal(p, r.rest + t);
    hide Decode;
    Regroup(p[..|p| - |r.rest|], r.rest, t);
    assert p == p[..|p| - |r.rest|] + r.rest;
  }

  /** No value is ever made of part of a value's bytes. */
  lemma TruncatedValueFails(s: seq<byte>, j: nat)
    requires Decode(s).out.Done? && j < |s| - |Decode(s).rest|
    ensures Decode(s[..j]).out.Failed?
  {
    hide Decode;
    if Decode(s[..j]).out.Done? {
      assert s == s[..j] + s[j..];
      MoreInput(s[..j], s[j..]);
    }
  }

  /** Of a batch that breaks off, exactly the values that arrived whole are returned. */
  lemma {:induction false} TruncatedBatch(os: seq<Ordered<Leaf0>>, j: nat)
    requires forall i | 0 <= i < |os| :: Representable(os[i]) && Named(os[i])
    requires j <= |EncodeBatch(os)|
    ensures var b := DecodeBatch(EncodeBatch(os)[..j]);
      && |b.values| <= |os| && b.values == EraseElems(os)[..|b.values|]
      && |EncodeBatch(os[..|b.values|])| <= j
      && (|b.values| < |os| ==> j < |EncodeBatch(os[..|b.values| + 1])|)
  {
    hide Decode, Encode, Erase;
    if os == [] {
      assert EncodeBatch(os)[..j] == [];
      NoValue();
    } else {
      var first, more := Encode(os[0]), EncodeBatch(os[1..]);
      var all := EncodeBatch(os);
      assert all == first + more;
      DecodesEncoded(os[0], more);
      if j < |first| {
        TruncatedValueFails(all, j);
        assert os[..1] == [os[0]] && os[..1][1..] == [] && os[..0] == [];
      } else {
        DecodesEncoded(os[0], more[..j - |first|]);
        assert all[..j] == first + more[..j - |first|];
        TruncatedBatch(os[1..], j - |first|);
        var n := |DecodeBatch(more[..j - |first|]).values|;
        assert os[..n + 1][1..] == os[1..][..n];
        if n + 1 < |os| {
          assert os[..n + 2][1..] == os[1..][..n + 1];
        }
      }
    }
  }

  lemma NoValue()
    ensures Decode([]).out.Failed?
  {
  }
}
