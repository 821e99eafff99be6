/** AMF 0 as any peer may send it, written by the AMF 0 specification, and which part of it the encoder
    writes. */
module Amf0Sent {
  import opened Bytes
  import opened ByteLayout
  import opened AmfValues
  import opened AmfIO
  import F = Amf0Format

  // ----- What a peer sends ----------------------------------------------------------------------------

  datatype Sent =
    | Number(bits: Float64)
    | Boolean(b: bool)
    | Short(text: Text)
    | Object(props: seq<Pair>)
    | Nothing
    | Undefined
    | Associative(count: nat, props: seq<Pair>)
    | Strict(elems: seq<Sent>)
    | Date(bits: Float64, zoneHigh: byte, zoneLow: byte)
    | Long(text: Text)
    | Unsupported
    | Xml(text: Text)
    | Class(name: Text, props: seq<Pair>)

  datatype Pair = Pair(key: Text, value: Sent)

  /** A marker and what it announces (sections 2.2 to 2.18 of the AMF 0 specification). */
  function SentBytes(x: Sent): seq<byte>
    decreases x
  {
    match x
    case Number(bits) => [0x00] + bits
    case Boolean(b) => [0x01] + [if b then 1 else 0]
    case Short(text) => [0x02] + (Two(|text|) + text)
    case Object(props) => [0x03] + PairsBytes(props)
    case Nothing => [0x05] + []
    case Undefined => [0x06] + []
    case Associative(count, props) => [0x08] + (Four(count) + PairsBytes(props))
    case Strict(elems) => [0x0a] + (Four(|elems|) + ElemsBytes(elems))
    case Date(bits, zoneHigh, zoneLow) => [0x0b] + (bits + [zoneHigh, zoneLow])
    case Long(text) => [0x0c] + (Four(|text|) + text)
    case Unsupported => [0x0d] + []
    case Xml(text) => [0x0f] + (Four(|text|) + text)
    case Class(name, props) => [0x10] + (Two(|name|) + name + PairsBytes(props))
  }

  function ElemsBytes(xs: seq<Sent>): seq<byte>
    decreases xs
  {
    if xs == [] then [] else SentBytes(xs[0]) + ElemsBytes(xs[1..])
  }

  /** Names and values, then an empty name and the end marker. */
  function PairsBytes(ps: seq<Pair>): seq<byte>
    decreases ps
  {
    if ps == [] then [0x00, 0x00, 0x09]
    else Two(|ps[0].key|) + ps[0].key + (SentBytes(ps[0].value) + PairsBytes(ps[1..]))
  }

  // ----- What it means --------------------------------------------------------------------------------

  /** Lengths fit their fields, and properties have names. */
  predicate Sendable(x: Sent)
    decreases x
  {
    match x
    case Short(text) => |text| < 0x1_0000
    case Object(props) => PairsSendable(props)
    case Associative(_, props) => PairsSendable(props)
    case Strict(elems) => |elems| < 0x1_0000_0000 && forall i | 0 <= i < |elems| :: Sendable(elems[i])
    case Long(text) => |text| < 0x1_0000_0000
    case Xml(text) => |text| < 0x1_0000_0000
    case Class(name, props) => |name| < 0x1_0000 && PairsSendable(props)
    case _ => true
  }

  predicate PairsSendable(ps: seq<Pair>)
    decreases ps
  {
    forall i | 0 <= i < |ps| :: 0 < |ps[i].key| < 0x1_0000 && Sendable(ps[i].value)
  }

  /** Undefined and unsupported values are null, a date is its number, and an associative array is an
      object, whatever its count says. */
  function Meaning(x: Sent): Value<F.Leaf0>
    decreases x
  {
    match x
    case Number(bits) => Leaf(F.Number(bits))
    case Boolean(b) => Leaf(F.Boolean(b))
    case Short(text) => Str(text)
    case Object(props) => Obj(PairsMeaning(props))
    case Nothing => Leaf(F.Null)
    case Undefined => Leaf(F.Null)
    case Associative(_, props) => Obj(PairsMeaning(props))
    case Strict(elems) => Arr(ElemsMeaning(elems))
    case Date(bits, _, _) => Leaf(F.Number(bits))
    case Long(text) => Str(text)
    case Unsupported => Leaf(F.Null)
    case Xml(text) => Str(text)
    case Class(name, props) => Typed(name, PairsMeaning(props))
  }

  function ElemsMeaning(xs: seq<Sent>): seq<Value<F.Leaf0>>
    decreases xs
  {
    if xs == [] then [] else [Meaning(xs[0])] + ElemsMeaning(xs[1..])
  }

  /** A later property replaces an earlier one of the same name. */
  function PairsMeaning(ps: seq<Pair>): map<Text, Value<F.Leaf0>>
    decreases ps
  {
    if ps == [] then map[] else map[ps[0].key := Meaning(ps[0].value)] + PairsMeaning(ps[1..])
  }

  // ----- The decoder follows --------------------------------------------------------------------------

  lemma ShortReads(text: Text, rest: seq<byte>)
    requires |text| < 0x1_0000
    ensures F.ReadText(Two(|text|) + text + rest, 2) == Result(Done(text), rest)
  {
    hide F.ReadText, Two;
    Pow256Values();
    TwoIs(|text|);
    F.TextReads(text, 2, rest);
  }

  lemma LongReads(text: Text, rest: seq<byte>)
    requires |text| < 0x1_0000_0000
    ensures F.ReadText(Four(|text|) + text + rest, 4) == Result(Done(text), rest)
  {
    hide F.ReadText, Four;
    Pow256Values();
    FourIs(|text|);
    F.TextReads(text, 4, rest);
  }

  lemma CountReads(n: nat, rest: seq<byte>)
    ensures Take(Four(n) + rest, 4) == Result(Done(Four(n)), rest)
    ensures n < 0x1_0000_0000 ==> FromBE(Four(n)) == n
  {
    hide Four, BE, FromBE, Pow256;
    FourIs(n);
    Unjoin(Four(n), rest);
    Pow256Values();
    FromBEInvertsBE(n, 4);
  }

  predicate HasParts(x: Sent) {
    x.Object? || x.Associative? || x.Strict? || x.Class?
  }

  lemma SimpleReads(x: Sent, rest: seq<byte>)
    requires Sendable(x) && !HasParts(x)
    ensures F.Decode(SentBytes(x) + rest) == Result(Done(Meaning(x)), rest)
  {
    hide F.DecodeProps, F.DecodeElems, F.ReadText, Two, Four, FromBE, F.DecodeStrict, F.DecodeTyped, F.DecodeEcma, F.ReadDate;
    match x
    case Number(bits) =>
      BehindMarker(0x00, bits, rest);
      Unjoin(bits, rest);
    case Boolean(b) => BehindMarker(0x01, [if b then 1 else 0], rest);
    case Short(text) =>
      BehindMarker(0x02, Two(|text|) + text, rest);
      ShortReads(text, rest);
    case Nothing => BehindMarker(0x05, [], rest);
    case Undefined => BehindMarker(0x06, [], rest);
    case Date(bits, zoneHigh, zoneLow) =>
      BehindMarker(0x0b, bits + [zoneHigh, zoneLow], rest);
      DateReads(bits, zoneHigh, zoneLow, rest);
    case Long(text) =>
      BehindMarker(0x0c, Four(|text|) + text, rest);
      LongReads(text, rest);
    case Unsupported => BehindMarker(0x0d, [], rest);
    case Xml(text) =>
      BehindMarker(0x0f, Four(|text|) + text, rest);
      LongReads(text, rest);
  }

  /** Whatever a peer sends by the specification is decoded as what it means, and what follows is left. */
  lemma {:induction false} SentReads(x: Sent, rest: seq<byte>)
    requires Sendable(x)
    ensures F.Decode(SentBytes(x) + rest) == Result(Done(Meaning(x)), rest)
    decreases x, 1
  {
    hide F.DecodeProps, F.DecodeElems, F.ReadText, ElemsBytes, PairsBytes, ElemsMeaning, PairsMeaning, PairsSendable,
         Two, Four, FromBE, F.DecodeStrict, F.DecodeTyped, F.DecodeEcma, F.ReadDate, F.ReadNumber, F.ReadBoolean;
    match x
    case Object(props) =>
      BehindMarker(0x03, PairsBytes(props), rest);
      PairsRead(props, rest);
    case Associative(count, props) =>
      BehindMarker(0x08, Four(count) + PairsBytes(props), rest);
      AssociativeReads(count, props, rest);
    case Strict(elems) =>
      BehindMarker(0x0a, Four(|elems|) + ElemsBytes(elems), rest);
      StrictReads(elems, rest);
    case Class(name, props) =>
      BehindMarker(0x10, Two(|name|) + name + PairsBytes(props), rest);
      ClassReads(name, props, rest);
    case _ => SimpleReads(x, rest);
  }

  lemma BehindMarker(marker: byte, s: seq<byte>, rest: seq<byte>)
    ensures ([marker] + s + rest)[0] == marker && ([marker] + s + rest)[1..] == s + rest
    ensures s == [] ==> s + rest == rest
  {
  }

  lemma DateReads(bits: Float64, zoneHigh: byte, zoneLow: byte, rest: seq<byte>)
    ensures F.ReadDate(bits + [zoneHigh, zoneLow] + rest) == Result(Done(Leaf(F.Number(bits))), rest)
  {
    Regroup(bits, [zoneHigh, zoneLow], rest);
    Unjoin(bits, [zoneHigh, zoneLow] + rest);
    Unjoin([zoneHigh, zoneLow], rest);
  }

  lemma {:induction false} AssociativeReads(count: nat, props: seq<Pair>, rest: seq<byte>)
    requires PairsSendable(props)
    ensures F.DecodeEcma(Four(count) + PairsBytes(props) + rest) == Result(Done(Obj(PairsMeaning(props))), rest)
    decreases props, 2
  {
    hide F.DecodeProps, PairsBytes, PairsMeaning, PairsSendable, Four, FromBE;
    Regroup(Four(count), PairsBytes(props), rest);
    CountReads(count, PairsBytes(props) + rest);
    PairsRead(props, rest);
  }

  lemma {:induction false} StrictReads(elems: seq<Sent>, rest: seq<byte>)
    requires |elems| < 0x1_0000_0000 && forall i | 0 <= i < |elems| :: Sendable(elems[i])
    ensures F.DecodeStrict(Four(|elems|) + ElemsBytes(elems) + rest) == Result(Done(Arr(ElemsMeaning(elems))), rest)
    decreases elems, 2
  {
    hide F.DecodeElems, ElemsBytes, ElemsMeaning, Sendable, Four, FromBE;
    Regroup(Four(|elems|), ElemsBytes(elems), rest);
    CountReads(|elems|, ElemsBytes(elems) + rest);
    ElemsRead(elems, rest);
  }

  lemma {:induction false} ClassReads(name: Text, props: seq<Pair>, rest: seq<byte>)
    requires |name| < 0x1_0000 && PairsSendable(props)
    ensures F.DecodeTyped(Two(|name|) + name + PairsBytes(props) + rest)
         == Result(Done(Typed(name, PairsMeaning(props))), rest)
    decreases props, 2
  {
    hide F.DecodeProps, F.ReadText, PairsBytes, PairsMeaning, PairsSendable, Two;
    Regroup(Two(|name|) + name, PairsBytes(props), rest);
    ShortReads(name, PairsBytes(props) + rest);
    PairsRead(props, rest);
  }

  lemma {:induction false} ElemsRead(xs: seq<Sent>, rest: seq<byte>)
    requires forall i | 0 <= i < |xs| :: Sendable(xs[i])
    ensures F.DecodeElems(ElemsBytes(xs) + rest, |xs|) == Result(Done(ElemsMeaning(xs)), rest)
    decreases xs, 1
  {
    hide F.Decode, SentBytes, Meaning, Sendable;
    if xs == [] {
      assert [] + rest == rest;
    } else {
      Regroup(SentBytes(xs[0]), ElemsBytes(xs[1..]), rest);
      SentReads(xs[0], ElemsBytes(xs[1..]) + rest);
      ElemsRead(xs[1..], rest);
    }
  }

  lemma {:induction false} PairsRead(ps: seq<Pair>, rest: seq<byte>)
    requires PairsSendable(ps)
    ensures F.DecodeProps(PairsBytes(ps) + rest) == Result(Done(PairsMeaning(ps)), rest)
    decreases ps, 1
  {
    hide F.Decode, SentBytes, Meaning, Sendable, F.ReadText, Two;
    if ps == [] {
      NoMorePairs(rest);
    } else {
      var name, more := Two(|ps[0].key|) + ps[0].key, PairsBytes(ps[1..]) + rest;
      Regroup(name, SentBytes(ps[0].value) + PairsBytes(ps[1..]), rest);
      Regroup(SentBytes(ps[0].value), PairsBytes(ps[1..]), rest);
      ShortReads(ps[0].key, SentBytes(ps[0].value) + more);
      SentReads(ps[0].value, more);
      PairsRead(ps[1..], rest);
    }
  }

  lemma NoMorePairs(rest: seq<byte>)
    ensures F.DecodeProps([0x00, 0x00, 0x09] + rest) == Result(Done(map[]), rest)
  {
    hide F.Decode, F.ReadText;
    ShortReads([], [0x09] + rest);
    assert Two(0) + [] + ([0x09] + rest) == [0x00, 0x00, 0x09] + rest;
  }

  // ----- The encoder writes a part of it --------------------------------------------------------------

  /** Short strings where they fit, objects and strict arrays. */
  function SentOf(o: Ordered<F.Leaf0>): Sent
    requires F.Representable(o)
    decreases o
  {
    match o
    case OLeaf(Null) => Nothing
    case OLeaf(Boolean(b)) => Boolean(b)
    case OLeaf(Number(bits)) => Number(bits)
    case OStr(text) => if |text| < 0x1_0000 then Short(text) else Long(text)
    case OArr(elems) => Strict(ElemsOf(elems))
    case OObj(props) => Object(PairsOf(props))
  }

  function ElemsOf(elems: seq<Ordered<F.Leaf0>>): (xs: seq<Sent>)
    requires forall i | 0 <= i < |elems| :: F.Representable(elems[i])
    ensures |xs| == |elems|
    decreases elems
  {
    if elems == [] then [] else [SentOf(elems[0])] + ElemsOf(elems[1..])
  }

  function PairsOf(props: seq<Prop<F.Leaf0>>): seq<Pair>
    requires forall i | 0 <= i < |props| :: F.Representable(props[i].value)
    decreases props
  {
    if props == [] then [] else [Pair(props[0].key, SentOf(props[0].value))] + PairsOf(props[1..])
  }

  /** Byte by byte, the encoder writes what the specification says. */
  lemma {:induction false} EncodesAsSent(o: Ordered<F.Leaf0>)
    requires F.Representable(o)
    ensures F.Encode(o) == SentBytes(SentOf(o))
    decreases o
  {
    hide Two, Four, BE, F.EncodeElems, F.EncodeProps, ElemsBytes, PairsBytes;
    match o
    case OLeaf(_) =>
    case OStr(text) =>
      TwoIs(|text|);
      FourIs(|text|);
    case OArr(elems) =>
      FourIs(|elems|);
      ElemsEncode(elems);
    case OObj(props) => PropsEncode(props);
  }

  lemma {:induction false} ElemsEncode(elems: seq<Ordered<F.Leaf0>>)
    requires forall i | 0 <= i < |elems| :: F.Representable(elems[i])
    ensures F.EncodeElems(elems) == ElemsBytes(ElemsOf(elems))
    decreases elems
  {
    hide F.Encode, SentBytes, F.Representable, SentOf;
    if elems != [] {
      EncodesAsSent(elems[0]);
      ElemsEncode(elems[1..]);
      assert ElemsOf(elems)[1..] == ElemsOf(elems[1..]);
    }
  }

  lemma {:induction false} PropsEncode(props: seq<Prop<F.Leaf0>>)
    requires forall i | 0 <= i < |props| :: F.Representable(props[i].value)
    ensures F.EncodeProps(props) == PairsBytes(PairsOf(props))
    decreases props
  {
    hide F.Encode, SentBytes, F.Representable, SentOf, Two, BE;
    if props != [] {
      TwoIs(|props[0].key|);
      EncodesAsSent(props[0].value);
      PropsEncode(props[1..]);
      assert PairsOf(props)[1..] == PairsOf(props[1..]);
    }
  }

  // ----- What is refused --------------------------------------------------------------------------------

  /** Other markers, a truth value that is neither 0 nor 1, and an empty name without an end are refused. */
  lemma RefusesOthers(marker: byte, b: byte, rest: seq<byte>)
    ensures marker in {0x04, 0x07, 0x09, 0x0e} || marker > 0x11
            ==> F.Decode([marker] + rest) == Result(Failed(Bad), rest)
    ensures b > 1 ==> F.Decode([0x01, b] + rest) == Result(Failed(Bad), rest)
    ensures b != 0x09 ==> F.Decode([0x03, 0x00, 0x00, b] + rest) == Result(Failed(Bad), rest)
  {
    hide F.DecodeElems, F.ReadText;
    assert ([marker] + rest)[1..] == rest;
    assert ([0x01, b] + rest)[1..] == [b] + rest && ([b] + rest)[1..] == rest;
    var end := [b] + rest;
    assert ([0x03, 0x00, 0x00, b] + rest)[1..] == Two(0) + [] + end;
    ShortReads([], end);
    assert end[1..] == rest;
  }
}
