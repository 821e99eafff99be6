/** AMF 3 on bytes: 29-bit integers of one to four bytes, strings, arrays and objects with their
    traits, and a decoder with tables of everything it has seen. */
module Amf3Format {
  import opened Bytes
  import opened AmfValues
  import opened AmfIO

  datatype Leaf3 = Null | Boolean(b: bool) | Int(n: int) | Number(bits: Float64)

  type Val3 = Value<Leaf3>

  const NULL: byte := 0x01
  const FALSE: byte := 0x02
  const TRUE: byte := 0x03
  const INTEGER: byte := 0x04
  const DOUBLE: byte := 0x05
  const STRING: byte := 0x06
  const ARRAY: byte := 0x09
  const OBJECT: byte := 0x0a

  const U29_LIMIT: nat := 0x2000_0000

  // ----- 29-bit integers ------------------------------------------------------------------------

  /** Seven bits a byte, most significant first; a fourth byte has eight. */
  function U29(v: nat): (s: seq<byte>)
    requires v < U29_LIMIT
    ensures 1 <= |s| <= 4
  {
    if v <= 0x7f then [v]
    else if v <= 0x3fff then [v / 0x80 + 0x80, v % 0x80]
    else if v <= 0x1f_ffff then [v / 0x4000 + 0x80, v / 0x80 % 0x80 + 0x80, v % 0x80]
    else [v / 0x40_0000 + 0x80, v / 0x8000 % 0x80 + 0x80, v / 0x100 % 0x80 + 0x80, v % 0x100]
  }

  /** i bytes are read already and make up acc. */
  function ReadU29From(s: seq<byte>, i: nat, acc: nat): (r: Result<nat>)
    requires i <= 3
    ensures |r.rest| <= |s| && (r.out.Done? ==> |r.rest| < |s|)
    decreases 3 - i
  {
    if s == [] then Result(Failed(Eof), [])
    else if i == 3 then Result(Done(acc * 0x100 + s[0]), s[1..])
    else
      var acc' := acc * 0x80 + (s[0] as int) % 0x80;
      if s[0] < 0x80 then Result(Done(acc'), s[1..]) else ReadU29From(s[1..], i + 1, acc')
  }

  function ReadU29(s: seq<byte>): (r: Result<nat>)
    ensures |r.rest| <= |s| && (r.out.Done? ==> |r.rest| < |s|)
  {
    ReadU29From(s, 0, 0)
  }

  lemma ReadNextByte(b: byte, tail: seq<byte>, i: nat, acc: nat)
    requires i <= 3
    ensures ReadU29From([b] + tail, i, acc)
         == if i == 3 then Result(Done(acc * 0x100 + b), tail)
            else if b < 0x80 then Result(Done(acc * 0x80 + b), tail)
            else ReadU29From(tail, i + 1, acc * 0x80 + b - 0x80)
  {
    assert ([b] + tail)[1..] == tail;
  }

  /** Reading what was written gives the number back. */
  lemma U29RoundTrip(v: nat, rest: seq<byte>)
    requires v < U29_LIMIT
    ensures ReadU29(U29(v) + rest) == Result(Done(v), rest)
  {
    hide ReadU29From;
    if v <= 0x7f {
      ReadNextByte(v, rest, 0, 0);
    } else if v <= 0x3fff {
      ReadNextByte(v / 0x80 + 0x80, [v % 0x80] + rest, 0, 0);
      ReadNextByte(v % 0x80, rest, 1, v / 0x80);
      assert U29(v) + rest == [v / 0x80 + 0x80] + ([v % 0x80] + rest);
    } else if v <= 0x1f_ffff {
      var tail := [v / 0x80 % 0x80 + 0x80] + ([v % 0x80] + rest);
      ReadNextByte(v / 0x4000 + 0x80, tail, 0, 0);
      ReadNextByte(v / 0x80 % 0x80 + 0x80, [v % 0x80] + rest, 1, v / 0x4000);
      ReadNextByte(v % 0x80, rest, 2, v / 0x80);
      assert U29(v) + rest == [v / 0x4000 + 0x80] + tail;
    } else {
      FourBytes(v, rest);
    }
  }

  lemma FourBytes(v: nat, rest: seq<byte>)
    requires 0x1f_ffff < v < U29_LIMIT
    ensures ReadU29(U29(v) + rest) == Result(Done(v), rest)
  {
    hide ReadU29From;
    var three := [v / 0x100 % 0x80 + 0x80] + ([v % 0x100] + rest);
    var two := [v / 0x8000 % 0x80 + 0x80] + three;
    ReadNextByte(v / 0x40_0000 + 0x80, two, 0, 0);
    ReadNextByte(v / 0x8000 % 0x80 + 0x80, three, 1, v / 0x40_0000);
    ReadNextByte(v / 0x100 % 0x80 + 0x80, [v % 0x100] + rest, 2, v / 0x8000);
    ReadNextByte(v % 0x100, rest, 3, v / 0x100);
    assert U29(v) + rest == [v / 0x40_0000 + 0x80] + two;
  }

  /** The written form is the shortest that is read as the number, and no number is too large. */
  lemma U29Shortest(s: seq<byte>)
    requires ReadU29(s).out.Done?
    ensures var v := ReadU29(s).out.value;
      v < U29_LIMIT && |U29(v)| <= |s| - |ReadU29(s).rest|
  {
  }

  // ----- Writing --------------------------------------------------------------------------------

  /** A length in its 32-bit word, shifted by one and marked as not being a reference. */
  function LengthCode(n: nat): nat {
    n * 2 % 0x1_0000_0000 + 1
  }

  /** The same with the marks of inline traits without dynamic properties. */
  function TraitCode(n: nat): nat {
    n * 16 % 0x1_0000_0000 + 3
  }

  /** The number as it is written, or nothing if it needs more than 29 bits. */
  function Code(v: nat): seq<byte> {
    if v < U29_LIMIT then U29(v) else []
  }

  function Utf8(text: Text): seq<byte> {
    Code(LengthCode(|text|)) + text
  }

  function Utf8s(texts: seq<Text>): seq<byte> {
    if texts == [] then [] else Utf8(texts[0]) + Utf8s(texts[1..])
  }

  function Log2(m: nat): nat
    requires m > 0
  {
    if m == 1 then 0 else 1 + Log2(m / 2)
  }

  function Pow2(e: nat): (p: nat)
    ensures p > 0
  {
    if e == 0 then 1 else 2 * Pow2(e - 1)
  }

  /** An integer as a double: sign, exponent and the bits behind the leading one. */
  function FloatBits(n: int): Float64 {
    if n == 0 then BE(0, 8)
    else
      var m := if n < 0 then -n else n;
      var e := Log2(m);
      BE((if n < 0 then 0x8000_0000_0000_0000 else 0) + (1022 + e) * 0x10_0000_0000_0000 + Significand(m, Pow2(e)), 8)
  }

  function Significand(m: nat, p: nat): nat
    requires p > 0
  {
    m * 0x10_0000_0000_0000 / p
  }

  function EncodeLeaf(leaf: Leaf3): seq<byte> {
    match leaf
    case Null => [NULL]
    case Boolean(b) => [if b then TRUE else FALSE]
    case Int(n) => if 0 <= n < U29_LIMIT then [INTEGER] + U29(n) else [DOUBLE] + FloatBits(n)
    case Number(bits) => [DOUBLE] + bits
  }

  function Encode(o: Ordered<Leaf3>): seq<byte>
    decreases o
  {
    match o
    case OLeaf(leaf) => EncodeLeaf(leaf)
    case OStr(text) => [STRING] + Utf8(text)
    case OArr(elems) => [ARRAY] + (Code(LengthCode(|elems|)) + (Utf8([]) + EncodeElems(elems)))
    case OObj(props) => [OBJECT] + (TraitBytes([], props) + EncodeValues(props))
    case OTyped(name, props) => [OBJECT] + (TraitBytes(name, props) + EncodeValues(props))
  }

  function EncodeElems(elems: seq<Ordered<Leaf3>>): seq<byte>
    decreases elems
  {
    if elems == [] then [] else Encode(elems[0]) + EncodeElems(elems[1..])
  }

  /** The names of the class and of all properties stand before the first value. */
  function TraitBytes(name: Text, props: seq<Prop<Leaf3>>): seq<byte> {
    Code(TraitCode(|props|)) + (Utf8(name) + Utf8s(KeyList(props)))
  }

  function KeyList(props: seq<Prop<Leaf3>>): (s: seq<Text>)
    ensures |s| == |props|
    ensures forall i | 0 <= i < |s| :: s[i] == props[i].key
  {
    if props == [] then [] else [props[0].key] + KeyList(props[1..])
  }

  function EncodeValues(props: seq<Prop<Leaf3>>): seq<byte>
    decreases props
  {
    if props == [] then [] else Encode(props[0].value) + EncodeValues(props[1..])
  }

  // ----- Reading --------------------------------------------------------------------------------

  datatype Trait = Trait(name: Text, externalizable: bool, dynamic: bool, properties: seq<Text>)

  /** What later references can point to. An object's own place holds nothing. */
  datatype Refs = Refs(strings: seq<Text>, objects: seq<Val3>, traits: seq<Trait>)

  /** A result and the tables after it. */
  datatype Read<+T> = Read(r: Result<T>, refs: Refs)

  function Fail<T>(error: Error, rest: seq<byte>, refs: Refs): Read<T> {
    Read(Result(Failed(error), rest), refs)
  }

  /** One read into a fresh buffer of n bytes: what is missing stays zero. */
  function ReadPadded(s: seq<byte>, n: nat): (r: Result<seq<byte>>)
    ensures |r.rest| <= |s|
  {
    if n > 0 && s == [] then Result(Failed(Eof), [])
    else if |s| >= n then Result(Done(s[..n]), s[n..])
    else Result(Done(s + seq(n - |s|, i => 0)), [])
  }

  function ReadString(s: seq<byte>, refs: Refs): (d: Read<Text>)
    ensures |d.r.rest| <= |s| && (d.r.out.Done? ==> |d.r.rest| < |s|)
  {
    var u := ReadU29(s);
    if u.out.Failed? then Fail(Bad, u.rest, refs)
    else
      var n := u.out.value / 2;
      if u.out.value % 2 == 0 then
        if n < |refs.strings| then Read(Result(Done(refs.strings[n]), u.rest), refs)
        else Fail(Panic, u.rest, refs)
      else
        var text := ReadPadded(u.rest, n);
        if text.out.Failed? then Fail(Bad, text.rest, refs)
        else Read(text, if text.out.value == [] then refs
                        else refs.(strings := refs.strings + [text.out.value]))
  }

  function ReadInteger(s: seq<byte>): (r: Result<Val3>)
    ensures |r.rest| <= |s|
  {
    var u := ReadU29(s);
    if u.out.Failed? then Result(Failed(u.out.error), u.rest)
    else Result(Done(Leaf(Int(Signed(u.out.value)))), u.rest)
  }

  /** The upper half of the range is taken as negative numbers. */
  function Signed(v: nat): int {
    if v > 0xfff_ffff then v - U29_LIMIT else v
  }

  function ReadDouble(s: seq<byte>): (r: Result<Val3>)
    ensures |r.rest| <= |s|
  {
    var bits := Take(s, 8);
    if bits.out.Failed? then Result(Failed(Bad), bits.rest)
    else Result(Done(Leaf(Number(bits.out.value))), bits.rest)
  }

  function AsStr(d: Read<Text>): Read<Val3> {
    Read(Result(if d.r.out.Done? then Done(Str(d.r.out.value)) else Failed(d.r.out.error), d.r.rest), d.refs)
  }

  function Decode(s: seq<byte>, refs: Refs): (d: Read<Val3>)
    ensures |d.r.rest| <= |s| && (d.r.out.Done? ==> |d.r.rest| < |s|)
    decreases |s|, 0
  {
    if s == [] then Fail(Eof, [], refs)
    else
      var t := s[1..];
      match s[0]
      case 0x00 => Read(Result(Done(Leaf(Null)), t), refs)
      case 0x01 => Read(Result(Done(Leaf(Null)), t), refs)
      case 0x02 => Read(Result(Done(Leaf(Boolean(false))), t), refs)
      case 0x03 => Read(Result(Done(Leaf(Boolean(true))), t), refs)
      case 0x04 => Read(ReadInteger(t), refs)
      case 0x05 => Read(ReadDouble(t), refs)
      case 0x06 => AsStr(ReadString(t, refs))
      case 0x07 => Fail(NotModelled, t, refs)
      case 0x08 => Fail(NotModelled, t, refs)
      case 0x09 => DecodeArray(t, refs)
      case 0x0a => DecodeObject(t, refs)
      case 0x0b => Fail(NotModelled, t, refs)
      case 0x0c => Fail(NotModelled, t, refs)
      case _ => Fail(Bad, t, refs)
  }

  function DecodeArray(s: seq<byte>, refs: Refs): (d: Read<Val3>)
    ensures |d.r.rest| <= |s|
    decreases |s|, 3
  {
    var u := ReadU29(s);
    if u.out.Failed? then Fail(Bad, u.rest, refs)
    else
      var n := u.out.value / 2;
      if u.out.value % 2 == 0 then
        if n / 2 >= |refs.objects| then Fail(Panic, u.rest, refs)
        else if !refs.objects[n / 2].Arr? then Fail(Bad, u.rest, refs)
        else Read(Result(Done(refs.objects[n / 2]), u.rest), refs)
      else
        var key := ReadString(u.rest, refs);
        if key.r.out.Failed? then Fail(Wrap(key.r.out.error), key.r.rest, key.refs)
        else if key.r.out.value != [] then Fail(Bad, key.r.rest, key.refs)
        else
          var d := DecodeElems(key.r.rest, key.refs, n);
          if d.r.out.Failed? then Fail(d.r.out.error, d.r.rest, d.refs)
          else
            var arr := Arr(d.r.out.value);
            Read(Result(Done(arr), d.r.rest), d.refs.(objects := d.refs.objects + [arr]))
  }

  function DecodeElems(s: seq<byte>, refs: Refs, n: nat): (d: Read<seq<Val3>>)
    ensures |d.r.rest| <= |s| && (d.r.out.Done? ==> |d.r.out.value| == n)
    decreases |s|, 1
  {
    if n == 0 then Read(Result(Done([]), s), refs)
    else
      var v := Decode(s, refs);
      if v.r.out.Failed? then Fail(Wrap(v.r.out.error), v.r.rest, v.refs)
      else After([v.r.out.value], DecodeElems(v.r.rest, v.refs, n - 1))
  }

  function After<T>(head: seq<T>, d: Read<seq<T>>): Read<seq<T>> {
    Read(Result(if d.r.out.Done? then Done(head + d.r.out.value) else d.r.out, d.r.rest), d.refs)
  }

  /** The shape of an object: one seen before, or a new one with the names that follow. */
  function ReadTrait(s: seq<byte>, code: nat, refs: Refs): (d: Read<Trait>)
    ensures |d.r.rest| <= |s|
  {
    if code % 2 == 0 then
      if code / 2 < |refs.traits| then Read(Result(Done(refs.traits[code / 2]), s), refs)
      else Fail(Panic, s, refs)
    else
      var name := ReadString(s, refs);
      if name.r.out.Failed? then Fail(Wrap(name.r.out.error), name.r.rest, name.refs)
      else
        var keys := ReadStrings(name.r.rest, name.refs, code / 8);
        if keys.r.out.Failed? then Fail(keys.r.out.error, keys.r.rest, keys.refs)
        else
          var shape := Trait(name.r.out.value, code / 2 % 2 == 1, code / 4 % 2 == 1, keys.r.out.value);
          Read(Result(Done(shape), keys.r.rest), keys.refs.(traits := keys.refs.traits + [shape]))
  }

  function ReadStrings(s: seq<byte>, refs: Refs, n: nat): (d: Read<seq<Text>>)
    ensures |d.r.rest| <= |s| && (d.r.out.Done? ==> |d.r.out.value| == n)
    decreases n
  {
    if n == 0 then Read(Result(Done([]), s), refs)
    else
      var key := ReadString(s, refs);
      if key.r.out.Failed? then Fail(Wrap(key.r.out.error), key.r.rest, key.refs)
      else After([key.r.out.value], ReadStrings(key.r.rest, key.refs, n - 1))
  }

  function DecodeObject(s: seq<byte>, refs: Refs): (d: Read<Val3>)
    ensures |d.r.rest| <= |s|
    decreases |s|, 3
  {
    var u := ReadU29(s);
    if u.out.Failed? then Fail(Bad, u.rest, refs)
    else
      var code := u.out.value / 2;
      if u.out.value % 2 == 0 then
        if code / 2 < |refs.objects| then Read(Result(Done(refs.objects[code / 2]), u.rest), refs)
        else Fail(Panic, u.rest, refs)
      else
        var t := ReadTrait(u.rest, code, refs);
        if t.r.out.Failed? then Fail(t.r.out.error, t.r.rest, t.refs)
        else DecodeProps(t.r.rest, t.refs.(objects := t.refs.objects + [Leaf(Null)]), t.r.out.value)
  }

  /** The values of an object whose shape is known. */
  function DecodeProps(s: seq<byte>, refs: Refs, shape: Trait): (d: Read<Val3>)
    ensures |d.r.rest| <= |s|
    decreases |s|, 2
  {
    if shape.externalizable then Fail(NotModelled, s, refs)
    else
      var sealed := DecodeSealed(s, refs, shape.properties);
      if sealed.r.out.Failed? || !shape.dynamic then AsObj(sealed)
      else AsObj(Onto(sealed.r.out.value, DecodeDynamic(sealed.r.rest, sealed.refs)))
  }

  function AsObj(d: Read<map<Text, Val3>>): Read<Val3> {
    Read(Result(if d.r.out.Done? then Done(Obj(d.r.out.value)) else Failed(d.r.out.error), d.r.rest), d.refs)
  }

  function Onto<T>(head: map<Text, T>, d: Read<map<Text, T>>): Read<map<Text, T>> {
    Read(Result(if d.r.out.Done? then Done(head + d.r.out.value) else d.r.out, d.r.rest), d.refs)
  }

  /** One value for each of the names. */
  function DecodeSealed(s: seq<byte>, refs: Refs, names: seq<Text>): (d: Read<map<Text, Val3>>)
    ensures |d.r.rest| <= |s|
    decreases |s|, 1
  {
    if names == [] then Read(Result(Done(map[]), s), refs)
    else
      var v := Decode(s, refs);
      if v.r.out.Failed? then Fail(Wrap(v.r.out.error), v.r.rest, v.refs)
      else Onto(map[names[0] := v.r.out.value], DecodeSealed(v.r.rest, v.refs, names[1..]))
  }

  /** Names and values up to an empty name. */
  function DecodeDynamic(s: seq<byte>, refs: Refs): (d: Read<map<Text, Val3>>)
    ensures |d.r.rest| <= |s|
    decreases |s|, 1
  {
    var key := ReadString(s, refs);
    if key.r.out.Failed? then Fail(Wrap(key.r.out.error), key.r.rest, key.refs)
    else if key.r.out.value == [] then Read(Result(Done(map[]), key.r.rest), key.refs)
    else
      var v := Decode(key.r.rest, key.refs);
      if v.r.out.Failed? then Fail(Wrap(v.r.out.error), v.r.rest, v.refs)
      else Onto(map[key.r.out.value := v.r.out.value], DecodeDynamic(v.r.rest, v.refs))
  }

  // ----- Round trip -----------------------------------------------------------------------------

  const TEXT_LIMIT: nat := 0x1000_0000
  const PROPS_LIMIT: nat := 0x200_0000

  /** Everything here and further down is short enough for its length code. */
  predicate Representable(o: Ordered<Leaf3>)
    decreases o
  {
    match o
    case OLeaf(_) => true
    case OStr(text) => |text| < TEXT_LIMIT
    case OArr(elems) => |elems| < TEXT_LIMIT && forall i | 0 <= i < |elems| :: Representable(elems[i])
    case OObj(props) => |props| < PROPS_LIMIT && PropsFit(props)
    case OTyped(name, props) => |name| < TEXT_LIMIT && |props| < PROPS_LIMIT && PropsFit(props)
  }

  predicate PropsFit(props: seq<Prop<Leaf3>>)
    decreases props
  {
    forall i | 0 <= i < |props| :: |props[i].key| < TEXT_LIMIT && Representable(props[i].value)
  }

  /** What the wire keeps of a value: no names of classes, and numbers as they are read back. */
  function Kept(o: Ordered<Leaf3>): Val3
    decreases o
  {
    match o
    case OLeaf(leaf) => Leaf(KeptLeaf(leaf))
    case OStr(text) => Str(text)
    case OArr(elems) => Arr(KeptElems(elems))
    case OObj(props) => Obj(KeptProps(props))
    case OTyped(_, props) => Obj(KeptProps(props))
  }

  function KeptLeaf(leaf: Leaf3): Leaf3 {
    if leaf.Int? then if 0 <= leaf.n < U29_LIMIT then Int(Signed(leaf.n)) else Number(FloatBits(leaf.n))
    else leaf
  }

  function KeptElems(elems: seq<Ordered<Leaf3>>): (s: seq<Val3>)
    ensures |s| == |elems|
    decreases elems
  {
    if elems == [] then [] else [Kept(elems[0])] + KeptElems(elems[1..])
  }

  function KeptProps(props: seq<Prop<Leaf3>>): map<Text, Val3>
    decreases props
  {
    if props == [] then map[] else map[props[0].key := Kept(props[0].value)] + KeptProps(props[1..])
  }

  lemma CodeReads(v: nat, rest: seq<byte>)
    requires v < U29_LIMIT
    ensures ReadU29(Code(v) + rest) == Result(Done(v), rest)
  {
    hide U29, ReadU29;
    U29RoundTrip(v, rest);
  }

  lemma StringReads(text: Text, rest: seq<byte>, refs: Refs)
    requires |text| < TEXT_LIMIT
    ensures ReadString(Utf8(text) + rest, refs).r == Result(Done(text), rest)
  {
    hide ReadU29, Code;
    var code := LengthCode(|text|);
    assert code == 2 * |text| + 1;
    Regroup(Code(code), text, rest);
    CodeReads(code, text + rest);
    Unjoin(text, rest);
  }

  lemma {:induction false} StringsRead(texts: seq<Text>, rest: seq<byte>, refs: Refs)
    requires forall i | 0 <= i < |texts| :: |texts[i]| < TEXT_LIMIT
    ensures ReadStrings(Utf8s(texts) + rest, refs, |texts|).r == Result(Done(texts), rest)
    decreases |texts|
  {
    hide ReadString, Utf8;
    if texts == [] {
      assert [] + rest == rest;
    } else {
      var more := Utf8s(texts[1..]);
      Regroup(Utf8(texts[0]), more, rest);
      StringReads(texts[0], more + rest, refs);
      StringsRead(texts[1..], rest, ReadString(Utf8(texts[0]) + (more + rest), refs).refs);
      assert texts == [texts[0]] + texts[1..];
    }
  }

  lemma LeafReads(leaf: Leaf3, rest: seq<byte>, refs: Refs)
    ensures Decode(EncodeLeaf(leaf) + rest, refs).r == Result(Done(Leaf(KeptLeaf(leaf))), rest)
  {
    hide ReadU29, U29, FloatBits, DecodeArray, DecodeObject, ReadString;
    var s := EncodeLeaf(leaf) + rest;
    match leaf
    case Null => assert s[1..] == rest;
    case Boolean(b) => assert s[1..] == rest;
    case Int(n) =>
      if 0 <= n < U29_LIMIT {
        assert s[1..] == U29(n) + rest;
        U29RoundTrip(n, rest);
      } else {
        assert s[1..] == FloatBits(n) + rest;
        Unjoin(FloatBits(n), rest);
      }
    case Number(bits) =>
      assert s[1..] == bits + rest;
      Unjoin(bits, rest);
  }

  /** Decoding what was encoded gives what the wire keeps of it and leaves what follows, whatever
      the tables held before. */
  lemma {:induction false} DecodesEncoded(o: Ordered<Leaf3>, rest: seq<byte>, refs: Refs)
    requires Representable(o)
    ensures Decode(Encode(o) + rest, refs).r == Result(Done(Kept(o)), rest)
    decreases o, 2
  {
    hide DecodeArray, DecodeObject, ReadString, EncodeElems, EncodeValues, TraitBytes, Utf8, Code,
         KeptElems, KeptProps, PropsFit;
    var t := (Encode(o) + rest)[1..];
    match o
    case OLeaf(leaf) => LeafReads(leaf, rest, refs);
    case OStr(text) =>
      assert t == Utf8(text) + rest;
      StringReads(text, rest, refs);
    case OArr(elems) =>
      assert t == Code(LengthCode(|elems|)) + (Utf8([]) + EncodeElems(elems)) + rest;
      ArrayDecodes(elems, rest, refs);
    case OObj(props) =>
      assert t == TraitBytes([], props) + EncodeValues(props) + rest;
      ObjectDecodes([], props, rest, refs);
    case OTyped(name, props) =>
      assert t == TraitBytes(name, props) + EncodeValues(props) + rest;
      ObjectDecodes(name, props, rest, refs);
  }

  lemma {:induction false} ArrayDecodes(elems: seq<Ordered<Leaf3>>, rest: seq<byte>, refs: Refs)
    requires |elems| < TEXT_LIMIT && forall i | 0 <= i < |elems| :: Representable(elems[i])
    ensures DecodeArray(Code(LengthCode(|elems|)) + (Utf8([]) + EncodeElems(elems)) + rest, refs).r
         == Result(Done(Arr(KeptElems(elems))), rest)
    decreases elems, 1
  {
    hide ReadU29, ReadString, EncodeElems, Utf8, Code, KeptElems, DecodeElems, Representable;
    var body := EncodeElems(elems);
    Regroup(Code(LengthCode(|elems|)), Utf8([]) + body, rest);
    Regroup(Utf8([]), body, rest);
    CodeReads(LengthCode(|elems|), Utf8([]) + (body + rest));
    StringReads([], body + rest, refs);
    ElemsDecode(elems, rest, ReadString(Utf8([]) + (body + rest), refs).refs);
  }

  lemma {:induction false} ElemsDecode(elems: seq<Ordered<Leaf3>>, rest: seq<byte>, refs: Refs)
    requires forall i | 0 <= i < |elems| :: Representable(elems[i])
    ensures DecodeElems(EncodeElems(elems) + rest, refs, |elems|).r == Result(Done(KeptElems(elems)), rest)
    decreases elems, 0
  {
    hide Decode, Encode, Kept, Representable;
    if elems == [] {
      assert [] + rest == rest;
    } else {
      var more := EncodeElems(elems[1..]);
      Regroup(Encode(elems[0]), more, rest);
      DecodesEncoded(elems[0], more + rest, refs);
      ElemsDecode(elems[1..], rest, Decode(Encode(elems[0]) + (more + rest), refs).refs);
    }
  }

  lemma TraitCodeReads(name: Text, props: seq<Prop<Leaf3>>, rest: seq<byte>)
    requires |props| < PROPS_LIMIT
    ensures ReadU29(TraitBytes(name, props) + rest)
         == Result(Done(TraitCode(|props|)), Utf8(name) + Utf8s(KeyList(props)) + rest)
  {
    TraitCodeValue(|props|);
    hide ReadU29, Utf8, Utf8s, Code, KeyList, TraitCode;
    CodeReadsFirst(TraitCode(|props|), Utf8(name) + Utf8s(KeyList(props)), rest);
  }

  lemma CodeReadsFirst(code: nat, names: seq<byte>, rest: seq<byte>)
    requires code < U29_LIMIT
    ensures ReadU29(Code(code) + names + rest) == Result(Done(code), names + rest)
  {
    hide ReadU29, Code;
    Regroup(Code(code), names, rest);
    CodeReads(code, names + rest);
  }

  lemma TraitCodeValue(n: nat)
    requires n < PROPS_LIMIT
    ensures TraitCode(n) == 16 * n + 3 < U29_LIMIT
  {
  }

  lemma TraitReads(name: Text, keys: seq<Text>, rest: seq<byte>, refs: Refs)
    requires |name| < TEXT_LIMIT && forall i | 0 <= i < |keys| :: |keys[i]| < TEXT_LIMIT
    ensures ReadTrait(Utf8(name) + Utf8s(keys) + rest, 8 * |keys| + 1, refs).r
         == Result(Done(Trait(name, false, false, keys)), rest)
  {
    hide ReadString, ReadStrings, Utf8, Utf8s;
    Regroup(Utf8(name), Utf8s(keys), rest);
    StringReads(name, Utf8s(keys) + rest, refs);
    StringsRead(keys, rest, ReadString(Utf8(name) + (Utf8s(keys) + rest), refs).refs);
    TraitMarks(|keys|);
  }

  lemma TraitMarks(n: nat)
    ensures var code := 8 * n + 1;
      code % 2 == 1 && code / 2 % 2 == 0 && code / 4 % 2 == 0 && code / 8 == n
  {
  }

  lemma {:induction false} ObjectDecodes(name: Text, props: seq<Prop<Leaf3>>, rest: seq<byte>, refs: Refs)
    requires |name| < TEXT_LIMIT && |props| < PROPS_LIMIT && PropsFit(props)
    ensures DecodeObject(TraitBytes(name, props) + EncodeValues(props) + rest, refs).r
         == Result(Done(Obj(KeptProps(props))), rest)
    decreases props, 1
  {
    hide ReadU29, ReadTrait, TraitBytes, Utf8, Utf8s, EncodeValues, KeptProps, DecodeSealed, DecodeDynamic, KeyList;
    var body := EncodeValues(props) + rest;
    Regroup(TraitBytes(name, props), EncodeValues(props), rest);
    var names := Utf8(name) + Utf8s(KeyList(props)) + body;
    TraitCodeReads(name, props, body);
    TraitCodeValue(|props|);
    TraitReads(name, KeyList(props), body, refs);
    var t := ReadTrait(names, 8 * |props| + 1, refs);
    assert (16 * |props| + 3) / 2 == 8 * |props| + 1;
    SealedDecodes(props, rest, t.refs.(objects := t.refs.objects + [Leaf(Null)]));
  }

  lemma {:induction false} SealedDecodes(props: seq<Prop<Leaf3>>, rest: seq<byte>, refs: Refs)
    requires PropsFit(props)
    ensures DecodeSealed(EncodeValues(props) + rest, refs, KeyList(props)).r
         == Result(Done(KeptProps(props)), rest)
    decreases props, 0
  {
    hide Decode, Encode, Kept, Representable;
    if props == [] {
      assert [] + rest == rest;
    } else {
      var more := EncodeValues(props[1..]);
      Regroup(Encode(props[0].value), more, rest);
      DecodesEncoded(props[0].value, more + rest, refs);
      assert KeyList(props)[1..] == KeyList(props[1..]);
      SealedDecodes(props[1..], rest, Decode(Encode(props[0].value) + (more + rest), refs).refs);
    }
  }

  datatype Batch = Batch(values: seq<Val3>, error: Error, rest: seq<byte>)

  /** Values until an error. */
  function DecodeBatch(s: seq<byte>, refs: Refs): Batch
    decreases |s|
  {
    var v := Decode(s, refs);
    if v.r.out.Failed? then Batch([], v.r.out.error, v.r.rest)
    else
      var more := DecodeBatch(v.r.rest, v.refs);
      more.(values := [v.r.out.value] + more.values)
  }

  /** A batch comes back whole, whatever the tables held before, and then the input is at its end. */
  lemma {:induction false} BatchRoundTrip(os: seq<Ordered<Leaf3>>, refs: Refs)
    requires forall i | 0 <= i < |os| :: Representable(os[i])
    ensures DecodeBatch(EncodeElems(os), refs) == Batch(KeptElems(os), Eof, [])
    decreases |os|
  {
    hide Encode, Kept, Representable;
    if os != [] {
      DecodesEncoded(os[0], EncodeElems(os[1..]), refs);
      BatchRoundTrip(os[1..], Decode(EncodeElems(os), refs).refs);
      hide Decode;
    }
  }

  /** No integer that the wire keeps differently, and no name of a class, here or further down. */
  predicate Plain(o: Ordered<Leaf3>)
    decreases o
  {
    match o
    case OLeaf(leaf) => leaf.Int? ==> 0 <= leaf.n < 0x1000_0000
    case OStr(_) => true
    case OArr(elems) => forall i | 0 <= i < |elems| :: Plain(elems[i])
    case OObj(props) => forall i | 0 <= i < |props| :: Plain(props[i].value)
    case OTyped(_, _) => false
  }

  /** The value itself comes back if and only if its integers are below 2^28 and its objects have
      no class. */
  lemma {:induction false} KeptExactly(o: Ordered<Leaf3>)
    requires Once(o)
    ensures Kept(o) == Erase(o) <==> Plain(o)
    decreases o
  {
    match o
    case OLeaf(_) =>
    case OStr(_) =>
    case OArr(elems) => ElemsKeptExactly(elems);
    case OObj(props) => PropsKeptExactly(props);
    case OTyped(_, _) =>
  }

  lemma {:induction false} ElemsKeptExactly(elems: seq<Ordered<Leaf3>>)
    requires forall i | 0 <= i < |elems| :: Once(elems[i])
    ensures KeptElems(elems) == EraseElems(elems) <==> Plain(OArr(elems))
    decreases elems
  {
    hide Kept, Erase, Once;
    if elems != [] {
      KeptExactly(elems[0]);
      ElemsKeptExactly(elems[1..]);
      assert EraseElems(elems)[1..] == EraseElems(elems[1..]);
      assert KeptElems(elems)[1..] == KeptElems(elems[1..]);
      assert forall i | 0 <= i < |elems| :: elems[i] == if i == 0 then elems[0] else elems[1..][i - 1];
    }
  }

  lemma {:induction false} PropsKeptExactly(props: seq<Prop<Leaf3>>)
    requires Distinct(props) && forall i | 0 <= i < |props| :: Once(props[i].value)
    ensures KeptProps(props) == EraseProps(props) <==> Plain(OObj(props))
    ensures KeptProps(props).Keys == EraseProps(props).Keys
    decreases props
  {
    hide Kept, Erase, Once, Plain;
    if props == [] {
      assert Plain(OObj(props)) by { NothingIsPlain(); }
    } else {
      var p, kept, erased := props[0], KeptProps(props[1..]), EraseProps(props[1..]);
      KeptExactly(p.value);
      PropsKeptExactly(props[1..]);
      ErasePropsKeys(props[1..]);
      assert p.key !in erased;
      SplitMaps(p.key, Kept(p.value), kept, Erase(p.value), erased);
      PlainSplits(props);
    }
  }

  lemma NothingIsPlain()
    ensures Plain(OObj([]))
  {
  }

  lemma PlainSplits(props: seq<Prop<Leaf3>>)
    requires props != []
    ensures Plain(OObj(props)) <==> Plain(props[0].value) && Plain(OObj(props[1..]))
  {
    assert forall i | 0 <= i < |props| :: props[i] == if i == 0 then props[0] else props[1..][i - 1];
  }

  lemma SplitMaps<V>(k: Text, v: V, a: map<Text, V>, w: V, b: map<Text, V>)
    requires k !in a && k !in b
    ensures map[k := v] + a == map[k := w] + b <==> v == w && a == b
  {
    var x, y := map[k := v] + a, map[k := w] + b;
    assert x - {k} == a && y - {k} == b;
    assert x[k] == v && y[k] == w;
  }
}
