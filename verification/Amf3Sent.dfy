/** AMF 3 as any peer may send it: objects with fixed and with dynamic properties, and references back to
    strings and to shapes of objects sent before, written by the AMF 3 specification. */
module Amf3Sent {
  import opened Bytes
  import opened AmfValues
  import opened AmfIO
  import opened Amf3Format

  // ----- What a peer sends ----------------------------------------------------------------------------

  /** A string, or the number of one sent before (section 1.3.2 of the AMF 3 specification). */
  datatype Name = Inline(text: Text) | Earlier(index: nat)

  /** The class, the names of the fixed properties and whether others may follow, or the number of a shape
      sent before (section 3.12). */
  datatype Shape = NewShape(cls: Name, dynamic: bool, names: seq<Name>) | EarlierShape(index: nat)

  datatype Pair = Pair(name: Name, value: Sent)

  /** An object of a dynamic shape is sent open, with its dynamic properties, be it none, and an end. */
  datatype Sent =
    | Undefined | Nothing | False | True
    | Integer(n: nat)
    | Double(bits: Float64)
    | Words(name: Name)
    | Dense(elems: seq<Sent>)
    | Closed(shape: Shape, fixed: seq<Sent>)
    | Open(shape: Shape, fixed: seq<Sent>, dynamic: seq<Pair>)

  function NameBytes(n: Name): seq<byte> {
    match n
    case Inline(text) => Code(2 * |text| + 1) + text
    case Earlier(index) => Code(2 * index)
  }

  function NamesBytes(ns: seq<Name>): seq<byte> {
    if ns == [] then [] else NameBytes(ns[0]) + NamesBytes(ns[1..])
  }

  function ShapeBytes(shape: Shape): seq<byte> {
    match shape
    case NewShape(cls, dynamic, names) =>
      Code(16 * |names| + (if dynamic then 8 else 0) + 3) + (NameBytes(cls) + NamesBytes(names))
    case EarlierShape(index) => Code(4 * index + 1)
  }

  function SentBytes(x: Sent): seq<byte>
    decreases x
  {
    match x
    case Undefined => [0x00]
    case Nothing => [0x01]
    case False => [0x02]
    case True => [0x03]
    case Integer(n) => [0x04] + Code(n)
    case Double(bits) => [0x05] + bits
    case Words(name) => [0x06] + NameBytes(name)
    case Dense(elems) => [0x09] + (Code(2 * |elems| + 1) + ([0x01] + ElemsBytes(elems)))
    case Closed(shape, fixed) => [0x0a] + (ShapeBytes(shape) + ElemsBytes(fixed))
    case Open(shape, fixed, ps) => [0x0a] + (ShapeBytes(shape) + (ElemsBytes(fixed) + PairsBytes(ps)))
  }

  function ElemsBytes(xs: seq<Sent>): seq<byte>
    decreases xs
  {
    if xs == [] then [] else SentBytes(xs[0]) + ElemsBytes(xs[1..])
  }

  /** Names and values, and an empty name. */
  function PairsBytes(ps: seq<Pair>): seq<byte>
    decreases ps
  {
    if ps == [] then [0x01] else PairBytes(ps[0]) + PairsBytes(ps[1..])
  }

  function PairBytes(p: Pair): seq<byte>
    decreases p
  {
    NameBytes(p.name) + SentBytes(p.value)
  }

  // ----- What it means --------------------------------------------------------------------------------

  /** What references may point to: every string sent in full that is not empty, every shape, and what the
      decoder keeps of objects and arrays: of an array itself, once it is complete, of an object nothing. */
  datatype Tables = Tables(strings: seq<Text>, shapes: seq<Known>, objects: seq<Val3>)

  datatype Known = Known(dynamic: bool, names: seq<Text>)

  /** A meaning and the tables after it. */
  datatype Told<+T> = Told(value: T, tables: Tables)

  /** The meaning of what is sent; None if it is too long or refers to what was not sent. */
  function TellName(n: Name, t: Tables): Option<Told<Text>> {
    match n
    case Inline(text) =>
      if |text| >= 0x1000_0000 then None
      else Some(Told(text, if text == [] then t else t.(strings := t.strings + [text])))
    case Earlier(index) =>
      if index >= |t.strings| || index >= 0x1000_0000 then None else Some(Told(t.strings[index], t))
  }

  function TellNames(ns: seq<Name>, t: Tables): Option<Told<seq<Text>>> {
    if ns == [] then Some(Told([], t))
    else
      match TellName(ns[0], t)
      case None => None
      case Some(Told(text, t')) => Behind(text, TellNames(ns[1..], t'))
  }

  function Behind<T>(first: T, more: Option<Told<seq<T>>>): Option<Told<seq<T>>> {
    match more
    case None => None
    case Some(Told(values, t)) => Some(Told([first] + values, t))
  }

  function TellShape(shape: Shape, t: Tables): Option<Told<Known>> {
    match shape
    case EarlierShape(index) =>
      if index >= |t.shapes| || index >= 0x800_0000 then None else Some(Told(t.shapes[index], t))
    case NewShape(cls, dynamic, names) =>
      if |names| >= 0x200_0000 then None
      else
        match TellName(cls, t)
        case None => None
        case Some(Told(_, t1)) =>
          match TellNames(names, t1)
          case None => None
          case Some(Told(texts, t2)) =>
            var known := Known(dynamic, texts);
            Some(Told(known, t2.(shapes := t2.shapes + [known])))
  }

  /** An integer is a number in two's complement, an object its properties, of which a later one replaces
      an earlier one of the same name. */
  function Tell(x: Sent, t: Tables): Option<Told<Val3>>
    decreases x, 0
  {
    match x
    case Undefined => Some(Told(Leaf(Null), t))
    case Nothing => Some(Told(Leaf(Null), t))
    case False => Some(Told(Leaf(Boolean(false)), t))
    case True => Some(Told(Leaf(Boolean(true)), t))
    case Integer(n) =>
      if n >= 0x2000_0000 then None
      else Some(Told(Leaf(Int(if n >= 0x1000_0000 then n - 0x2000_0000 else n)), t))
    case Double(bits) => Some(Told(Leaf(Number(bits)), t))
    case Words(name) =>
      (match TellName(name, t)
       case None => None
       case Some(Told(text, t')) => Some(Told(Str(text), t')))
    case Dense(elems) =>
      if |elems| >= 0x1000_0000 then None
      else
        (match TellElems(elems, t)
         case None => None
         case Some(Told(values, t')) => Some(Told(Arr(values), t'.(objects := t'.objects + [Arr(values)]))))
    case Closed(shape, fixed) =>
      (match TellShape(shape, t)
       case None => None
       case Some(Told(known, t')) =>
         if known.dynamic then None else AsObject(TellFixed(known.names, fixed, Placed(t'))))
    case Open(shape, fixed, ps) =>
      match TellShape(shape, t)
      case None => None
      case Some(Told(known, t1)) =>
        if !known.dynamic then None
        else
          match TellFixed(known.names, fixed, Placed(t1))
          case None => None
          case Some(Told(props, t2)) => AsObject(With(props, TellPairs(ps, t2)))
  }

  /** The place of an object. */
  function Placed(t: Tables): Tables {
    t.(objects := t.objects + [Leaf(Null)])
  }

  function AsObject(props: Option<Told<map<Text, Val3>>>): Option<Told<Val3>> {
    match props
    case None => None
    case Some(Told(m, t)) => Some(Told(Obj(m), t))
  }

  function With(props: map<Text, Val3>, more: Option<Told<map<Text, Val3>>>): Option<Told<map<Text, Val3>>> {
    match more
    case None => None
    case Some(Told(m, t)) => Some(Told(props + m, t))
  }

  function TellElems(xs: seq<Sent>, t: Tables): Option<Told<seq<Val3>>>
    decreases xs, 0
  {
    if xs == [] then Some(Told([], t))
    else
      match Tell(xs[0], t)
      case None => None
      case Some(Told(v, t')) => Behind(v, TellElems(xs[1..], t'))
  }

  /** The first name with the first value, and so on. */
  function TellFixed(names: seq<Text>, xs: seq<Sent>, t: Tables): Option<Told<map<Text, Val3>>>
    decreases xs
  {
    if |names| != |xs| then None
    else if xs == [] then Some(Told(map[], t))
    else
      match Tell(xs[0], t)
      case None => None
      case Some(Told(v, t')) => With(map[names[0] := v], TellFixed(names[1..], xs[1..], t'))
  }

  function TellPairs(ps: seq<Pair>, t: Tables): Option<Told<map<Text, Val3>>>
    decreases ps
  {
    if ps == [] then Some(Told(map[], t))
    else
      match TellPair(ps[0], t)
      case None => None
      case Some(Told(props, t')) => With(props, TellPairs(ps[1..], t'))
  }

  /** A dynamic property has a name. */
  function TellPair(p: Pair, t: Tables): Option<Told<map<Text, Val3>>>
    decreases p
  {
    match TellName(p.name, t)
    case None => None
    case Some(Told(name, t1)) =>
      if name == [] then None
      else
        match Tell(p.value, t1)
        case None => None
        case Some(Told(v, t2)) => Some(Told(map[name := v], t2))
  }

  // ----- The decoder follows --------------------------------------------------------------------------

  /** The decoder's tables hold the strings and shapes that were sent. */
  predicate Agree(refs: Refs, t: Tables) {
    && refs.strings == t.strings && refs.objects == t.objects && |refs.traits| == |t.shapes|
    && forall i | 0 <= i < |t.shapes| :: IsKnown(refs.traits[i], t.shapes[i])
  }

  predicate IsKnown(trait_: Trait, known: Known) {
    !trait_.externalizable && trait_.dynamic == known.dynamic && trait_.properties == known.names
  }

  lemma NameReads(n: Name, rest: seq<byte>, refs: Refs, t: Tables)
    requires Agree(refs, t) && TellName(n, t).Some?
    ensures var d, told := ReadString(NameBytes(n) + rest, refs), TellName(n, t).value;
      d.r == Result(Done(told.value), rest) && Agree(d.refs, told.tables)
  {
    hide ReadU29, Code;
    match n
    case Inline(text) =>
      Regroup(Code(2 * |text| + 1), text, rest);
      CodeReads(2 * |text| + 1, text + rest);
      Unjoin(text, rest);
    case Earlier(index) => CodeReads(2 * index, rest);
  }

  lemma {:induction false} NamesRead(ns: seq<Name>, rest: seq<byte>, refs: Refs, t: Tables)
    requires Agree(refs, t) && TellNames(ns, t).Some?
    ensures var d, told := ReadStrings(NamesBytes(ns) + rest, refs, |ns|), TellNames(ns, t).value;
      d.r == Result(Done(told.value), rest) && Agree(d.refs, told.tables)
    decreases |ns|
  {
    hide ReadString, NameBytes, TellName, Agree;
    if ns == [] {
      assert [] + rest == rest;
    } else {
      var more := NamesBytes(ns[1..]) + rest;
      Regroup(NameBytes(ns[0]), NamesBytes(ns[1..]), rest);
      NameReads(ns[0], more, refs, t);
      NamesRead(ns[1..], rest, ReadString(NameBytes(ns[0]) + more, refs).refs, TellName(ns[0], t).value.tables);
    }
  }

  lemma ShapeReads(shape: Shape, rest: seq<byte>, refs: Refs, t: Tables)
    requires Agree(refs, t) && TellShape(shape, t).Some?
    ensures var s := ShapeBytes(shape) + rest;
      var u := ReadU29(s);
      && u.out.Done? && u.out.value % 2 == 1
      && var d, told := ReadTrait(u.rest, u.out.value / 2, refs), TellShape(shape, t).value;
         d.r.out.Done? && d.r.rest == rest && IsKnown(d.r.out.value, told.value) && Agree(d.refs, told.tables)
  {
    hide ReadU29, Code, NameBytes, NamesBytes, ReadTrait, TellShape, Agree, IsKnown;
    match shape
    case EarlierShape(index) => EarlierShapeReads(index, rest, refs, t);
    case NewShape(cls, dynamic, names) =>
      var code := 16 * |names| + (if dynamic then 8 else 0) + 3;
      NamesAreFew(cls, dynamic, names, t);
      CodeReadsFirst(code, NameBytes(cls) + NamesBytes(names), rest);
      MarksOf(|names|, dynamic);
      NewShapeReads(cls, dynamic, names, code / 2, rest, refs, t);
  }

  lemma NamesAreFew(cls: Name, dynamic: bool, names: seq<Name>, t: Tables)
    requires TellShape(NewShape(cls, dynamic, names), t).Some?
    ensures |names| < 0x200_0000
  {
    hide TellName, TellNames;
  }

  lemma EarlierShapeReads(index: nat, rest: seq<byte>, refs: Refs, t: Tables)
    requires Agree(refs, t) && TellShape(EarlierShape(index), t).Some?
    ensures var u := ReadU29(Code(4 * index + 1) + rest);
      && u == Result(Done(4 * index + 1), rest) && (4 * index + 1) % 2 == 1
      && var d, told := ReadTrait(rest, (4 * index + 1) / 2, refs), TellShape(EarlierShape(index), t).value;
         d.r.out.Done? && d.r.rest == rest && IsKnown(d.r.out.value, told.value) && Agree(d.refs, told.tables)
  {
    hide ReadU29, Code, ReadTrait, IsKnown;
    CodeReads(4 * index + 1, rest);
    Halved(index);
    EarlierTrait(index, rest, refs);
  }

  lemma Halved(index: nat)
    ensures (4 * index + 1) / 2 == 2 * index && (4 * index + 1) % 2 == 1
    ensures 2 * index % 2 == 0 && 2 * index / 2 == index
  {
  }

  lemma EarlierTrait(index: nat, rest: seq<byte>, refs: Refs)
    requires index < |refs.traits|
    ensures ReadTrait(rest, 2 * index, refs) == Read(Result(Done(refs.traits[index]), rest), refs)
  {
    hide ReadString, ReadStrings;
    Halved(index);
  }

  lemma NewShapeReads(cls: Name, dynamic: bool, names: seq<Name>, code: nat, rest: seq<byte>, refs: Refs, t: Tables)
    requires Agree(refs, t) && TellShape(NewShape(cls, dynamic, names), t).Some?
    requires code % 2 == 1 && code / 2 % 2 == 0 && (code / 4 % 2 == 1 <==> dynamic) && code / 8 == |names|
    ensures var d := ReadTrait(NameBytes(cls) + NamesBytes(names) + rest, code, refs);
      var told := TellShape(NewShape(cls, dynamic, names), t).value;
      d.r.out.Done? && d.r.rest == rest && IsKnown(d.r.out.value, told.value) && Agree(d.refs, told.tables)
  {
    hide ReadString, ReadStrings, NameBytes, NamesBytes, TellName, TellNames, Agree;
    Regroup(NameBytes(cls), NamesBytes(names), rest);
    NameReads(cls, NamesBytes(names) + rest, refs, t);
    var d := ReadString(NameBytes(cls) + (NamesBytes(names) + rest), refs);
    var t' := TellName(cls, t).value.tables;
    NamesRead(names, rest, d.refs, t');
    var keys := ReadStrings(NamesBytes(names) + rest, d.refs, |names|);
    AgreeNext(keys.refs, TellNames(names, t').value.tables,
              Trait(d.r.out.value, false, dynamic, keys.r.out.value), Known(dynamic, keys.r.out.value));
  }

  lemma AgreeNext(refs: Refs, t: Tables, trait_: Trait, known: Known)
    requires Agree(refs, t) && IsKnown(trait_, known)
    ensures Agree(refs.(traits := refs.traits + [trait_]), t.(shapes := t.shapes + [known]))
  {
  }

  lemma MarksOf(n: nat, dynamic: bool)
    ensures var code := (16 * n + (if dynamic then 8 else 0) + 3) / 2;
      code % 2 == 1 && code / 2 % 2 == 0 && (code / 4 % 2 == 1 <==> dynamic) && code / 8 == n
  {
    var code := (16 * n + (if dynamic then 8 else 0) + 3) / 2;
    assert code == 8 * n + (if dynamic then 4 else 0) + 1;
    assert code / 2 == 4 * n + (if dynamic then 2 else 0);
    assert code / 4 == 2 * n + (if dynamic then 1 else 0);
  }

  /** Whatever a peer sends by the specification, with references to any strings and shapes sent before,
      is decoded as what it means, leaves what follows, and leaves the tables in agreement. */
  lemma {:induction false} SentReads(x: Sent, rest: seq<byte>, refs: Refs, t: Tables)
    requires Agree(refs, t) && Tell(x, t).Some?
    ensures var d, told := Decode(SentBytes(x) + rest, refs), Tell(x, t).value;
      d.r == Result(Done(told.value), rest) && Agree(d.refs, told.tables)
    decreases x, 1
  {
    hide DecodeArray, DecodeObject, ReadString, ReadU29, ElemsBytes, PairsBytes, ShapeBytes, NameBytes, Code,
         TellName, TellShape, TellElems, TellFixed, TellPairs, Agree;
    match x
    case Undefined => BehindMarker(0x00, [], rest);
    case Nothing => BehindMarker(0x01, [], rest);
    case False => BehindMarker(0x02, [], rest);
    case True => BehindMarker(0x03, [], rest);
    case Integer(n) =>
      BehindMarker(0x04, Code(n), rest);
      CodeReads(n, rest);
    case Double(bits) =>
      BehindMarker(0x05, bits, rest);
      Unjoin(bits, rest);
    case Words(name) =>
      BehindMarker(0x06, NameBytes(name), rest);
      NameReads(name, rest, refs, t);
    case Dense(elems) =>
      BehindMarker(0x09, Code(2 * |elems| + 1) + ([0x01] + ElemsBytes(elems)), rest);
      DenseReads(elems, rest, refs, t);
    case Closed(shape, fixed) =>
      BehindMarker(0x0a, ShapeBytes(shape) + ElemsBytes(fixed), rest);
      ClosedReads(shape, fixed, rest, refs, t);
    case Open(shape, fixed, ps) =>
      BehindMarker(0x0a, ShapeBytes(shape) + (ElemsBytes(fixed) + PairsBytes(ps)), rest);
      OpenReads(shape, fixed, ps, rest, refs, t);
  }

  lemma BehindMarker(marker: byte, s: seq<byte>, rest: seq<byte>)
    ensures ([marker] + s + rest)[0] == marker && ([marker] + s + rest)[1..] == s + rest
    ensures s == [] ==> [marker] + s == [marker] && s + rest == rest
  {
  }

  lemma {:induction false} DenseReads(elems: seq<Sent>, rest: seq<byte>, refs: Refs, t: Tables)
    requires Agree(refs, t) && |elems| < 0x1000_0000 && TellElems(elems, t).Some?
    ensures var d := DecodeArray(Code(2 * |elems| + 1) + ([0x01] + ElemsBytes(elems)) + rest, refs);
      var told := TellElems(elems, t).value;
      && d.r == Result(Done(Arr(told.value)), rest)
      && Agree(d.refs, told.tables.(objects := told.tables.objects + [Arr(told.value)]))
    decreases elems, 2
  {
    hide ReadU29, ReadString, ElemsBytes, Code, DecodeElems, TellElems;
    var body := ElemsBytes(elems);
    CodeReadsFirst(2 * |elems| + 1, [0x01] + body, rest);
    Regroup([0x01], body, rest);
    EmptyReads(body + rest, refs);
    ElemsRead(elems, rest, refs, t);
  }

  /** An empty string is one byte, and goes into no table. */
  lemma EmptyReads(rest: seq<byte>, refs: Refs)
    ensures ReadString([0x01] + rest, refs) == Read(Result(Done([]), rest), refs)
  {
    hide ReadU29From;
    ReadNextByte(0x01, rest, 0, 0);
  }

  lemma {:induction false} ElemsRead(xs: seq<Sent>, rest: seq<byte>, refs: Refs, t: Tables)
    requires Agree(refs, t) && TellElems(xs, t).Some?
    ensures var d, told := DecodeElems(ElemsBytes(xs) + rest, refs, |xs|), TellElems(xs, t).value;
      d.r == Result(Done(told.value), rest) && Agree(d.refs, told.tables)
    decreases xs, 1
  {
    hide Decode, SentBytes, Tell, Agree;
    if xs == [] {
      assert [] + rest == rest;
    } else {
      var more := ElemsBytes(xs[1..]) + rest;
      Regroup(SentBytes(xs[0]), ElemsBytes(xs[1..]), rest);
      SentReads(xs[0], more, refs, t);
      ElemsRead(xs[1..], rest, Decode(SentBytes(xs[0]) + more, refs).refs, Tell(xs[0], t).value.tables);
    }
  }

  lemma {:induction false} FixedReads(names: seq<Text>, xs: seq<Sent>, rest: seq<byte>, refs: Refs, t: Tables)
    requires Agree(refs, t) && TellFixed(names, xs, t).Some?
    ensures var d, told := DecodeSealed(ElemsBytes(xs) + rest, refs, names), TellFixed(names, xs, t).value;
      d.r == Result(Done(told.value), rest) && Agree(d.refs, told.tables)
    decreases xs, 1
  {
    hide Decode, SentBytes, Tell, Agree;
    if xs == [] {
      assert [] + rest == rest;
    } else {
      var more := ElemsBytes(xs[1..]) + rest;
      Regroup(SentBytes(xs[0]), ElemsBytes(xs[1..]), rest);
      SentReads(xs[0], more, refs, t);
      FixedReads(names[1..], xs[1..], rest, Decode(SentBytes(xs[0]) + more, refs).refs, Tell(xs[0], t).value.tables);
    }
  }

  lemma {:induction false} PairsRead(ps: seq<Pair>, rest: seq<byte>, refs: Refs, t: Tables)
    requires Agree(refs, t) && TellPairs(ps, t).Some?
    ensures var d, told := DecodeDynamic(PairsBytes(ps) + rest, refs), TellPairs(ps, t).value;
      d.r == Result(Done(told.value), rest) && Agree(d.refs, told.tables)
    decreases ps, 0
  {
    hide Decode, SentBytes, Tell, TellName, Agree, NameBytes, ReadString;
    if ps == [] {
      EmptyReads(rest, refs);
    } else {
      var more := PairsBytes(ps[1..]) + rest;
      Regroup(PairBytes(ps[0]), PairsBytes(ps[1..]), rest);
      var d, v := PairReads(ps[0], more, refs, t);
      PairsRead(ps[1..], rest, v.refs, TellPair(ps[0], t).value.tables);
    }
  }

  /** The name and the value of a dynamic property, one behind the other. */
  lemma {:induction false} PairReads(p: Pair, rest: seq<byte>, refs: Refs, t: Tables)
      returns (d: Read<Text>, v: Read<Val3>)
    requires Agree(refs, t) && TellPair(p, t).Some?
    ensures d == ReadString(PairBytes(p) + rest, refs) && d.r.out.Done? && d.r.out.value != []
    ensures v == Decode(d.r.rest, d.refs) && v.r.out.Done? && v.r.rest == rest
    ensures TellPair(p, t).value.value == map[d.r.out.value := v.r.out.value]
    ensures Agree(v.refs, TellPair(p, t).value.tables)
    decreases p, 0
  {
    hide Decode, SentBytes, Tell, TellName, Agree, NameBytes, ReadString;
    Regroup(NameBytes(p.name), SentBytes(p.value), rest);
    NameReads(p.name, SentBytes(p.value) + rest, refs, t);
    d := ReadString(PairBytes(p) + rest, refs);
    SentReads(p.value, rest, d.refs, TellName(p.name, t).value.tables);
    v := Decode(d.r.rest, d.refs);
  }

  lemma AgreeBoth(refs: Refs, v: Val3, t: Tables)
    ensures Agree(refs, t) ==> Agree(refs.(objects := refs.objects + [v]), t.(objects := t.objects + [v]))
  {
  }

  lemma {:induction false} ClosedReads(shape: Shape, fixed: seq<Sent>, rest: seq<byte>, refs: Refs, t: Tables)
    requires Agree(refs, t) && Tell(Closed(shape, fixed), t).Some?
    ensures var d := DecodeObject(ShapeBytes(shape) + ElemsBytes(fixed) + rest, refs);
      var told := Tell(Closed(shape, fixed), t).value;
      d.r == Result(Done(told.value), rest) && Agree(d.refs, told.tables)
    decreases fixed, 2
  {
    hide ReadU29, ReadTrait, ShapeBytes, ElemsBytes, DecodeSealed, DecodeDynamic, TellShape, TellFixed, Agree;
    var body := ElemsBytes(fixed) + rest;
    Regroup(ShapeBytes(shape), ElemsBytes(fixed), rest);
    ShapeReads(shape, body, refs, t);
    var u := ReadU29(ShapeBytes(shape) + body);
    var d, told := ReadTrait(u.rest, u.out.value / 2, refs), TellShape(shape, t).value;
    AgreeBoth(d.refs, Leaf(Null), told.tables);
    FixedReads(told.value.names, fixed, rest, d.refs.(objects := d.refs.objects + [Leaf(Null)]), Placed(told.tables));
  }

  lemma {:induction false} OpenReads(shape: Shape, fixed: seq<Sent>, ps: seq<Pair>, rest: seq<byte>, refs: Refs, t: Tables)
    requires Agree(refs, t) && Tell(Open(shape, fixed, ps), t).Some?
    ensures var d := DecodeObject(ShapeBytes(shape) + (ElemsBytes(fixed) + PairsBytes(ps)) + rest, refs);
      var told := Tell(Open(shape, fixed, ps), t).value;
      d.r == Result(Done(told.value), rest) && Agree(d.refs, told.tables)
    decreases Open(shape, fixed, ps), 0
  {
    hide ReadU29, ReadTrait, ShapeBytes, ElemsBytes, PairsBytes, DecodeSealed, DecodeDynamic, TellShape, TellFixed,
         TellPairs, Agree;
    var end := PairsBytes(ps) + rest;
    Regroup(ShapeBytes(shape), ElemsBytes(fixed) + PairsBytes(ps), rest);
    Regroup(ElemsBytes(fixed), PairsBytes(ps), rest);
    ShapeReads(shape, ElemsBytes(fixed) + end, refs, t);
    var u := ReadU29(ShapeBytes(shape) + (ElemsBytes(fixed) + end));
    var d, told := ReadTrait(u.rest, u.out.value / 2, refs), TellShape(shape, t).value;
    var refs' := d.refs.(objects := d.refs.objects + [Leaf(Null)]);
    AgreeBoth(d.refs, Leaf(Null), told.tables);
    FixedReads(told.value.names, fixed, end, refs', Placed(told.tables));
    var sealed := DecodeSealed(ElemsBytes(fixed) + end, refs', told.value.names);
    PairsRead(ps, rest, sealed.refs, TellFixed(told.value.names, fixed, Placed(told.tables)).value.tables);
  }

  /** A reference to an object or array goes to half its number, so that only the first one sent can be
      referred to; and there the decoder keeps arrays, for an object nothing. */
  lemma ReferencesAreHalved(k: nat, rest: seq<byte>, refs: Refs)
    requires k < 0x1000_0000
    ensures Decode([0x0a] + Code(2 * k) + rest, refs).r ==
              Result(if k / 2 < |refs.objects| then Done(refs.objects[k / 2]) else Failed(Panic), rest)
    ensures Decode([0x09] + Code(2 * k) + rest, refs).r ==
              Result(if k / 2 >= |refs.objects| then Failed(Panic)
                     else if refs.objects[k / 2].Arr? then Done(refs.objects[k / 2]) else Failed(Bad), rest)
  {
    hide ReadU29, Code, ReadTrait, ReadString, DecodeElems;
    var code := Code(2 * k);
    CodeReads(2 * k, rest);
    assert ([0x0a] + code + rest)[1..] == code + rest && ([0x09] + code + rest)[1..] == code + rest;
  }

  /** Other markers and arrays with named elements are refused; references to strings or shapes that were
      not sent are a panic. */
  lemma RefusesOthers(marker: byte, n: nat, key: Text, rest: seq<byte>, refs: Refs)
    requires n < 0x400_0000 && 0 < |key| < 0x1000_0000
    ensures marker > 0x0c ==> Decode([marker] + rest, refs).r == Result(Failed(Bad), rest)
    ensures Decode([0x09] + (Code(2 * n + 1) + NameBytes(Inline(key))) + rest, refs).r == Result(Failed(Bad), rest)
    ensures n >= |refs.strings| ==> Decode([0x06] + Code(2 * n) + rest, refs).r == Result(Failed(Panic), rest)
    ensures n >= |refs.traits| ==> Decode([0x0a] + Code(4 * n + 1) + rest, refs).r == Result(Failed(Panic), rest)
  {
    hide ReadU29, Code, DecodeElems, NameBytes;
    BehindMarker(marker, [], rest);
    BehindMarker(0x09, Code(2 * n + 1) + NameBytes(Inline(key)), rest);
    BehindMarker(0x06, Code(2 * n), rest);
    BehindMarker(0x0a, Code(4 * n + 1), rest);
    NamedElement(n, key, rest, refs);
    CodeReads(2 * n, rest);
    CodeReads(4 * n + 1, rest);
    Halved(n);
  }

  lemma NamedElement(n: nat, key: Text, rest: seq<byte>, refs: Refs)
    requires n < 0x400_0000 && 0 < |key| < 0x1000_0000
    ensures DecodeArray(Code(2 * n + 1) + NameBytes(Inline(key)) + rest, refs).r == Result(Failed(Bad), rest)
  {
    hide ReadU29, Code, DecodeElems, NameBytes, ReadString;
    CodeReadsFirst(2 * n + 1, NameBytes(Inline(key)), rest);
    NameReads(Inline(key), rest, Refs(refs.strings, refs.objects, []), Tables(refs.strings, [], refs.objects));
    StringIgnoresShapes(NameBytes(Inline(key)) + rest, refs);
  }

  lemma StringIgnoresShapes(s: seq<byte>, refs: Refs)
    ensures ReadString(s, refs).r == ReadString(s, Refs(refs.strings, refs.objects, [])).r
  {
    hide ReadU29;
  }

  /** A batch is decoded as what it means, from the start of a stream on. */
  lemma {:induction false} BatchReads(xs: seq<Sent>, refs: Refs, t: Tables)
    requires Agree(refs, t) && TellElems(xs, t).Some?
    ensures DecodeBatch(ElemsBytes(xs), refs) == Batch(TellElems(xs, t).value.value, Eof, [])
    decreases |xs|
  {
    hide SentBytes, Tell, Agree;
    if xs == [] {
      assert ElemsBytes(xs) == [];
    } else {
      SentReads(xs[0], ElemsBytes(xs[1..]), refs, t);
      BatchReads(xs[1..], Decode(ElemsBytes(xs), refs).refs, Tell(xs[0], t).value.tables);
      hide Decode;
    }
  }

  // ----- The encoder writes a part of it --------------------------------------------------------------

  /** Everything in full, and objects with fixed properties only; integers beyond 29 bits as doubles. */
  function SentOf(o: Ordered<Leaf3>): Sent
    decreases o
  {
    match o
    case OLeaf(Null) => Nothing
    case OLeaf(Boolean(b)) => if b then True else False
    case OLeaf(Int(n)) => if 0 <= n < 0x2000_0000 then Integer(n) else Double(FloatBits(n))
    case OLeaf(Number(bits)) => Double(bits)
    case OStr(text) => Words(Inline(text))
    case OArr(elems) => Dense(ElemsOf(elems))
    case OObj(props) => Closed(NewShape(Inline([]), false, NamesOf(KeyList(props))), ValuesOf(props))
    case OTyped(name, props) => Closed(NewShape(Inline(name), false, NamesOf(KeyList(props))), ValuesOf(props))
  }

  function ElemsOf(elems: seq<Ordered<Leaf3>>): (xs: seq<Sent>)
    ensures |xs| == |elems|
    decreases elems
  {
    if elems == [] then [] else [SentOf(elems[0])] + ElemsOf(elems[1..])
  }

  function ValuesOf(props: seq<Prop<Leaf3>>): seq<Sent>
    decreases props
  {
    if props == [] then [] else [SentOf(props[0].value)] + ValuesOf(props[1..])
  }

  function NamesOf(texts: seq<Text>): (ns: seq<Name>)
    ensures |ns| == |texts|
  {
    seq(|texts|, i requires 0 <= i < |texts| => Inline(texts[i]))
  }

  lemma NameEncodes(text: Text)
    requires |text| < 0x1000_0000
    ensures Utf8(text) == NameBytes(Inline(text))
  {
    hide Code;
  }

  lemma {:induction false} NamesEncode(texts: seq<Text>)
    requires forall i | 0 <= i < |texts| :: |texts[i]| < 0x1000_0000
    ensures Utf8s(texts) == NamesBytes(NamesOf(texts))
  {
    hide Utf8, NameBytes;
    if texts != [] {
      NameEncodes(texts[0]);
      NamesEncode(texts[1..]);
      assert NamesOf(texts)[1..] == NamesOf(texts[1..]);
    }
  }

  lemma EmptyName()
    ensures Utf8([]) == [0x01] == NameBytes(Inline([]))
  {
    assert [0x01] + [] == [0x01];
  }

  /** Byte by byte, the encoder writes what the specification says. */
  lemma {:induction false} EncodesAsSent(o: Ordered<Leaf3>)
    requires Representable(o)
    ensures Encode(o) == SentBytes(SentOf(o))
    decreases o, 1
  {
    hide Code, U29, Utf8, NameBytes, EncodeElems, EncodeValues, ElemsBytes, TraitBytes, ShapeBytes, FloatBits, PropsFit,
         KeyList, NamesOf;
    match o
    case OLeaf(leaf) => LeafEncodes(leaf);
    case OStr(text) => NameEncodes(text);
    case OArr(elems) =>
      EmptyName();
      ElemsEncode(elems);
    case OObj(props) => ObjectEncodes([], props);
    case OTyped(name, props) => ObjectEncodes(name, props);
  }

  lemma LeafEncodes(leaf: Leaf3)
    ensures Encode(OLeaf(leaf)) == SentBytes(SentOf(OLeaf(leaf)))
  {
    hide U29, FloatBits;
  }

  lemma {:induction false} ElemsEncode(elems: seq<Ordered<Leaf3>>)
    requires forall i | 0 <= i < |elems| :: Representable(elems[i])
    ensures EncodeElems(elems) == ElemsBytes(ElemsOf(elems))
    decreases elems, 0
  {
    hide Encode, SentBytes, Representable, SentOf;
    if elems != [] {
      EncodesAsSent(elems[0]);
      ElemsEncode(elems[1..]);
      assert ElemsOf(elems)[1..] == ElemsOf(elems[1..]);
    }
  }

  lemma {:induction false} ObjectEncodes(name: Text, props: seq<Prop<Leaf3>>)
    requires |name| < 0x1000_0000 && |props| < 0x200_0000 && PropsFit(props)
    ensures TraitBytes(name, props) + EncodeValues(props)
         == ShapeBytes(NewShape(Inline(name), false, NamesOf(KeyList(props)))) + ElemsBytes(ValuesOf(props))
    decreases props, 1
  {
    hide Code, Utf8, NameBytes, EncodeValues, ElemsBytes, Utf8s, NamesBytes, Representable, KeyList, NamesOf, ValuesOf;
    TraitCodeValue(|props|);
    KeysFit(props);
    NameEncodes(name);
    NamesEncode(KeyList(props));
    ValuesEncode(props);
  }

  lemma {:induction false} KeysFit(props: seq<Prop<Leaf3>>)
    requires PropsFit(props)
    ensures |KeyList(props)| == |props| && forall i | 0 <= i < |props| :: |KeyList(props)[i]| < 0x1000_0000
  {
    hide Representable;
    if props != [] {
      KeysFit(props[1..]);
    }
  }

  lemma {:induction false} ValuesEncode(props: seq<Prop<Leaf3>>)
    requires PropsFit(props)
    ensures EncodeValues(props) == ElemsBytes(ValuesOf(props))
    decreases props, 0
  {
    hide Encode, SentBytes, Representable, SentOf;
    if props != [] {
      EncodesAsSent(props[0].value);
      ValuesEncode(props[1..]);
      assert ValuesOf(props)[1..] == ValuesOf(props[1..]);
    }
  }
}
