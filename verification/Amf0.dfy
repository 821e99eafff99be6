/** The AMF 0 encoder and decoder: they append to one buffer and consume another. */
module Amf0 {
  import opened Bytes
  import opened Buffers
  import opened AmfValues
  import opened AmfIO
  import opened Amf0Format

  // ----- Encoder --------------------------------------------------------------------------------

  /** There is no typed object here or further down. */
  predicate Encodable(v: Value<Leaf0>)
    decreases v
  {
    match v
    case Leaf(_) => true
    case Str(_) => true
    case Arr(elems) => forall i | 0 <= i < |elems| :: Encodable(elems[i])
    case Obj(props) => forall k | k in props :: Encodable(props[k])
    case Typed(_, _) => false
  }

  /** No value that fits its fields is refused, but every typed object is. */
  lemma {:induction false} FittingIsEncodable(v: Value<Leaf0>)
    ensures Fits(v) ==> Encodable(v)
    ensures v.Typed? ==> !Encodable(v)
    decreases v
  {
    match v
    case Arr(elems) =>
      forall i | 0 <= i < |elems| ensures Fits(elems[i]) ==> Encodable(elems[i]) {
        FittingIsEncodable(elems[i]);
      }
    case Obj(props) =>
      forall k | k in props ensures Fits(props[k]) ==> Encodable(props[k]) {
        FittingIsEncodable(props[k]);
      }
    case _ =>
  }

  method EncodeAmf0Number(w: Buffer, bits: Float64, encodeMarker: bool) returns (n: nat)
    modifies w
    ensures w.data == old(w.data) + (Marker(encodeMarker, NUMBER) + bits)
    ensures n == |Marker(encodeMarker, NUMBER) + bits|
  {
    n := WriteMarked(w, encodeMarker, NUMBER, bits);
  }

  method EncodeAmf0Boolean(w: Buffer, b: bool, encodeMarker: bool) returns (n: nat)
    modifies w
    ensures w.data == old(w.data) + (Marker(encodeMarker, BOOLEAN) + [if b then 1 else 0])
    ensures n == |Marker(encodeMarker, BOOLEAN)| + 1
  {
    n := WriteMarked(w, encodeMarker, BOOLEAN, [if b then 1 else 0]);
  }

  method EncodeAmf0Null(w: Buffer, encodeMarker: bool) returns (n: nat)
    modifies w
    ensures w.data == old(w.data) + Marker(encodeMarker, NULL) && n == |Marker(encodeMarker, NULL)|
  {
    n := WriteMarked(w, encodeMarker, NULL, []);
    assert Marker(encodeMarker, NULL) + [] == Marker(encodeMarker, NULL);
  }

  method EncodeAmf0String(w: Buffer, text: Text, encodeMarker: bool) returns (n: nat)
    modifies w
    ensures w.data == old(w.data) + (Marker(encodeMarker, STRING) + ShortString(text))
    ensures n == |Marker(encodeMarker, STRING) + ShortString(text)|
  {
    hide BE;
    var m := WriteMarked(w, encodeMarker, STRING, BE(|text|, 2));
    w.Write(text);
    n := m + |text|;
    Regroup(Marker(encodeMarker, STRING), BE(|text|, 2), text);
    Regroup(old(w.data), Marker(encodeMarker, STRING) + BE(|text|, 2), text);
  }

  method EncodeAmf0LongString(w: Buffer, text: Text, encodeMarker: bool) returns (n: nat)
    modifies w
    ensures w.data == old(w.data) + (Marker(encodeMarker, LONG_STRING) + LongString(text))
    ensures n == |Marker(encodeMarker, LONG_STRING) + LongString(text)|
  {
    hide BE;
    var m := WriteMarked(w, encodeMarker, LONG_STRING, BE(|text|, 4));
    w.Write(text);
    n := m + |text|;
    Regroup(Marker(encodeMarker, LONG_STRING), BE(|text|, 4), text);
    Regroup(old(w.data), Marker(encodeMarker, LONG_STRING) + BE(|text|, 4), text);
  }

  /** Appends the value in some order of its properties, each of them once, and counts exactly the
      bytes it wrote. Only a typed object is refused, after what stands before it was written. */
  method EncodeAmf0(w: Buffer, val: Value<Leaf0>) returns (ok: bool, n: nat, ghost o: Ordered<Leaf0>)
    modifies w
    ensures ok == Encodable(val) && Extends(old(w.data), w.data)
    ensures ok ==> Erase(o) == val && Once(o)
    ensures ok ==> w.data == old(w.data) + Encode(o) && n == |Encode(o)|
    decreases val, 1
  {
    hide ShortString, LongString, EncodeElems, EncodeProps, EraseElems, EraseProps;
    ok, n, o := true, 0, OLeaf(Null);
    match val
    case Leaf(Null) =>
      n := EncodeAmf0Null(w, true);
    case Leaf(Boolean(b)) =>
      n := EncodeAmf0Boolean(w, b, true);
      o := OLeaf(Boolean(b));
      assert [BOOLEAN] + [if b then 1 else 0] == Encode(o);
    case Leaf(Number(bits)) =>
      n := EncodeAmf0Number(w, bits, true);
      o := OLeaf(Number(bits));
    case Str(text) =>
      o := OStr(text);
      if |text| <= STRING_MAX {
        n := EncodeAmf0String(w, text, true);
      } else {
        n := EncodeAmf0LongString(w, text, true);
      }
    case Arr(elems) =>
      ghost var os;
      ok, n, os := EncodeAmf0StrictArray(w, elems, true);
      o := OArr(os);
    case Obj(props) =>
      ghost var os;
      ok, n, os := EncodeAmf0Object(w, val, true);
      o := OObj(os);
    case Typed(_, _) =>
      ok := false;
  }

  method EncodeAmf0StrictArray(w: Buffer, elems: seq<Value<Leaf0>>, encodeMarker: bool)
      returns (ok: bool, n: nat, ghost os: seq<Ordered<Leaf0>>)
    modifies w
    ensures ok == (forall i | 0 <= i < |elems| :: Encodable(elems[i])) && Extends(old(w.data), w.data)
    ensures ok ==> EraseElems(os) == elems && |os| == |elems| && forall i | 0 <= i < |os| :: Once(os[i])
    ensures ok ==> var s := Marker(encodeMarker, STRICT_ARRAY) + (BE(|elems|, 4) + EncodeElems(os));
      w.data == old(w.data) + s && n == |s|
    decreases elems
  {
    hide Encode, Encodable, Once, BE, Erase;
    ghost var head := Marker(encodeMarker, STRICT_ARRAY) + BE(|elems|, 4);
    n := WriteMarked(w, encodeMarker, STRICT_ARRAY, BE(|elems|, 4));
    os := [];
    assert head + EncodeElems(os) == head;
    for i := 0 to |elems|
      invariant |os| == i && EraseElems(os) == elems[..i]
      invariant forall k | 0 <= k < i :: Once(os[k]) && Encodable(elems[k])
      invariant w.data == old(w.data) + (head + EncodeElems(os))
      invariant n == |head + EncodeElems(os)|
    {
      ghost var before := EncodeElems(os);
      var good, m, o := EncodeAmf0(w, elems[i]);
      if !good {
        assert Extends(old(w.data), w.data);
        return false, n, os;
      }
      EncodeElemsAppend(os, o);
      EraseElemsAppend(os, o);
      Regroup(head, before, Encode(o));
      Regroup(old(w.data), head + before, Encode(o));
      n := n + m;
      os := os + [o];
    }
    ok := true;
    Regroup(Marker(encodeMarker, STRICT_ARRAY), BE(|elems|, 4), EncodeElems(os));
  }

  lemma {:induction false} EncodeElemsAppend(os: seq<Ordered<Leaf0>>, o: Ordered<Leaf0>)
    ensures EncodeElems(os + [o]) == EncodeElems(os) + Encode(o)
  {
    hide Encode;
    if os == [] {
      assert os + [o] == [o] && [o][1..] == [];
    } else {
      assert (os + [o])[1..] == os[1..] + [o];
      EncodeElemsAppend(os[1..], o);
      Regroup(Encode(os[0]), EncodeElems(os[1..]), Encode(o));
    }
  }

  /** `written` is what the properties are written as, whichever come after them. */
  ghost predicate PropsSoFar(props: seq<Prop<Leaf0>>, written: seq<byte>) {
    forall tail :: written + EncodeProps(tail) == EncodeProps(props + tail)
  }

  lemma PropsStart()
    ensures PropsSoFar([], [])
  {
    forall tail: seq<Prop<Leaf0>>
      ensures [] + EncodeProps(tail) == EncodeProps([] + tail)
    {
      assert [] + tail == tail;
      assert [] + EncodeProps(tail) == EncodeProps(tail);
    }
  }

  lemma PropsNext(props: seq<Prop<Leaf0>>, written: seq<byte>, p: Prop<Leaf0>)
    requires PropsSoFar(props, written)
    ensures PropsSoFar(props + [p], written + ShortString(p.key) + Encode(p.value))
  {
    hide Encode, ShortString;
    var key, value := ShortString(p.key), Encode(p.value);
    forall tail
      ensures written + key + value + EncodeProps(tail) == EncodeProps(props + [p] + tail)
    {
      Regroup(props, [p], tail);
      assert ([p] + tail)[1..] == tail;
      assert EncodeProps([p] + tail) == key + (value + EncodeProps(tail));
      Regroup(written, key, value + EncodeProps(tail));
      Regroup(written + key, value, EncodeProps(tail));
    }
  }

  lemma PropsEnd(props: seq<Prop<Leaf0>>, written: seq<byte>)
    requires PropsSoFar(props, written)
    ensures written + [0, 0, OBJECT_END] == EncodeProps(props)
  {
    assert props + [] == props;
    assert EncodeProps([]) == [0, 0, OBJECT_END];
  }

  /** The properties not in `todo` are written, each once. */
  ghost predicate Written(props: map<Text, Value<Leaf0>>, todo: set<Text>, os: seq<Prop<Leaf0>>) {
    && EraseProps(os) == (map k | k in props && k !in todo :: props[k])
    && Once(OObj(os))
    && forall k | k in props && k !in todo :: Encodable(props[k])
  }

  lemma WrittenNext(props: map<Text, Value<Leaf0>>, todo: set<Text>, os: seq<Prop<Leaf0>>, p: Prop<Leaf0>)
    requires todo <= props.Keys && p.key in todo && Written(props, todo, os)
    requires Erase(p.value) == props[p.key] && Once(p.value) && Encodable(props[p.key])
    ensures Written(props, todo - {p.key}, os + [p])
  {
    hide Erase, EraseProps, Encodable;
    ErasePropsAppend(os, p);
    ErasePropsKeys(os);
    assert p.key !in Keys(os);
    assert forall i | 0 <= i < |os| :: os[i].key in Keys(os);
  }

  /** The properties are taken in any order, as the language's maps are. */
  method EncodeAmf0Object(w: Buffer, val: Value<Leaf0>, encodeMarker: bool)
      returns (ok: bool, n: nat, ghost os: seq<Prop<Leaf0>>)
    requires val.Obj?
    modifies w
    ensures ok == Encodable(val) && Extends(old(w.data), w.data)
    ensures ok ==> EraseProps(os) == val.props && Once(OObj(os))
    ensures ok ==> var s := Marker(encodeMarker, OBJECT) + EncodeProps(os);
      w.data == old(w.data) + s && n == |s|
    decreases val, 0
  {
    hide Encode, ShortString, EncodeProps, Erase, EraseProps, PropsSoFar, Written, Once, Marker, Extends;
    n := WriteMarked(w, encodeMarker, OBJECT, []);
    ghost var head, written := Marker(encodeMarker, OBJECT), [];
    os := [];
    var todo := val.props.Keys;
    ObjectStart(val.props, head);
    while todo != {}
      invariant todo <= val.props.Keys && Written(val.props, todo, os)
      invariant PropsSoFar(os, written)
      invariant w.data == old(w.data) + (head + written) && n == |head + written|
    {
      var k :| k in todo;
      ghost var o;
      var m;
      ok, m, o := EncodeProperty(w, k, val.props[k]);
      if !ok {
        ExtendsFurther(old(w.data), head + written, w.data);
        NotEncodable(val, k);
        return;
      }
      n := n + m;
      PropsNext(os, written, Prop(k, o));
      WrittenNext(val.props, todo, os, Prop(k, o));
      Regroup(written, ShortString(k), Encode(o));
      Regroup(head, written, ShortString(k) + Encode(o));
      Regroup(old(w.data), head + written, ShortString(k) + Encode(o));
      written := written + ShortString(k) + Encode(o);
      os := os + [Prop(k, o)];
      todo := todo - {k};
    }
    var m := EncodeEnd(w);
    n := n + m;
    ok := true;
    PropsEnd(os, written);
    ObjectEnd(val, os);
    Regroup(head, written, [0, 0, OBJECT_END]);
    Regroup(old(w.data), head + written, [0, 0, OBJECT_END]);
    ExtendsFurther(old(w.data), head + written + [0, 0, OBJECT_END], w.data);
  }

  /** An associative array: the number of properties, then an object without its marker. */
  method EncodeAmf0EcmaArray(w: Buffer, val: Value<Leaf0>, encodeMarker: bool)
      returns (ok: bool, n: nat, ghost os: seq<Prop<Leaf0>>)
    requires val.Obj?
    modifies w
    ensures ok == Encodable(val)
    ensures ok ==> EraseProps(os) == val.props && Once(OObj(os))
    ensures ok ==> var s := Marker(encodeMarker, ECMA_ARRAY) + (BE(|val.props|, 4) + EncodeProps(os));
      w.data == old(w.data) + s && n == |s|
  {
    hide BE, EncodeProps, EraseProps, Once, Encodable;
    n := WriteMarked(w, encodeMarker, ECMA_ARRAY, BE(|val.props|, 4));
    ghost var head := Marker(encodeMarker, ECMA_ARRAY) + BE(|val.props|, 4);
    var m;
    ok, m, os := EncodeAmf0Object(w, val, false);
    n := n + m;
    if ok {
      assert Marker(false, OBJECT) + EncodeProps(os) == EncodeProps(os);
      Regroup(old(w.data), head, EncodeProps(os));
      Regroup(Marker(encodeMarker, ECMA_ARRAY), BE(|val.props|, 4), EncodeProps(os));
    }
  }

  method EncodeProperty(w: Buffer, k: Text, v: Value<Leaf0>) returns (ok: bool, n: nat, ghost o: Ordered<Leaf0>)
    modifies w
    ensures ok == Encodable(v) && Extends(old(w.data), w.data)
    ensures ok ==> Erase(o) == v && Once(o)
    ensures ok ==> w.data == old(w.data) + (ShortString(k) + Encode(o)) && n == |ShortString(k) + Encode(o)|
    decreases v, 2
  {
    hide Encode, ShortString, Erase, Encodable, Once;
    n := EncodeAmf0String(w, k, false);
    assert [] + ShortString(k) == ShortString(k);
    ghost var middle := w.data;
    var m;
    ok, m, o := EncodeAmf0(w, v);
    n := n + m;
    if ok {
      Regroup(old(w.data), ShortString(k), Encode(o));
    }
  }

  method EncodeEnd(w: Buffer) returns (n: nat)
    modifies w
    ensures w.data == old(w.data) + [0, 0, OBJECT_END] && n == 3
  {
    assert BE(0, 1) == BE(0, 0) + [0] == [0];
    assert BE(0, 2) == BE(0, 1) + [0] == [0, 0];
    assert Marker(false, STRING) + ShortString([]) == [0, 0];
    n := EncodeAmf0String(w, [], false);
    w.Write([OBJECT_END]);
    n := n + 1;
  }

  lemma ObjectStart(props: map<Text, Value<Leaf0>>, head: seq<byte>)
    ensures Written(props, props.Keys, []) && PropsSoFar([], []) && head + [] == head
  {
    PropsStart();
  }

  lemma NotEncodable(val: Value<Leaf0>, k: Text)
    requires val.Obj? && k in val.props && !Encodable(val.props[k])
    ensures !Encodable(val)
  {
  }

  lemma ObjectEnd(val: Value<Leaf0>, os: seq<Prop<Leaf0>>)
    requires val.Obj? && Written(val.props, {}, os)
    ensures EraseProps(os) == val.props && Once(OObj(os)) && Encodable(val)
  {
    assert val.props == map k | k in val.props && k !in {} :: val.props[k];
  }

  /** The values one behind the other, until one is refused. Reports no count. */
  method EncodeBatchAmf0(w: Buffer, vals: seq<Value<Leaf0>>) returns (ok: bool, ghost os: seq<Ordered<Leaf0>>)
    modifies w
    ensures ok == forall i | 0 <= i < |vals| :: Encodable(vals[i])
    ensures |os| <= |vals| && EraseElems(os) == vals[..|os|] && forall i | 0 <= i < |os| :: Once(os[i])
    ensures Extends(old(w.data) + EncodeBatch(os), w.data)
    ensures if ok then |os| == |vals| && w.data == old(w.data) + EncodeBatch(os)
            else |os| < |vals| && !Encodable(vals[|os|])
  {
    hide Encode, Encodable, Once, Erase;
    os := [];
    assert w.data + [] == w.data;
    for i := 0 to |vals|
      invariant |os| == i && EraseElems(os) == vals[..i]
      invariant forall k | 0 <= k < i :: Encodable(vals[k]) && Once(os[k])
      invariant w.data == old(w.data) + EncodeElems(os)
    {
      var good, _, o := EncodeAmf0(w, vals[i]);
      if !good {
        return false, os;
      }
      EncodeElemsAppend(os, o);
      EraseElemsAppend(os, o);
      Regroup(old(w.data), EncodeElems(os), Encode(o));
      os := os + [o];
    }
    ok := true;
  }

  // ----- Decoder --------------------------------------------------------------------------------

  method DecodeText(r: Buffer, width: nat) returns (out: Outcome<Text>)
    requires width > 0
    modifies r
    ensures Result(out, r.data) == ReadText(old(r.data), width)
  {
    hide Take;
    var len := ReadFull(r, width);
    if len.Failed? {
      return Failed(Bad);
    }
    out := ReadBytes(r, FromBE(len.value));
    if out.Failed? {
      out := Failed(Bad);
    }
  }

  method DecodeAmf0Number(r: Buffer) returns (out: Outcome<Value<Leaf0>>)
    modifies r
    ensures Result(out, r.data) == ReadNumber(old(r.data))
  {
    hide Take;
    var bits := ReadFull(r, 8);
    out := if bits.Failed? then Failed(Bad) else Done(Leaf(Number(bits.value)));
  }

  method DecodeAmf0Boolean(r: Buffer) returns (out: Outcome<Value<Leaf0>>)
    modifies r
    ensures Result(out, r.data) == ReadBoolean(old(r.data))
  {
    var b := ReadByte(r);
    if b.Failed? {
      return Failed(b.error);
    }
    if b.value == 0 {
      out := Done(Leaf(Boolean(false)));
    } else if b.value == 1 {
      out := Done(Leaf(Boolean(true)));
    } else {
      out := Failed(Bad);
    }
  }

  method DecodeAmf0Date(r: Buffer) returns (out: Outcome<Value<Leaf0>>)
    modifies r
    ensures Result(out, r.data) == ReadDate(old(r.data))
  {
    hide Take, ReadNumber;
    out := DecodeAmf0Number(r);
    if out.Done? {
      var zone := ReadBytes(r, 2);
      if zone.Failed? {
        out := Failed(Bad);
      }
    }
  }

  method DecodeAmf0String(r: Buffer) returns (out: Outcome<Value<Leaf0>>)
    modifies r
    ensures Result(out, r.data) == AsStr(ReadText(old(r.data), 2))
  {
    var text := DecodeText(r, 2);
    out := if text.Done? then Done(Str(text.value)) else Failed(text.error);
  }

  method DecodeAmf0LongString(r: Buffer) returns (out: Outcome<Value<Leaf0>>)
    modifies r
    ensures Result(out, r.data) == AsStr(ReadText(old(r.data), 4))
  {
    var text := DecodeText(r, 4);
    out := if text.Done? then Done(Str(text.value)) else Failed(text.error);
  }

  /** The decoder. It ends on every input: what is left to read gets shorter. */
  method DecodeAmf0(r: Buffer) returns (out: Outcome<Value<Leaf0>>)
    modifies r
    ensures Result(out, r.data) == Decode(old(r.data))
    decreases |r.data|, 0
  {
    hide DecodeProps, DecodeEcma, DecodeStrict, DecodeTyped, ReadText, ReadNumber, ReadDate;
    var marker := ReadByte(r);
    if marker.Failed? {
      return Failed(marker.error);
    }
    match marker.value
    case 0x00 => out := DecodeAmf0Number(r);
    case 0x01 => out := DecodeAmf0Boolean(r);
    case 0x02 => out := DecodeAmf0String(r);
    case 0x03 =>
      var props := DecodeAmf0Object(r);
      out := if props.Done? then Done(Obj(props.value)) else Failed(props.error);
    case 0x05 => out := Done(Leaf(Null));
    case 0x06 => out := Done(Leaf(Null));
    case 0x08 => out := DecodeAmf0EcmaArray(r);
    case 0x0a => out := DecodeAmf0StrictArray(r);
    case 0x0b => out := DecodeAmf0Date(r);
    case 0x0c => out := DecodeAmf0LongString(r);
    case 0x0d => out := Done(Leaf(Null));
    case 0x0f => out := DecodeAmf0LongString(r);
    case 0x10 => out := DecodeAmf0TypedObject(r);
    case 0x11 => out := Failed(SwitchToAmf3);
    case _ => out := Failed(Bad);
  }

  method DecodeAmf0EcmaArray(r: Buffer) returns (out: Outcome<Value<Leaf0>>)
    modifies r
    ensures Result(out, r.data) == DecodeEcma(old(r.data))
    decreases |r.data|, 3
  {
    hide DecodeProps;
    var _ := ReadFull(r, 4);
    var props := DecodeAmf0Object(r);
    out := if props.Done? then Done(Obj(props.value)) else Failed(Wrap(props.error));
  }

  method DecodeAmf0TypedObject(r: Buffer) returns (out: Outcome<Value<Leaf0>>)
    modifies r
    ensures Result(out, r.data) == DecodeTyped(old(r.data))
    decreases |r.data|, 3
  {
    hide DecodeProps, ReadText;
    var name := DecodeText(r, 2);
    if name.Failed? {
      return Failed(Bad);
    }
    var props := DecodeAmf0Object(r);
    out := if props.Done? then Done(Typed(name.value, props.value)) else Failed(Wrap(props.error));
  }

  method DecodeAmf0StrictArray(r: Buffer) returns (out: Outcome<Value<Leaf0>>)
    modifies r
    ensures Result(out, r.data) == DecodeStrict(old(r.data))
    decreases |r.data|, 3
  {
    hide Take, Decode;
    var len := ReadFull(r, 4);
    if len.Failed? {
      return Failed(Bad);
    }
    var n := FromBE(len.value);
    ghost var s := r.data;
    var elems := [];
    AfterNothing(DecodeElems(s, n));
    for i := 0 to n
      invariant |r.data| <= |s| < |old(r.data)|
      invariant After(elems, DecodeElems(r.data, n - i)) == DecodeElems(s, n)
    {
      var v := DecodeAmf0(r);
      if v.Failed? {
        return Failed(Wrap(v.error));
      }
      AfterAfter(elems, v.value, DecodeElems(r.data, n - i - 1));
      elems := elems + [v.value];
    }
    out := Done(Arr(elems));
    assert elems + [] == elems;
  }

  lemma AfterNothing<T>(r: Result<seq<T>>)
    ensures After([], r) == r
  {
    if r.out.Done? {
      assert [] + r.out.value == r.out.value;
    }
  }

  lemma OntoNothing<T>(r: Result<map<Text, T>>)
    ensures Onto(map[], r) == r
  {
    if r.out.Done? {
      assert map[] + r.out.value == r.out.value;
    }
  }

  lemma AfterAfter<T>(a: seq<T>, b: T, r: Result<seq<T>>)
    ensures After(a, After([b], r)) == After(a + [b], r)
  {
    if r.out.Done? {
      Regroup(a, [b], r.out.value);
    }
  }

  method DecodeAmf0Object(r: Buffer) returns (out: Outcome<map<Text, Value<Leaf0>>>)
    modifies r
    ensures Result(out, r.data) == DecodeProps(old(r.data))
    decreases |r.data|, 2
  {
    hide ReadText, Decode;
    var result := map[];
    OntoNothing(DecodeProps(r.data));
    while true
      invariant |r.data| <= |old(r.data)|
      invariant Onto(result, DecodeProps(r.data)) == DecodeProps(old(r.data))
      decreases |r.data|
    {
      var key := DecodeText(r, 2);
      if key.Failed? {
        return Failed(Bad);
      }
      if key.value == [] {
        var end := AssertMarker(r, OBJECT_END);
        assert result + map[] == result;
        return if end then Done(result) else Failed(Bad);
      }
      var v := DecodeAmf0(r);
      if v.Failed? {
        return Failed(Wrap(v.error));
      }
      OntoOnto(result, key.value, v.value, DecodeProps(r.data));
      result := result[key.value := v.value];
    }
  }

  lemma OntoOnto<T>(a: map<Text, T>, k: Text, v: T, r: Result<map<Text, T>>)
    ensures Onto(a, Onto(map[k := v], r)) == Onto(a[k := v], r)
  {
    if r.out.Done? {
      assert a + (map[k := v] + r.out.value) == a[k := v] + r.out.value;
    }
  }

  /** Values until an error. */
  method DecodeBatchAmf0(r: Buffer) returns (ret: seq<Value<Leaf0>>, error: Error)
    modifies r
    ensures Batch(ret, error, r.data) == DecodeBatch(old(r.data))
  {
    hide Decode;
    ret := [];
    while true
      invariant var b := DecodeBatch(r.data);
        b.(values := ret + b.values) == DecodeBatch(old(r.data))
      decreases |r.data|
    {
      var v := DecodeAmf0(r);
      if v.Failed? {
        return ret, v.error;
      }
      Regroup(ret, [v.value], DecodeBatch(r.data).values);
      ret := ret + [v.value];
    }
  }
}
