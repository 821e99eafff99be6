/** The AMF 3 encoder and decoder. */
module Amf3 {
  import opened Bytes
  import opened Buffers
  import opened AmfValues
  import opened AmfIO
  import opened Amf3Format
  import opened Amf3Order
  import opened Amf3Values

  // ----- Encoder --------------------------------------------------------------------------------

  /** Every length code here and further down fits 29 bits. */
  predicate Encodable(v: Val3)
    decreases v
  {
    match v
    case Leaf(_) => true
    case Str(text) => TextFits(text)
    case Arr(elems) => LengthCode(|elems|) < U29_LIMIT && forall i | 0 <= i < |elems| :: Encodable(elems[i])
    case Obj(props) =>
      TraitCode(|props|) < U29_LIMIT && forall k | k in props :: TextFits(k) && Encodable(props[k])
    case Typed(name, props) =>
      && TextFits(name) && TraitCode(|props|) < U29_LIMIT
      && forall k | k in props :: TextFits(k) && Encodable(props[k])
  }

  /** No length wraps its code of 32 bits. */
  predicate Possible(v: Val3)
    decreases v
  {
    match v
    case Leaf(_) => true
    case Str(text) => |text| < 0x8000_0000
    case Arr(elems) => |elems| < 0x8000_0000 && forall i | 0 <= i < |elems| :: Possible(elems[i])
    case Obj(props) => |props| < 0x1000_0000 && forall k | k in props :: |k| < 0x8000_0000 && Possible(props[k])
    case Typed(name, props) =>
      && |name| < 0x8000_0000 && |props| < 0x1000_0000
      && forall k | k in props :: |k| < 0x8000_0000 && Possible(props[k])
  }

  /** A value is refused if and only if a length is beyond its field. */
  lemma {:induction false} EncodableExactly(v: Val3)
    requires Possible(v)
    ensures Encodable(v) <==> Fits(v)
    decreases v
  {
    hide LengthCode, TraitCode, TextFits;
    match v
    case Leaf(_) =>
    case Str(text) => CodesFit(text);
    case Arr(elems) =>
      CountsFit(|elems|);
      forall i | 0 <= i < |elems| ensures Encodable(elems[i]) <==> Fits(elems[i]) {
        EncodableExactly(elems[i]);
      }
    case Obj(props) =>
      CountsFit(|props|);
      PropsEncodableExactly(v, props);
    case Typed(name, props) =>
      CodesFit(name);
      CountsFit(|props|);
      PropsEncodableExactly(v, props);
  }

  lemma CodesFit(text: Text)
    ensures |text| < 0x8000_0000 ==> (TextFits(text) <==> |text| < 0x1000_0000)
  {
  }

  lemma CountsFit(n: nat)
    ensures n < 0x8000_0000 ==> (LengthCode(n) < U29_LIMIT <==> n < 0x1000_0000)
    ensures n < 0x1000_0000 ==> (TraitCode(n) < U29_LIMIT <==> n < 0x200_0000)
  {
  }

  lemma {:induction false} PropsEncodableExactly(v: Val3, props: map<Text, Val3>)
    requires forall k | k in props :: props[k] < v && |k| < 0x8000_0000 && Possible(props[k])
    ensures forall k | k in props :: TextFits(k) && Encodable(props[k]) <==> |k| < 0x1000_0000 && Fits(props[k])
    decreases v, 0
  {
    hide TextFits;
    forall k | k in props ensures TextFits(k) && Encodable(props[k]) <==> |k| < 0x1000_0000 && Fits(props[k]) {
      CodesFit(k);
      EncodableExactly(props[k]);
    }
  }

  predicate TextFits(text: Text) {
    LengthCode(|text|) < U29_LIMIT
  }

  method EncodeAmf3Uint29(w: Buffer, val: nat) returns (ok: bool, n: nat)
    modifies w
    ensures ok == (val < U29_LIMIT) && w.data == old(w.data) + Code(val) && n == |Code(val)|
  {
    ok, n := true, 0;
    if val <= 0x7f {
      w.Write([val]);
      n := n + 1;
    } else if val <= 0x3fff {
      w.Write([val / 0x80 + 0x80, val % 0x80]);
      n := 2;
    } else if val <= 0x1f_ffff {
      w.Write([val / 0x4000 + 0x80, val / 0x80 % 0x80 + 0x80, val % 0x80]);
      n := 3;
    } else if val <= 0x1fff_ffff {
      w.Write([val / 0x40_0000 + 0x80, val / 0x8000 % 0x80 + 0x80, val / 0x100 % 0x80 + 0x80, val % 0x100]);
      n := 4;
    } else {
      ok := false;
      assert w.data + [] == w.data;
    }
  }

  method EncodeAmf3Utf8(w: Buffer, text: Text) returns (ok: bool, n: nat)
    modifies w
    ensures ok == TextFits(text) && Extends(old(w.data), w.data)
    ensures ok ==> w.data == old(w.data) + Utf8(text) && n == |Utf8(text)|
  {
    hide Code;
    ok, n := EncodeAmf3Uint29(w, LengthCode(|text|));
    if ok {
      w.Write(text);
      n := n + |text|;
      Regroup(old(w.data), Code(LengthCode(|text|)), text);
    }
  }

  method EncodeAmf3Leaf(w: Buffer, leaf: Leaf3) returns (n: nat)
    modifies w
    ensures w.data == old(w.data) + EncodeLeaf(leaf) && n == |EncodeLeaf(leaf)|
  {
    match leaf
    case Null => n := WriteMarked(w, true, NULL, []);
    case Boolean(b) => n := WriteMarked(w, true, if b then TRUE else FALSE, []);
    case Int(i) =>
      if 0 <= i < U29_LIMIT {
        hide U29;
        n := WriteMarked(w, true, INTEGER, []);
        var ok, m := EncodeAmf3Uint29(w, i);
        n := n + m;
        assert [INTEGER] + [] == [INTEGER];
        Regroup(old(w.data), [INTEGER], Code(i));
      } else {
        n := WriteMarked(w, true, DOUBLE, FloatBits(i));
      }
    case Number(bits) => n := WriteMarked(w, true, DOUBLE, bits);
  }

  /** Appends the value with every object's properties in the order of their names and counts
      exactly the bytes it wrote. Only a length beyond 29 bits is refused, after what stands before
      it was written. */
  method EncodeAmf3(w: Buffer, val: Val3) returns (ok: bool, n: nat, ghost o: Ordered<Leaf3>)
    modifies w
    ensures ok == Encodable(val) && Extends(old(w.data), w.data)
    ensures ok ==> Erase(o) == val && Sorted(o)
    ensures ok ==> w.data == old(w.data) + Encode(o) && n == |Encode(o)|
    decreases val, 2
  {
    hide EncodeLeaf, Utf8, Code, EncodeElems, EncodeValues, EraseElems, EraseProps, TraitBytes, TextFits;
    ok, n, o := true, 0, OLeaf(Null);
    match val
    case Leaf(leaf) =>
      o := OLeaf(leaf);
      n := EncodeAmf3Leaf(w, leaf);
    case Str(text) =>
      o := OStr(text);
      n := WriteMarked(w, true, STRING, []);
      assert [STRING] + [] == [STRING];
      var m;
      ok, m := EncodeAmf3Utf8(w, text);
      n := n + m;
      if ok {
        Regroup(old(w.data), [STRING], Utf8(text));
      }
    case Arr(elems) =>
      ghost var os;
      ok, n, os := EncodeAmf3Array(w, elems);
      o := OArr(os);
    case Obj(props) =>
      ghost var os;
      ok, n, os := EncodeAmf3Object(w, val, []);
      o := OObj(os);
    case Typed(name, props) =>
      ghost var os;
      ok, n, os := EncodeAmf3Object(w, val, name);
      o := OTyped(name, os);
  }

  method EncodeAmf3Array(w: Buffer, elems: seq<Val3>) returns (ok: bool, n: nat, ghost os: seq<Ordered<Leaf3>>)
    modifies w
    ensures ok == Encodable(Arr(elems)) && Extends(old(w.data), w.data)
    ensures ok ==> EraseElems(os) == elems && forall i | 0 <= i < |os| :: Sorted(os[i])
    ensures ok ==> w.data == old(w.data) + Encode(OArr(os)) && n == |Encode(OArr(os))|
    decreases elems, 1
  {
    hide Encode, Erase, Sorted, Extends, ArrayHead, Encodable, EncodeElems, EraseElems;
    os := [];
    ghost var head := ArrayHead(|elems|);
    ok, n := EncodeArrayHead(w, |elems|);
    TooLong(elems);
    if !ok {
      return;
    }
    NoElems(head);
    for i := 0 to |elems|
      invariant |os| == i && EraseElems(os) == elems[..i]
      invariant forall k | 0 <= k < i :: Sorted(os[k]) && Encodable(elems[k])
      invariant w.data == old(w.data) + (head + EncodeElems(os))
      invariant n == |head + EncodeElems(os)|
    {
      var m;
      ghost var o;
      ok, m, o := EncodeAmf3(w, elems[i]);
      if !ok {
        ExtendsFurther(old(w.data), head + EncodeElems(os), w.data);
        NotEncodable(elems, i);
        return;
      }
      EncodeElemsAppend(os, o);
      EraseElemsAppend(os, o);
      Regroup(head, EncodeElems(os), Encode(o));
      Regroup(old(w.data), head + EncodeElems(os), Encode(o));
      n := n + m;
      os := os + [o];
    }
    ok := true;
    assert elems[..|elems|] == elems;
    ExtendsItself(w.data);
    ExtendsFurther(old(w.data), head + EncodeElems(os), w.data);
    ArrayParts(os);
  }

  lemma TooLong(elems: seq<Val3>)
    ensures Encodable(Arr(elems))
       <==> LengthCode(|elems|) < U29_LIMIT && forall i | 0 <= i < |elems| :: Encodable(elems[i])
  {
  }

  lemma NoElems(head: seq<byte>)
    ensures EncodeElems([]) == [] && head + EncodeElems([]) == head && EraseElems<Leaf3>([]) == []
  {
  }

  lemma NotEncodable(elems: seq<Val3>, i: nat)
    requires i < |elems| && !Encodable(elems[i])
    ensures !Encodable(Arr(elems))
  {
  }

  function ArrayHead(n: nat): seq<byte> {
    [ARRAY] + (Code(LengthCode(n)) + Utf8([]))
  }

  lemma ArrayParts(os: seq<Ordered<Leaf3>>)
    ensures Encode(OArr(os)) == ArrayHead(|os|) + EncodeElems(os)
  {
    hide Code, Utf8, EncodeElems;
    Regroup(Code(LengthCode(|os|)), Utf8([]), EncodeElems(os));
    Regroup([ARRAY], Code(LengthCode(|os|)) + Utf8([]), EncodeElems(os));
  }

  method EncodeArrayHead(w: Buffer, length: nat) returns (ok: bool, n: nat)
    modifies w
    ensures ok == (LengthCode(length) < U29_LIMIT) && Extends(old(w.data), w.data)
    ensures ok ==> w.data == old(w.data) + ArrayHead(length) && n == |ArrayHead(length)|
  {
    hide Code, Utf8;
    var code := LengthCode(length);
    n := WriteMarked(w, true, ARRAY, []);
    assert [ARRAY] + [] == [ARRAY];
    var m;
    ok, m := EncodeAmf3Uint29(w, code);
    n := n + m;
    Regroup(old(w.data), [ARRAY], Code(code));
    if ok {
      ok, m := EncodeAmf3Utf8(w, []);
      n := n + m;
      Regroup(old(w.data), [ARRAY] + Code(code), Utf8([]));
      Regroup([ARRAY], Code(code), Utf8([]));
    }
  }

  lemma {:induction false} EncodeElemsAppend(os: seq<Ordered<Leaf3>>, o: Ordered<Leaf3>)
    ensures EncodeElems(os + [o]) == EncodeElems(os) + Encode(o)
  {
    hide Encode;
    if os == [] {
      assert os + [o] == [o] && [o][1..] == [];
    } else {
      assert (os + [o])[1..] == os[1..] + [o];
      EncodeElemsAppend(os[1..], o);
      Regroup(Encode(os[0]), EncodeElems(os[1..]), Encode(o));
    }
  }

  predicate IsObject(val: Val3, name: Text) {
    (val.Obj? && name == []) || (val.Typed? && name == val.name)
  }

  function ObjectHead(name: Text, n: nat): seq<byte> {
    [OBJECT] + (Code(TraitCode(n)) + Utf8(name))
  }

  /** The properties of the first names are there, each with its value. */
  ghost predicate Listed(props: map<Text, Val3>, keys: seq<Text>, os: seq<Prop<Leaf3>>) {
    && KeyList(os) == keys
    && EraseProps(os) == (map k | k in props && k in keys :: props[k])
    && (forall i | 0 <= i < |os| :: Sorted(os[i].value))
    && forall k | k in props && k in keys :: Encodable(props[k])
  }

  lemma ListedNone(props: map<Text, Val3>)
    ensures Listed(props, [], [])
  {
  }

  lemma ListedNext(props: map<Text, Val3>, keys: seq<Text>, os: seq<Prop<Leaf3>>, p: Prop<Leaf3>)
    requires Listed(props, keys, os) && p.key in props
    requires Erase(p.value) == props[p.key] && Sorted(p.value) && Encodable(props[p.key])
    ensures Listed(props, keys + [p.key], os + [p])
  {
    hide Erase, EraseProps, Encodable, Sorted;
    ErasePropsAppend(os, p);
    KeyListAppend(os, p);
    var m := map k | k in props && k in keys :: props[k];
    assert m[p.key := props[p.key]] == map k | k in props && k in keys + [p.key] :: props[k];
  }

  lemma {:induction false} KeyListAppend(os: seq<Prop<Leaf3>>, p: Prop<Leaf3>)
    ensures KeyList(os + [p]) == KeyList(os) + [p.key]
  {
    if os == [] {
      assert os + [p] == [p] && [p][1..] == [];
    } else {
      assert (os + [p])[1..] == os[1..] + [p];
      KeyListAppend(os[1..], p);
    }
  }

  lemma {:induction false} EncodeValuesAppend(os: seq<Prop<Leaf3>>, p: Prop<Leaf3>)
    ensures EncodeValues(os + [p]) == EncodeValues(os) + Encode(p.value)
  {
    hide Encode;
    if os == [] {
      assert os + [p] == [p] && [p][1..] == [];
    } else {
      assert (os + [p])[1..] == os[1..] + [p];
      EncodeValuesAppend(os[1..], p);
      Regroup(Encode(os[0].value), EncodeValues(os[1..]), Encode(p.value));
    }
  }

  lemma {:induction false} Utf8sAppend(texts: seq<Text>, t: Text)
    ensures Utf8s(texts + [t]) == Utf8s(texts) + Utf8(t)
  {
    hide Utf8;
    if texts == [] {
      assert texts + [t] == [t] && [t][1..] == [];
    } else {
      assert (texts + [t])[1..] == texts[1..] + [t];
      Utf8sAppend(texts[1..], t);
      Regroup(Utf8(texts[0]), Utf8s(texts[1..]), Utf8(t));
    }
  }

  lemma ListedAll(val: Val3, name: Text, keys: seq<Text>, os: seq<Prop<Leaf3>>)
    requires IsObject(val, name) && Listed(val.props, keys, os) && Ascending(keys)
    requires forall k :: k in keys <==> k in val.props
    requires TextFits(name) && TraitCode(|val.props|) < U29_LIMIT && forall k | k in keys :: TextFits(k)
    ensures Encodable(val) && EraseProps(os) == val.props && Sorted(OObj(os))
  {
    hide TextFits, TraitCode, Encodable, Sorted, EraseProps, KeyList, Ascending;
    AllEncodable(val, name, keys);
    SortedProps(keys, os);
    WholeMap(val.props, keys);
  }

  lemma WholeMap(props: map<Text, Val3>, keys: seq<Text>)
    requires forall k | k in props :: k in keys
    ensures props == map k | k in props && k in keys :: props[k]
  {
  }

  lemma AllEncodable(val: Val3, name: Text, keys: seq<Text>)
    requires IsObject(val, name) && TextFits(name) && TraitCode(|val.props|) < U29_LIMIT
    requires forall k | k in val.props :: k in keys && Encodable(val.props[k])
    requires forall k | k in keys :: TextFits(k)
    ensures Encodable(val)
  {
    hide TextFits, TraitCode;
  }

  lemma SortedProps(keys: seq<Text>, os: seq<Prop<Leaf3>>)
    requires Ascending(keys) && KeyList(os) == keys && forall i | 0 <= i < |os| :: Sorted(os[i].value)
    ensures Sorted(OObj(os))
  {
    hide KeyList, Before;
    forall i, j | 0 <= i < j < |os| ensures Before(os[i].key, os[j].key) {
      assert keys[i] == os[i].key && keys[j] == os[j].key;
    }
  }

  method EncodeObjectHead(w: Buffer, name: Text, count: nat) returns (ok: bool, n: nat)
    modifies w
    ensures ok == (TraitCode(count) < U29_LIMIT && TextFits(name)) && Extends(old(w.data), w.data)
    ensures ok ==> w.data == old(w.data) + ObjectHead(name, count) && n == |ObjectHead(name, count)|
  {
    hide Code, Utf8, TraitCode, TextFits;
    var code := TraitCode(count);
    n := WriteMarked(w, true, OBJECT, []);
    assert [OBJECT] + [] == [OBJECT];
    var m;
    ok, m := EncodeAmf3Uint29(w, code);
    n := n + m;
    Regroup(old(w.data), [OBJECT], Code(code));
    if ok {
      ok, m := EncodeAmf3Utf8(w, name);
      n := n + m;
      Regroup(old(w.data), [OBJECT] + Code(code), Utf8(name));
      Regroup([OBJECT], Code(code), Utf8(name));
    }
  }

  /** The names one behind the other. */
  method EncodeNames(w: Buffer, keys: seq<Text>) returns (ok: bool, n: nat)
    modifies w
    ensures ok == (forall k | k in keys :: TextFits(k)) && Extends(old(w.data), w.data)
    ensures ok ==> w.data == old(w.data) + Utf8s(keys) && n == |Utf8s(keys)|
  {
    hide Utf8, TextFits, Extends;
    ok, n := true, 0;
    assert w.data + [] == w.data && keys[..0] == [];
    assert Extends(w.data, w.data) by { ExtendsItself(w.data); }
    for i := 0 to |keys|
      invariant w.data == old(w.data) + Utf8s(keys[..i]) && n == |Utf8s(keys[..i])|
      invariant forall k | k in keys[..i] :: TextFits(k)
    {
      var m;
      ok, m := EncodeAmf3Utf8(w, keys[i]);
      if !ok {
        ExtendsFurther(old(w.data), Utf8s(keys[..i]), w.data);
        return;
      }
      n := n + m;
      Utf8sAppend(keys[..i], keys[i]);
      Regroup(old(w.data), Utf8s(keys[..i]), Utf8(keys[i]));
      assert keys[..i + 1] == keys[..i] + [keys[i]];
    }
    assert keys[..|keys|] == keys;
    ok := true;
    ExtendsItself(old(w.data) + Utf8s(keys));
    ExtendsFurther(old(w.data), Utf8s(keys), w.data);
  }

  lemma ExtendsItself(s: seq<byte>)
    ensures Extends(s, s)
  {
  }

  /** The values in the order of their names. */
  method EncodeAmf3Values(w: Buffer, val: Val3, keys: seq<Text>)
      returns (ok: bool, n: nat, ghost os: seq<Prop<Leaf3>>)
    requires (val.Obj? || val.Typed?) && forall k | k in keys :: k in val.props
    modifies w
    ensures ok == (forall k | k in keys :: Encodable(val.props[k])) && Extends(old(w.data), w.data)
    ensures ok ==> Listed(val.props, keys, os)
    ensures ok ==> w.data == old(w.data) + EncodeValues(os) && n == |EncodeValues(os)|
    decreases val, 0
  {
    hide Encode, Encodable, Extends, Sorted, Erase, Listed, EncodeValues;
    ok, n, os := true, 0, [];
    ListedNone(val.props);
    ExtendsItself(w.data);
    assert w.data + [] == w.data && keys[..0] == [];
    assert EncodeValues([]) == [] by { NoValues(); }
    for i := 0 to |keys|
      invariant Listed(val.props, keys[..i], os)
      invariant w.data == old(w.data) + EncodeValues(os) && n == |EncodeValues(os)|
      invariant forall k | k in keys[..i] :: Encodable(val.props[k])
    {
      var m;
      ghost var o;
      assert keys[i] in keys;
      ok, m, o := EncodeAmf3(w, val.props[keys[i]]);
      if !ok {
        ExtendsFurther(old(w.data), EncodeValues(os), w.data);
        return;
      }
      n := n + m;
      ghost var p := Prop(keys[i], o);
      ListedNext(val.props, keys[..i], os, p);
      EncodeValuesAppend(os, p);
      Regroup(old(w.data), EncodeValues(os), Encode(o));
      assert keys[..i + 1] == keys[..i] + [keys[i]];
      os := os + [p];
    }
    assert keys[..|keys|] == keys;
    ok := true;
    ExtendsItself(old(w.data) + EncodeValues(os));
    ExtendsFurther(old(w.data), EncodeValues(os), w.data);
  }

  lemma NoValues()
    ensures EncodeValues([]) == []
  {
  }

  lemma ObjectParts(name: Text, os: seq<Prop<Leaf3>>)
    ensures [OBJECT] + (TraitBytes(name, os) + EncodeValues(os))
         == ObjectHead(name, |os|) + Utf8s(KeyList(os)) + EncodeValues(os)
  {
    hide Code, Utf8, Utf8s, EncodeValues, TraitCode;
    var code, names := Code(TraitCode(|os|)), Utf8s(KeyList(os));
    Regroup(code, Utf8(name), names);
    Regroup([OBJECT], code + Utf8(name), names);
    Regroup([OBJECT], TraitBytes(name, os), EncodeValues(os));
  }

  /** Header, all names in order, then all values in the same order. */
  method EncodeAmf3Object(w: Buffer, val: Val3, name: Text) returns (ok: bool, n: nat, ghost os: seq<Prop<Leaf3>>)
    requires IsObject(val, name)
    modifies w
    ensures ok == Encodable(val) && Extends(old(w.data), w.data)
    ensures ok ==> EraseProps(os) == val.props && Sorted(OObj(os))
    ensures ok ==> var s := [OBJECT] + (TraitBytes(name, os) + EncodeValues(os));
      w.data == old(w.data) + s && n == |s|
    decreases val, 1
  {
    os := [];
    var keys := SortedKeys(val.props.Keys);
    ok := false;
    hide ObjectHead, TextFits, TraitCode, TraitBytes, EncodeValues, Extends, Listed, Sorted, Utf8s, KeyList;
    ok, n := EncodeObjectHead(w, name, |keys|);
    ghost var head := ObjectHead(name, |keys|);
    if !ok {
      return;
    }
    var m;
    ok, m := EncodeNames(w, keys);
    n := n + m;
    if !ok {
      ExtendsFurther(old(w.data), head, w.data);
      return;
    }
    Regroup(old(w.data), head, Utf8s(keys));
    ok, m, os := EncodeAmf3Values(w, val, keys);
    n := n + m;
    ExtendsFurther(old(w.data), head + Utf8s(keys), w.data);
    if ok {
      ListedAll(val, name, keys, os);
      ObjectParts(name, os);
      ListedKeys(val.props, keys, os);
      Regroup(old(w.data), head + Utf8s(keys), EncodeValues(os));
    }
  }

  lemma ListedKeys(props: map<Text, Val3>, keys: seq<Text>, os: seq<Prop<Leaf3>>)
    requires Listed(props, keys, os)
    ensures KeyList(os) == keys && |os| == |keys|
  {
  }

  /** The values one behind the other, until one is refused. Reports no count. */
  method EncodeBatchAmf3(w: Buffer, vals: seq<Val3>) returns (ok: bool, ghost os: seq<Ordered<Leaf3>>)
    modifies w
    ensures ok == forall i | 0 <= i < |vals| :: Encodable(vals[i])
    ensures |os| <= |vals| && EraseElems(os) == vals[..|os|] && forall i | 0 <= i < |os| :: Sorted(os[i])
    ensures Extends(old(w.data) + EncodeElems(os), w.data)
    ensures if ok then |os| == |vals| && w.data == old(w.data) + EncodeElems(os)
            else |os| < |vals| && !Encodable(vals[|os|])
  {
    hide Encode, Encodable, Sorted, Erase;
    os := [];
    assert w.data + [] == w.data;
    for i := 0 to |vals|
      invariant |os| == i && EraseElems(os) == vals[..i]
      invariant forall k | 0 <= k < i :: Encodable(vals[k]) && Sorted(os[k])
      invariant w.data == old(w.data) + EncodeElems(os)
    {
      var good, _, o := EncodeAmf3(w, vals[i]);
      if !good {
        return false, os;
      }
      EncodeElemsAppend(os, o);
      EraseElemsAppend(os, o);
      Regroup(old(w.data), EncodeElems(os), Encode(o));
      os := os + [o];
    }
    ok := true;
  }

  // ----- Decoder --------------------------------------------------------------------------------

  /** One read into a buffer of n zeros. */
  method ReadInto(r: Buffer, n: nat) returns (out: Outcome<seq<byte>>)
    modifies r
    ensures Result(out, r.data) == ReadPadded(old(r.data), n)
  {
    var s, eof := r.Read(n);
    if eof {
      return Failed(Eof);
    }
    var zeros: seq<byte> := seq(n - |s|, i => 0);
    assert |s| == n ==> s + zeros == s;
    assert |s| < n ==> s == old(r.data);
    out := Done(s + zeros);
  }

  method DecodeU29(r: Buffer) returns (out: Outcome<nat>)
    modifies r
    ensures Result(out, r.data) == ReadU29(old(r.data))
  {
    var result: nat := 0;
    var b;
    for i := 0 to 3
      invariant ReadU29From(r.data, i, result) == ReadU29(old(r.data))
    {
      b := ReadByte(r);
      if b.Failed? {
        return Failed(b.error);
      }
      result := result * 0x80 + (b.value as int) % 0x80;
      if b.value < 0x80 {
        return Done(result);
      }
    }
    b := ReadByte(r);
    if b.Failed? {
      return Failed(b.error);
    }
    out := Done(result * 0x100 + b.value);
  }

  class Decoder {
    var stringRefs: seq<Text>
    var objectRefs: seq<Val3>
    var traitRefs: seq<Trait>

    constructor ()
      ensures Tables() == Refs([], [], [])
    {
      stringRefs, objectRefs, traitRefs := [], [], [];
    }

    function Tables(): Refs
      reads this
    {
      Refs(stringRefs, objectRefs, traitRefs)
    }

    /** Whether what follows is a reference, and the number without that mark. */
    method DecodeReferenceInt(r: Buffer) returns (out: Outcome<(bool, nat)>)
      modifies r
      ensures var u := ReadU29(old(r.data));
        r.data == u.rest && out == if u.out.Failed? then Failed(Bad)
                                   else Done((u.out.value % 2 == 0, u.out.value / 2))
    {
      hide ReadU29;
      var u := DecodeU29(r);
      out := if u.Failed? then Failed(Bad) else Done((u.value % 2 == 0, u.value / 2));
    }

    method DecodeAmf3String(r: Buffer) returns (out: Outcome<Text>)
      modifies r, this
      ensures Read(Result(out, r.data), Tables()) == ReadString(old(r.data), old(Tables()))
    {
      hide ReadU29, ReadPadded;
      var ref := DecodeReferenceInt(r);
      if ref.Failed? {
        return Failed(Bad);
      }
      var (isRef, refVal) := ref.value;
      if isRef {
        if refVal >= |stringRefs| {
          return Failed(Panic);
        }
        return Done(stringRefs[refVal]);
      }
      out := ReadInto(r, refVal);
      if out.Failed? {
        return Failed(Bad);
      }
      if out.value != [] {
        stringRefs := stringRefs + [out.value];
      }
    }

    method DecodeAmf3Integer(r: Buffer) returns (out: Outcome<Val3>)
      modifies r
      ensures Result(out, r.data) == ReadInteger(old(r.data))
    {
      hide ReadU29;
      var u := DecodeU29(r);
      if u.Failed? {
        return Failed(u.error);
      }
      var result: int := u.value;
      if result > 0xfff_ffff {
        result := result - 0x2000_0000;
      }
      out := Done(Leaf(Int(result)));
    }

    method DecodeAmf3Double(r: Buffer) returns (out: Outcome<Val3>)
      modifies r
      ensures Result(out, r.data) == ReadDouble(old(r.data))
    {
      hide Take;
      var bits := ReadFull(r, 8);
      out := if bits.Failed? then Failed(Bad) else Done(Leaf(Number(bits.value)));
    }

    method DecodeAmf3(r: Buffer) returns (out: Outcome<Val3>)
      modifies r, this
      ensures Read(Result(out, r.data), Tables()) == Decode(old(r.data), old(Tables()))
      decreases |r.data|, 0
    {
      hide DecodeArray, DecodeObject, ReadString, ReadInteger, ReadDouble;
      var marker := ReadByte(r);
      if marker.Failed? {
        return Failed(marker.error);
      }
      match marker.value
      case 0x00 => out := Done(Leaf(Null));
      case 0x01 => out := Done(Leaf(Null));
      case 0x02 => out := Done(Leaf(Boolean(false)));
      case 0x03 => out := Done(Leaf(Boolean(true)));
      case 0x04 => out := DecodeAmf3Integer(r);
      case 0x05 => out := DecodeAmf3Double(r);
      case 0x06 =>
        var text := DecodeAmf3String(r);
        out := if text.Done? then Done(Str(text.value)) else Failed(text.error);
      case 0x07 => out := Failed(NotModelled);
      case 0x08 => out := Failed(NotModelled);
      case 0x09 => out := DecodeAmf3Array(r);
      case 0x0a => out := DecodeAmf3Object(r);
      case 0x0b => out := Failed(NotModelled);
      case 0x0c => out := Failed(NotModelled);
      case _ => out := Failed(Bad);
    }

    /** Values until an error. */
    method DecodeBatchAmf3(r: Buffer) returns (ret: seq<Val3>, error: Error)
      modifies r, this
      ensures Batch(ret, error, r.data) == DecodeBatch(old(r.data), old(Tables()))
    {
      hide Decode;
      ret := [];
      while true
        invariant var b := DecodeBatch(r.data, Tables());
          b.(values := ret + b.values) == DecodeBatch(old(r.data), old(Tables()))
        decreases |r.data|
      {
        var v := DecodeAmf3(r);
        if v.Failed? {
          return ret, v.error;
        }
        Regroup(ret, [v.value], DecodeBatch(r.data, Tables()).values);
        ret := ret + [v.value];
      }
    }

    method DecodeAmf3Array(r: Buffer) returns (out: Outcome<Val3>)
      modifies r, this
      ensures Read(Result(out, r.data), Tables()) == DecodeArray(old(r.data), old(Tables()))
      decreases |r.data|, 3
    {
      hide ReadU29, ReadString, Decode, DecodeElems;
      var ref := DecodeReferenceInt(r);
      if ref.Failed? {
        return Failed(Bad);
      }
      var (isRef, refVal) := ref.value;
      if isRef {
        if refVal / 2 >= |objectRefs| {
          return Failed(Panic);
        }
        return if objectRefs[refVal / 2].Arr? then Done(objectRefs[refVal / 2]) else Failed(Bad);
      }
      var key := DecodeAmf3String(r);
      if key.Failed? {
        return Failed(Wrap(key.error));
      }
      if key.value != [] {
        return Failed(Bad);
      }
      var elems := DecodeAmf3Elems(r, refVal);
      if elems.Failed? {
        return Failed(elems.error);
      }
      out := Done(Arr(elems.value));
      objectRefs := objectRefs + [out.value];
    }

    method DecodeAmf3Elems(r: Buffer, n: nat) returns (out: Outcome<seq<Val3>>)
      modifies r, this
      ensures Read(Result(out, r.data), Tables()) == DecodeElems(old(r.data), old(Tables()), n)
      decreases |r.data|, 1
    {
      hide Decode;
      var result := [];
      AfterNothing(DecodeElems(r.data, Tables(), n));
      for i := 0 to n
        invariant |r.data| <= |old(r.data)|
        invariant After(result, DecodeElems(r.data, Tables(), n - i)) == DecodeElems(old(r.data), old(Tables()), n)
      {
        var v := DecodeAmf3(r);
        if v.Failed? {
          return Failed(Wrap(v.error));
        }
        AfterAfter(result, v.value, DecodeElems(r.data, Tables(), n - i - 1));
        result := result + [v.value];
      }
      assert result + [] == result;
      out := Done(result);
    }

    method DecodeAmf3Names(r: Buffer, n: nat) returns (out: Outcome<seq<Text>>)
      modifies r, this
      ensures Read(Result(out, r.data), Tables()) == ReadStrings(old(r.data), old(Tables()), n)
    {
      hide ReadString;
      var result := [];
      AfterNothing(ReadStrings(r.data, Tables(), n));
      for i := 0 to n
        invariant After(result, ReadStrings(r.data, Tables(), n - i)) == ReadStrings(old(r.data), old(Tables()), n)
      {
        var key := DecodeAmf3String(r);
        if key.Failed? {
          return Failed(Wrap(key.error));
        }
        AfterAfter(result, key.value, ReadStrings(r.data, Tables(), n - i - 1));
        result := result + [key.value];
      }
      assert result + [] == result;
      out := Done(result);
    }

    method DecodeAmf3Trait(r: Buffer, refVal: nat) returns (out: Outcome<Trait>)
      modifies r, this
      ensures Read(Result(out, r.data), Tables()) == ReadTrait(old(r.data), refVal, old(Tables()))
    {
      hide ReadString, ReadStrings;
      if refVal % 2 == 0 {
        if refVal / 2 >= |traitRefs| {
          return Failed(Panic);
        }
        return Done(traitRefs[refVal / 2]);
      }
      var cls := DecodeAmf3String(r);
      if cls.Failed? {
        return Failed(Wrap(cls.error));
      }
      var keys := DecodeAmf3Names(r, refVal / 8);
      if keys.Failed? {
        return Failed(keys.error);
      }
      var shape := Trait(cls.value, refVal / 2 % 2 == 1, refVal / 4 % 2 == 1, keys.value);
      traitRefs := traitRefs + [shape];
      out := Done(shape);
    }

    method DecodeAmf3Object(r: Buffer) returns (out: Outcome<Val3>)
      modifies r, this
      ensures Read(Result(out, r.data), Tables()) == DecodeObject(old(r.data), old(Tables()))
      decreases |r.data|, 3
    {
      hide ReadU29, ReadTrait, DecodeProps;
      var ref := DecodeReferenceInt(r);
      if ref.Failed? {
        return Failed(Bad);
      }
      var (isRef, refVal) := ref.value;
      if isRef {
        if refVal / 2 >= |objectRefs| {
          return Failed(Panic);
        }
        return Done(objectRefs[refVal / 2]);
      }
      var shape := DecodeAmf3Trait(r, refVal);
      if shape.Failed? {
        return Failed(shape.error);
      }
      objectRefs := objectRefs + [Leaf(Null)];
      out := DecodeAmf3Properties(r, shape.value);
    }

    method DecodeAmf3Properties(r: Buffer, shape: Trait) returns (out: Outcome<Val3>)
      modifies r, this
      ensures Read(Result(out, r.data), Tables()) == DecodeProps(old(r.data), old(Tables()), shape)
      decreases |r.data|, 2
    {
      hide DecodeSealed, DecodeDynamic;
      if shape.externalizable {
        return Failed(NotModelled);
      }
      var obj := DecodeAmf3Sealed(r, shape.properties);
      if obj.Done? && shape.dynamic {
        obj := DecodeAmf3Dynamic(r, obj.value);
      }
      out := if obj.Done? then Done(Obj(obj.value)) else Failed(obj.error);
    }

    method DecodeAmf3Sealed(r: Buffer, names: seq<Text>) returns (out: Outcome<map<Text, Val3>>)
      modifies r, this
      ensures Read(Result(out, r.data), Tables()) == DecodeSealed(old(r.data), old(Tables()), names)
      decreases |r.data|, 1
    {
      hide Decode;
      var obj := map[];
      OntoNothing(DecodeSealed(r.data, Tables(), names));
      assert names[0..] == names;
      for i := 0 to |names|
        invariant |r.data| <= |old(r.data)|
        invariant Onto(obj, DecodeSealed(r.data, Tables(), names[i..]))
               == DecodeSealed(old(r.data), old(Tables()), names)
      {
        assert names[i..][0] == names[i] && names[i..][1..] == names[i + 1..];
        var v := DecodeAmf3(r);
        if v.Failed? {
          return Failed(Wrap(v.error));
        }
        OntoOnto(obj, names[i], v.value, DecodeSealed(r.data, Tables(), names[i + 1..]));
        obj := obj[names[i] := v.value];
      }
      assert obj + map[] == obj;
      out := Done(obj);
    }

    method DecodeAmf3Dynamic(r: Buffer, sealed: map<Text, Val3>) returns (out: Outcome<map<Text, Val3>>)
      modifies r, this
      ensures Read(Result(out, r.data), Tables()) == Onto(sealed, DecodeDynamic(old(r.data), old(Tables())))
      decreases |r.data|, 1
    {
      hide Decode, ReadString;
      var obj := sealed;
      while true
        invariant |r.data| <= |old(r.data)|
        invariant Onto(obj, DecodeDynamic(r.data, Tables()))
               == Onto(sealed, DecodeDynamic(old(r.data), old(Tables())))
        decreases |r.data|
      {
        var key := DecodeAmf3String(r);
        if key.Failed? {
          return Failed(Wrap(key.error));
        }
        if key.value == [] {
          assert obj + map[] == obj;
          return Done(obj);
        }
        var v := DecodeAmf3(r);
        if v.Failed? {
          return Failed(Wrap(v.error));
        }
        OntoOnto(obj, key.value, v.value, DecodeDynamic(r.data, Tables()));
        obj := obj[key.value := v.value];
      }
    }
  }

  lemma AfterNothing<T>(d: Read<seq<T>>)
    ensures After([], d) == d
  {
    if d.r.out.Done? {
      assert [] + d.r.out.value == d.r.out.value;
    }
  }

  lemma AfterAfter<T>(a: seq<T>, b: T, d: Read<seq<T>>)
    ensures After(a, After([b], d)) == After(a + [b], d)
  {
    if d.r.out.Done? {
      Regroup(a, [b], d.r.out.value);
    }
  }

  lemma OntoNothing<T>(d: Read<map<Text, T>>)
    ensures Onto(map[], d) == d
  {
    if d.r.out.Done? {
      assert map[] + d.r.out.value == d.r.out.value;
    }
  }

  lemma OntoOnto<T>(a: map<Text, T>, k: Text, v: T, d: Read<map<Text, T>>)
    ensures Onto(a, Onto(map[k := v], d)) == Onto(a[k := v], d)
  {
    if d.r.out.Done? {
      assert a + (map[k := v] + d.r.out.value) == a[k := v] + d.r.out.value;
    }
  }
}
