/** The AMF 3 round trip for values: whatever order their maps are walked in, a value is written as
    one byte string, and what is read back is the value or what the wire keeps of it. */
module Amf3Values {
  import opened Bytes
  import opened AmfValues
  import opened AmfIO
  import opened Amf3Format
  import opened Amf3Order

  /** Everything in the value is short enough for its length code. */
  predicate Fits(v: Val3)
    decreases v
  {
    match v
    case Leaf(_) => true
    case Str(text) => |text| < 0x1000_0000
    case Arr(elems) => |elems| < 0x1000_0000 && forall i | 0 <= i < |elems| :: Fits(elems[i])
    case Obj(props) => |props| < 0x200_0000 && forall k | k in props :: |k| < 0x1000_0000 && Fits(props[k])
    case Typed(name, props) =>
      |name| < 0x1000_0000 && |props| < 0x200_0000 && forall k | k in props :: |k| < 0x1000_0000 && Fits(props[k])
  }

  /** No integer that the wire keeps differently, and no name of a class. */
  predicate PlainValue(v: Val3)
    decreases v
  {
    match v
    case Leaf(leaf) => leaf.Int? ==> 0 <= leaf.n < 0x1000_0000
    case Str(_) => true
    case Arr(elems) => forall i | 0 <= i < |elems| :: PlainValue(elems[i])
    case Obj(props) => forall k | k in props :: PlainValue(props[k])
    case Typed(_, _) => false
  }

  /** What the wire keeps of the value. */
  function KeptValue(v: Val3): Val3
    decreases v
  {
    match v
    case Leaf(leaf) => Leaf(KeptLeaf(leaf))
    case Str(text) => v
    case Arr(elems) => Arr(seq(|elems|, i requires 0 <= i < |elems| => KeptValue(elems[i])))
    case Obj(props) => Obj(map k | k in props :: KeptValue(props[k]))
    case Typed(_, props) => Obj(map k | k in props :: KeptValue(props[k]))
  }

  /** The conditions and what is kept are the same for a value and any order of its properties. */
  ghost predicate SameForOrder(o: Ordered<Leaf3>) {
    && (Fits(Erase(o)) <==> Representable(o))
    && (PlainValue(Erase(o)) <==> Plain(o))
    && KeptValue(Erase(o)) == Kept(o)
  }

  lemma {:induction false} OrderIsIrrelevant(o: Ordered<Leaf3>)
    requires Once(o)
    ensures SameForOrder(o)
    decreases o
  {
    match o
    case OLeaf(_) =>
    case OStr(_) =>
    case OArr(elems) =>
      forall i | 0 <= i < |elems| ensures SameForOrder(elems[i]) {
        OrderIsIrrelevant(elems[i]);
      }
      ElemsSame(elems);
    case OObj(props) =>
      forall i | 0 <= i < |props| ensures SameForOrder(props[i].value) {
        OrderIsIrrelevant(props[i].value);
      }
      PropsSame([], props);
    case OTyped(name, props) =>
      forall i | 0 <= i < |props| ensures SameForOrder(props[i].value) {
        OrderIsIrrelevant(props[i].value);
      }
      PropsSame(name, props);
  }

  lemma ElemsSame(elems: seq<Ordered<Leaf3>>)
    requires forall i | 0 <= i < |elems| :: SameForOrder(elems[i])
    ensures SameForOrder(OArr(elems))
  {
    hide EraseElems, KeptElems;
    forall i | 0 <= i < |elems|
      ensures EraseElems(elems)[i] == Erase(elems[i]) && KeptElems(elems)[i] == Kept(elems[i])
    {
      EraseElemsAt(elems, i);
      KeptElemsAt(elems, i);
    }
    hide Erase, Kept;
    ElemsConditions(elems);
    assert KeptValue(Arr(EraseElems(elems))).elems == KeptElems(elems);
    assert Erase(OArr(elems)) == Arr(EraseElems(elems)) && Kept(OArr(elems)) == Arr(KeptElems(elems)) by {
      ArrayErased(elems);
    }
  }

  lemma ArrayErased(elems: seq<Ordered<Leaf3>>)
    ensures Erase(OArr(elems)) == Arr(EraseElems(elems)) && Kept(OArr(elems)) == Arr(KeptElems(elems))
  {
  }

  lemma ElemsConditions(elems: seq<Ordered<Leaf3>>)
    requires forall i | 0 <= i < |elems| :: SameForOrder(elems[i])
    requires forall i | 0 <= i < |elems| :: EraseElems(elems)[i] == Erase(elems[i])
    ensures Fits(Arr(EraseElems(elems))) <==> Representable(OArr(elems))
    ensures PlainValue(Arr(EraseElems(elems))) <==> Plain(OArr(elems))
  {
    hide EraseElems, Erase, Kept, KeptValue;
  }

  lemma {:induction false} KeptElemsAt(elems: seq<Ordered<Leaf3>>, i: nat)
    requires i < |elems|
    ensures KeptElems(elems)[i] == Kept(elems[i])
  {
    hide Kept;
    if i > 0 {
      KeptElemsAt(elems[1..], i - 1);
    }
  }

  lemma PropsSame(name: Text, props: seq<Prop<Leaf3>>)
    requires Distinct(props) && forall i | 0 <= i < |props| :: SameForOrder(props[i].value)
    ensures SameForOrder(OObj(props)) && SameForOrder(OTyped(name, props))
  {
    hide Erase, EraseProps, Kept, KeptProps, Fits, PlainValue, KeptValue, Representable, Plain;
    SameProps(props);
    AsManyProps(props);
    PropsFitSame(name, props);
    PropsPlainSame(props);
    PropsKeptSame(props);
    ObjectErased(name, props);
    NoClassIsPlain(name, props);
  }

  lemma ObjectErased(name: Text, props: seq<Prop<Leaf3>>)
    ensures Erase(OObj(props)) == Obj(EraseProps(props)) && Kept(OObj(props)) == Obj(KeptProps(props))
    ensures Erase(OTyped(name, props)) == Typed(name, EraseProps(props))
    ensures Kept(OTyped(name, props)) == Obj(KeptProps(props))
    ensures KeptValue(Typed(name, EraseProps(props))) == KeptValue(Obj(EraseProps(props)))
  {
    hide EraseProps, KeptProps;
  }

  lemma NoClassIsPlain(name: Text, props: seq<Prop<Leaf3>>)
    ensures !Plain(OTyped(name, props)) && !PlainValue(Typed(name, EraseProps(props)))
  {
  }

  lemma PropsFitSame(name: Text, props: seq<Prop<Leaf3>>)
    requires Distinct(props) && |EraseProps(props)| == |props|
    requires forall i | 0 <= i < |props| :: Fits(Erase(props[i].value)) <==> Representable(props[i].value)
    ensures Fits(Obj(EraseProps(props))) <==> Representable(OObj(props))
    ensures Fits(Typed(name, EraseProps(props))) <==> Representable(OTyped(name, props))
  {
    hide Erase, EraseProps;
    EachPropFits(props);
    hide PropsFit;
  }

  lemma EachPropFits(props: seq<Prop<Leaf3>>)
    requires Distinct(props)
    requires forall i | 0 <= i < |props| :: Fits(Erase(props[i].value)) <==> Representable(props[i].value)
    ensures var m := EraseProps(props);
      (forall k | k in m :: |k| < TEXT_LIMIT && Fits(m[k])) <==> PropsFit(props)
  {
    hide Erase, EraseProps, Fits, Representable;
    SameProps(props);
  }

  lemma PropsPlainSame(props: seq<Prop<Leaf3>>)
    requires Distinct(props)
    requires forall i | 0 <= i < |props| :: PlainValue(Erase(props[i].value)) <==> Plain(props[i].value)
    ensures PlainValue(Obj(EraseProps(props))) <==> Plain(OObj(props))
  {
    hide Erase, EraseProps;
    SameProps(props);
  }

  lemma {:induction false} KeptPropsLookup(props: seq<Prop<Leaf3>>)
    requires Distinct(props)
    ensures KeptProps(props).Keys == Keys(props)
    ensures forall i | 0 <= i < |props| :: KeptProps(props)[props[i].key] == Kept(props[i].value)
  {
    hide Kept;
    if props != [] {
      var rest := props[1..];
      KeptPropsLookup(rest);
      FirstKey(props);
      forall i | 0 <= i < |props| ensures KeptProps(props)[props[i].key] == Kept(props[i].value) {
        assert i > 0 ==> rest[i - 1] == props[i] && props[i].key in Keys(rest);
      }
    }
  }

  lemma PropsKeptSame(props: seq<Prop<Leaf3>>)
    requires Distinct(props)
    requires forall i | 0 <= i < |props| :: KeptValue(Erase(props[i].value)) == Kept(props[i].value)
    ensures KeptValue(Obj(EraseProps(props))) == Obj(KeptProps(props))
  {
    hide Erase, EraseProps, Kept, KeptProps, KeptValue, Keys, Distinct;
    var m := EraseProps(props);
    ErasePropsKeys(props);
    KeptPropsLookup(props);
    forall k | k in m ensures KeptValue(m[k]) == KeptProps(props)[k] {
      KeptUnder(props, k);
    }
    EachKept(m, KeptProps(props));
  }

  lemma KeptUnder(props: seq<Prop<Leaf3>>, k: Text)
    requires Distinct(props) && k in EraseProps(props) && k in KeptProps(props)
    requires forall i | 0 <= i < |props| :: KeptValue(Erase(props[i].value)) == Kept(props[i].value)
    ensures KeptValue(EraseProps(props)[k]) == KeptProps(props)[k]
  {
    hide Erase, EraseProps, Kept, KeptProps, KeptValue, Distinct;
    SameProps(props);
    KeptPropsLookup(props);
    var i :| 0 <= i < |props| && props[i].key == k;
  }

  lemma EachKept(m: map<Text, Val3>, kept: map<Text, Val3>)
    requires m.Keys == kept.Keys && forall k | k in m :: KeptValue(m[k]) == kept[k]
    ensures KeptValue(Obj(m)) == Obj(kept)
  {
  }

  /** For every value that fits: whichever way its maps are walked, it is written as the same bytes,
      and these are read back, whatever the tables hold, as what the wire keeps of it, which is the
      value itself if and only if its integers are below 2^28 and it names no class. */
  lemma ValueRoundTrip(v: Val3, o: Ordered<Leaf3>, o': Ordered<Leaf3>, rest: seq<byte>, refs: Refs)
    requires Fits(v) && Sorted(o) && Erase(o) == v && Sorted(o') && Erase(o') == v
    ensures Encode(o) == Encode(o')
    ensures Decode(Encode(o) + rest, refs).r == Result(Done(KeptValue(v)), rest)
    ensures KeptValue(v) == v <==> PlainValue(v)
  {
    hide Encode, Decode;
    SortedUnique(o, o');
    SortedOnce(o);
    OrderIsIrrelevant(o);
    DecodesEncoded(o, rest, refs);
    KeptExactly(o);
  }

  /** The values of a batch, as what the wire keeps of each. */
  function KeptValues(vs: seq<Val3>): (s: seq<Val3>)
    ensures |s| == |vs|
  {
    seq(|vs|, i requires 0 <= i < |vs| => KeptValue(vs[i]))
  }

  /** The same for a batch of values: it comes back whole, and then the input is at its end. */
  lemma BatchOfValues(vs: seq<Val3>, os: seq<Ordered<Leaf3>>, refs: Refs)
    requires EraseElems(os) == vs && forall i | 0 <= i < |vs| :: Fits(vs[i])
    requires forall i | 0 <= i < |os| :: Sorted(os[i])
    ensures DecodeBatch(EncodeElems(os), refs) == Batch(KeptValues(vs), Eof, [])
  {
    hide Fits, Representable, DecodeBatch, EncodeElems, KeptValue, EraseElems, KeptElems, Erase, Kept, Sorted;
    forall i | 0 <= i < |os| ensures Representable(os[i]) && KeptElems(os)[i] == KeptValue(vs[i]) {
      EraseElemsAt(os, i);
      KeptElemsAt(os, i);
      SortedOnce(os[i]);
      OrderIsIrrelevant(os[i]);
    }
    BatchRoundTrip(os, refs);
    assert KeptElems(os) == KeptValues(vs);
  }
}
