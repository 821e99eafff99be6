/** The values both codecs carry. L is the type of the values without parts. A value holds its
    properties in a map; an ordered value lists them in the order in which they are written. */
module AmfValues {
  import opened Bytes

  type Text = seq<byte>

  datatype Value<+L> =
    | Leaf(leaf: L)
    | Str(text: Text)
    | Arr(elems: seq<Value<L>>)
    | Obj(props: map<Text, Value<L>>)
    | Typed(name: Text, props: map<Text, Value<L>>)

  datatype Prop<+L> = Prop(key: Text, value: Ordered<L>)

  datatype Ordered<+L> =
    | OLeaf(leaf: L)
    | OStr(text: Text)
    | OArr(elems: seq<Ordered<L>>)
    | OObj(props: seq<Prop<L>>)
    | OTyped(name: Text, props: seq<Prop<L>>)

  /** The value without the order of its properties. */
  function Erase<L>(o: Ordered<L>): Value<L>
    decreases o
  {
    match o
    case OLeaf(leaf) => Leaf(leaf)
    case OStr(text) => Str(text)
    case OArr(elems) => Arr(EraseElems(elems))
    case OObj(props) => Obj(EraseProps(props))
    case OTyped(name, props) => Typed(name, EraseProps(props))
  }

  function EraseElems<L>(elems: seq<Ordered<L>>): (s: seq<Value<L>>)
    ensures |s| == |elems|
    decreases elems
  {
    if elems == [] then [] else [Erase(elems[0])] + EraseElems(elems[1..])
  }

  /** A later property replaces an earlier one of the same name. */
  function EraseProps<L>(props: seq<Prop<L>>): map<Text, Value<L>>
    decreases props
  {
    if props == [] then map[] else map[props[0].key := Erase(props[0].value)] + EraseProps(props[1..])
  }

  function Keys<L>(props: seq<Prop<L>>): set<Text> {
    set i | 0 <= i < |props| :: props[i].key
  }

  /** No property is listed twice. */
  predicate Distinct<L>(props: seq<Prop<L>>) {
    forall i, j | 0 <= i < j < |props| :: props[i].key != props[j].key
  }

  /** No property is listed twice, here or further down. */
  predicate Once<L>(o: Ordered<L>)
    decreases o
  {
    match o
    case OLeaf(_) => true
    case OStr(_) => true
    case OArr(elems) => forall i | 0 <= i < |elems| :: Once(elems[i])
    case OObj(props) => Distinct(props) && forall i | 0 <= i < |props| :: Once(props[i].value)
    case OTyped(_, props) => Distinct(props) && forall i | 0 <= i < |props| :: Once(props[i].value)
  }

  lemma {:induction false} EraseElemsAppend<L>(elems: seq<Ordered<L>>, o: Ordered<L>)
    ensures EraseElems(elems + [o]) == EraseElems(elems) + [Erase(o)]
  {
    if elems == [] {
      assert elems + [o] == [o] && [o][1..] == [];
    } else {
      assert (elems + [o])[1..] == elems[1..] + [o];
      EraseElemsAppend(elems[1..], o);
    }
  }

  lemma {:induction false} ErasePropsAppend<L>(props: seq<Prop<L>>, p: Prop<L>)
    ensures EraseProps(props + [p]) == EraseProps(props)[p.key := Erase(p.value)]
  {
    if props == [] {
      assert props + [p] == [p] && [p][1..] == [];
    } else {
      assert (props + [p])[1..] == props[1..] + [p];
      ErasePropsAppend(props[1..], p);
    }
  }

  lemma {:induction false} ErasePropsKeys<L>(props: seq<Prop<L>>)
    ensures EraseProps(props).Keys == Keys(props)
  {
    if props != [] {
      ErasePropsKeys(props[1..]);
      FirstKey(props);
    }
  }

  /** Without repeated names every property keeps its own value. */
  lemma {:induction false} ErasePropsLookup<L>(props: seq<Prop<L>>, i: nat)
    requires Distinct(props) && i < |props|
    ensures props[i].key in EraseProps(props) && EraseProps(props)[props[i].key] == Erase(props[i].value)
  {
    if i > 0 {
      assert Distinct(props[1..]) && props[1..][i - 1] == props[i];
      ErasePropsLookup(props[1..], i - 1);
    } else {
      ErasePropsKeys(props[1..]);
      assert props[0].key !in Keys(props[1..]);
    }
  }

  lemma {:induction false} EraseElemsAt<L>(elems: seq<Ordered<L>>, i: nat)
    requires i < |elems|
    ensures EraseElems(elems)[i] == Erase(elems[i])
  {
    if i > 0 {
      EraseElemsAt(elems[1..], i - 1);
    }
  }

  /** The properties of the value are those that are listed. */
  lemma SameProps<L>(props: seq<Prop<L>>)
    requires Distinct(props)
    ensures forall i | 0 <= i < |props| ::
              props[i].key in EraseProps(props) && EraseProps(props)[props[i].key] == Erase(props[i].value)
    ensures forall k | k in EraseProps(props) :: exists i :: 0 <= i < |props| && props[i].key == k
  {
    hide Erase, EraseProps;
    forall i | 0 <= i < |props|
      ensures props[i].key in EraseProps(props) && EraseProps(props)[props[i].key] == Erase(props[i].value)
    {
      ErasePropsLookup(props, i);
    }
    ErasePropsKeys(props);
  }

  lemma FirstKey<L>(props: seq<Prop<L>>)
    requires props != []
    ensures Keys(props) == {props[0].key} + Keys(props[1..])
    ensures Distinct(props) ==> props[0].key !in Keys(props[1..])
  {
    forall k | k in Keys(props) ensures k in {props[0].key} + Keys(props[1..]) {
      var i :| 0 <= i < |props| && props[i].key == k;
      assert i > 0 ==> props[1..][i - 1].key == k;
    }
    forall k | k in Keys(props[1..]) ensures k in Keys(props) {
      var i :| 0 <= i < |props[1..]| && props[1..][i].key == k;
      assert props[i + 1].key == k;
    }
  }

  lemma {:induction false} AsManyKeys<L>(props: seq<Prop<L>>)
    requires Distinct(props)
    ensures |Keys(props)| == |props|
  {
    if props != [] {
      AsManyKeys(props[1..]);
      FirstKey(props);
      hide Keys;
    } else {
      assert Keys(props) == {};
    }
  }

  lemma AsManyProps<L>(props: seq<Prop<L>>)
    requires Distinct(props)
    ensures |EraseProps(props)| == |props|
  {
    hide EraseProps, Keys;
    ErasePropsKeys(props);
    AsManyKeys(props);
    assert |EraseProps(props)| == |EraseProps(props).Keys|;
  }
}
