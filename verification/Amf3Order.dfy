/** The order in which an object's properties are written: by name, byte by byte. It makes the
    encoding of a value unique. */
module Amf3Order {
  import opened Bytes
  import opened AmfValues

  /** a stands before b in a dictionary. */
  predicate Before(a: Text, b: Text) {
    b != [] && (a == [] || a[0] < b[0] || (a[0] == b[0] && Before(a[1..], b[1..])))
  }

  predicate Ascending(s: seq<Text>) {
    forall i, j | 0 <= i < j < |s| :: Before(s[i], s[j])
  }

  predicate PropsAscend<L>(props: seq<Prop<L>>) {
    forall i, j | 0 <= i < j < |props| :: Before(props[i].key, props[j].key)
  }

  predicate Sorted<L>(o: Ordered<L>)
    decreases o
  {
    match o
    case OLeaf(_) => true
    case OStr(_) => true
    case OArr(elems) => forall i | 0 <= i < |elems| :: Sorted(elems[i])
    case OObj(props) => PropsAscend(props) && forall i | 0 <= i < |props| :: Sorted(props[i].value)
    case OTyped(_, props) => PropsAscend(props) && forall i | 0 <= i < |props| :: Sorted(props[i].value)
  }

  lemma {:induction false} Irreflexive(a: Text)
    ensures !Before(a, a)
  {
    if a != [] {
      Irreflexive(a[1..]);
    }
  }

  lemma {:induction false} Transitive(a: Text, b: Text, c: Text)
    requires Before(a, b) && Before(b, c)
    ensures Before(a, c)
  {
    if a != [] && a[0] == b[0] == c[0] {
      Transitive(a[1..], b[1..], c[1..]);
    }
  }

  lemma {:induction false} Total(a: Text, b: Text)
    requires a != b
    ensures Before(a, b) || Before(b, a)
  {
    if a != [] && b != [] && a[0] == b[0] {
      assert a == [a[0]] + a[1..] && b == [b[0]] + b[1..];
      Total(a[1..], b[1..]);
    }
  }

  function Insert(s: seq<Text>, k: Text): (t: seq<Text>)
    ensures |t| == |s| + 1
  {
    if s == [] || Before(k, s[0]) then [k] + s else [s[0]] + Insert(s[1..], k)
  }

  lemma {:induction false} InsertSorts(s: seq<Text>, k: Text)
    requires Ascending(s) && k !in s
    ensures Ascending(Insert(s, k))
    ensures forall x :: x in Insert(s, k) <==> x == k || x in s
  {
    if s == [] {
    } else if Before(k, s[0]) {
      forall j | 0 < j < |s| ensures Before(k, s[j]) {
        Transitive(k, s[0], s[j]);
      }
    } else {
      Total(k, s[0]);
      InsertSorts(s[1..], k);
      var t := Insert(s[1..], k);
      forall j | 0 <= j < |t| ensures Before(s[0], t[j]) {
        assert t[j] in t;
      }
      assert s == [s[0]] + s[1..];
    }
  }

  /** The names in order, taken out of a map in any order. */
  method SortedKeys(keys: set<Text>) returns (s: seq<Text>)
    ensures Ascending(s) && |s| == |keys| && forall k :: k in s <==> k in keys
  {
    s := [];
    var todo := keys;
    while todo != {}
      invariant todo <= keys && Ascending(s) && |s| + |todo| == |keys|
      invariant forall k :: k in s <==> k in keys && k !in todo
    {
      var k :| k in todo;
      InsertSorts(s, k);
      s := Insert(s, k);
      todo := todo - {k};
    }
  }

  /** In the order of their names, properties are listed once. */
  lemma AscendingOnce<L>(props: seq<Prop<L>>)
    requires PropsAscend(props)
    ensures Distinct(props)
  {
    forall i, j | 0 <= i < j < |props| ensures props[i].key != props[j].key {
      Irreflexive(props[i].key);
    }
  }

  lemma {:induction false} SortedOnce<L>(o: Ordered<L>)
    requires Sorted(o)
    ensures Once(o)
    decreases o
  {
    match o
    case OLeaf(_) =>
    case OStr(_) =>
    case OArr(elems) =>
      forall i | 0 <= i < |elems| ensures Once(elems[i]) {
        SortedOnce(elems[i]);
      }
    case OObj(props) =>
      AscendingOnce(props);
      forall i | 0 <= i < |props| ensures Once(props[i].value) {
        SortedOnce(props[i].value);
      }
    case OTyped(_, props) =>
      AscendingOnce(props);
      forall i | 0 <= i < |props| ensures Once(props[i].value) {
        SortedOnce(props[i].value);
      }
  }

  /** A value has one sorted form, so it is always written as the same bytes. */
  lemma {:induction false} SortedUnique<L>(a: Ordered<L>, b: Ordered<L>)
    requires Sorted(a) && Sorted(b) && Erase(a) == Erase(b)
    ensures a == b
    decreases a
  {
    match a
    case OLeaf(_) =>
    case OStr(_) =>
    case OArr(elems) =>
      assert |EraseElems(elems)| == |EraseElems(b.elems)|;
      forall i | 0 <= i < |elems| ensures elems[i] == b.elems[i] {
        EraseElemsAt(elems, i);
        EraseElemsAt(b.elems, i);
        SortedUnique(elems[i], b.elems[i]);
      }
    case OObj(props) => PropsUnique(props, b.props);
    case OTyped(_, props) => PropsUnique(props, b.props);
  }

  lemma {:induction false} PropsUnique<L>(a: seq<Prop<L>>, b: seq<Prop<L>>)
    requires PropsAscend(a) && (forall i | 0 <= i < |a| :: Sorted(a[i].value))
    requires PropsAscend(b) && (forall i | 0 <= i < |b| :: Sorted(b[i].value))
    requires EraseProps(a) == EraseProps(b)
    ensures a == b
    decreases a
  {
    ErasePropsKeys(a);
    ErasePropsKeys(b);
    if a == [] || b == [] {
      SomeKey(a);
      SomeKey(b);
    } else {
      SameFirst(a, b);
      AscendingOnce(a);
      AscendingOnce(b);
      ErasePropsLookup(a, 0);
      ErasePropsLookup(b, 0);
      SortedUnique(a[0].value, b[0].value);
      ErasePropsTail(a);
      ErasePropsTail(b);
      PropsUnique(a[1..], b[1..]);
      assert a == [a[0]] + a[1..] && b == [b[0]] + b[1..];
    }
  }

  lemma SomeKey<L>(props: seq<Prop<L>>)
    ensures Keys(props) == {} <==> props == []
  {
    if props != [] {
      assert props[0].key in Keys(props);
    }
  }

  lemma SameFirst<L>(a: seq<Prop<L>>, b: seq<Prop<L>>)
    requires PropsAscend(a) && PropsAscend(b) && a != [] && b != [] && Keys(a) == Keys(b)
    ensures a[0].key == b[0].key
  {
    if a[0].key != b[0].key {
      assert a[0].key in Keys(b) && b[0].key in Keys(a);
      var i :| 0 <= i < |b| && b[i].key == a[0].key;
      var j :| 0 <= j < |a| && a[j].key == b[0].key;
      Transitive(a[0].key, b[0].key, a[0].key);
      Irreflexive(a[0].key);
    }
  }

  lemma ErasePropsTail<L>(props: seq<Prop<L>>)
    requires props != [] && Distinct(props)
    ensures EraseProps(props[1..]) == EraseProps(props) - {props[0].key}
  {
    ErasePropsKeys(props[1..]);
    assert props[0].key !in Keys(props[1..]);
  }
}
