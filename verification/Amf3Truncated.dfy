/** Values that break off. The decoder takes whatever is there of a string and fills it up with zeros,
    so a value may be read from a part of its bytes: exactly when the break is within the last string. */
module Amf3Truncated {
  import opened Bytes
  import opened AmfValues
  import opened AmfIO
  import opened Amf3Format

  /** The length of the string with which the written value ends, zero if it ends otherwise. */
  function LastText(o: Ordered<Leaf3>): nat
    decreases o
  {
    match o
    case OLeaf(_) => 0
    case OStr(text) => |text|
    case OArr(elems) => LastOfElems(elems)
    case OObj(props) => LastOfProps([], props)
    case OTyped(name, props) => LastOfProps(name, props)
  }

  function LastOfElems(elems: seq<Ordered<Leaf3>>): nat
    decreases elems
  {
    if elems == [] then 0 else if |elems| == 1 then LastText(elems[0]) else LastOfElems(elems[1..])
  }

  function LastOfProps(name: Text, props: seq<Prop<Leaf3>>): nat
    decreases props
  {
    if props == [] then |name|
    else if |props| == 1 then LastText(props[0].value) else LastOfProps(name, props[1..])
  }

  /** Reading s succeeds exactly if `good`, and then nothing is left. */
  ghost predicate ReadsIf<T>(d: Read<T>, good: bool) {
    (d.r.out.Done? <==> good) && (d.r.out.Done? ==> d.r.rest == [])
  }

  // ----- Numbers and strings --------------------------------------------------------------------

  lemma {:induction false} NoLastByte(s: seq<byte>, i: nat, acc: nat)
    requires i + |s| <= 3 && forall k | 0 <= k < |s| :: s[k] >= 0x80
    ensures ReadU29From(s, i, acc).out.Failed?
    decreases |s|
  {
    if s != [] {
      assert s == [s[0]] + s[1..];
      ReadNextByte(s[0], s[1..], i, acc);
      NoLastByte(s[1..], i + 1, acc * 0x80 + s[0] - 0x80);
    }
  }

  lemma U29Cut(v: nat, j: nat)
    requires v < U29_LIMIT && j < |U29(v)|
    ensures ReadU29(U29(v)[..j]).out.Failed?
  {
    var s := U29(v)[..j];
    assert forall k | 0 <= k < |s| :: s[k] == U29(v)[k] >= 0x80;
    NoLastByte(s, 0, 0);
  }

  lemma CodeCut(v: nat, rest: seq<byte>, j: nat)
    requires v < U29_LIMIT && j <= |Code(v) + rest|
    ensures j < |Code(v)| ==> ReadU29((Code(v) + rest)[..j]).out.Failed?
    ensures j >= |Code(v)| ==> ReadU29((Code(v) + rest)[..j]) == Result(Done(v), rest[..j - |Code(v)|])
  {
    hide U29, ReadU29;
    if j < |Code(v)| {
      assert (Code(v) + rest)[..j] == U29(v)[..j];
      U29Cut(v, j);
    } else {
      assert (Code(v) + rest)[..j] == Code(v) + rest[..j - |Code(v)|];
      CodeReads(v, rest[..j - |Code(v)|]);
    }
  }

  lemma Utf8Cut(text: Text, j: nat, refs: Refs)
    requires |text| < TEXT_LIMIT && j < |Utf8(text)|
    ensures ReadsIf(ReadString(Utf8(text)[..j], refs), j + |text| > |Utf8(text)|)
  {
    hide ReadU29, Code;
    var code := LengthCode(|text|);
    assert code == 2 * |text| + 1;
    CodeCut(code, text, j);
  }

  lemma NoStrings(n: nat, refs: Refs)
    ensures n > 0 ==> ReadStrings([], refs, n).r.out.Failed? && ReadString([], refs).r.out.Failed?
  {
  }

  lemma {:induction false} Utf8sCut(texts: seq<Text>, j: nat, refs: Refs)
    requires forall i | 0 <= i < |texts| :: |texts[i]| < TEXT_LIMIT
    requires j < |Utf8s(texts)|
    ensures var d := ReadStrings(Utf8s(texts)[..j], refs, |texts|);
      d.r.out.Done? ==> d.r.rest == []
    decreases |texts|
  {
    hide ReadString, Utf8;
    var first, more := Utf8(texts[0]), Utf8s(texts[1..]);
    if j < |first| {
      assert Utf8s(texts)[..j] == first[..j];
      Utf8Cut(texts[0], j, refs);
      var d := ReadString(first[..j], refs);
      NoStrings(|texts| - 1, d.refs);
    } else {
      assert Utf8s(texts)[..j] == first + more[..j - |first|];
      StringReads(texts[0], more[..j - |first|], refs);
      Utf8sCut(texts[1..], j - |first|, ReadString(first + more[..j - |first|], refs).refs);
    }
  }

  // ----- Values ---------------------------------------------------------------------------------

  /** The last string is no longer than the value. */
  lemma {:induction false} LastTextFits(o: Ordered<Leaf3>)
    requires Representable(o)
    ensures LastText(o) < |Encode(o)|
    decreases o, 1
  {
    hide EncodeElems, EncodeValues, LastOfElems, LastOfProps, Utf8s, U29, FloatBits;
    match o
    case OLeaf(_) =>
    case OStr(_) =>
    case OArr(elems) => LastOfElemsFits(elems);
    case OObj(props) => LastOfPropsFits([], props);
    case OTyped(name, props) => LastOfPropsFits(name, props);
  }

  lemma {:induction false} LastOfElemsFits(elems: seq<Ordered<Leaf3>>)
    requires forall i | 0 <= i < |elems| :: Representable(elems[i])
    ensures LastOfElems(elems) <= |EncodeElems(elems)|
    decreases elems, 0
  {
    hide Encode, LastText, Representable;
    if elems != [] {
      LastTextFits(elems[0]);
      LastOfElemsFits(elems[1..]);
    }
  }

  lemma {:induction false} LastOfPropsFits(name: Text, props: seq<Prop<Leaf3>>)
    requires PropsFit(props)
    ensures LastOfProps(name, props) <= |Utf8(name)| + |EncodeValues(props)|
    ensures props != [] ==> LastOfProps(name, props) <= |EncodeValues(props)|
    decreases props, 0
  {
    hide Encode, LastText, Representable;
    if props != [] {
      LastTextFits(props[0].value);
      LastOfPropsFits(name, props[1..]);
    }
  }

  lemma NothingDecodes(refs: Refs, n: nat)
    ensures Decode([], refs).r.out.Failed?
    ensures n > 0 ==> DecodeElems([], refs, n).r.out.Failed?
  {
  }

  lemma NothingSealed(refs: Refs, names: seq<Text>)
    ensures names != [] ==> DecodeSealed([], refs, names).r.out.Failed?
    ensures names == [] ==> DecodeSealed([], refs, names).r == Result(Done(map[]), [])
  {
  }

  lemma LeafCut(leaf: Leaf3, j: nat, refs: Refs)
    requires j < |EncodeLeaf(leaf)|
    ensures Decode(EncodeLeaf(leaf)[..j], refs).r.out.Failed?
  {
    hide U29, ReadU29, FloatBits, ReadString, DecodeArray, DecodeObject;
    var s := EncodeLeaf(leaf)[..j];
    if j > 0 {
      assert s[0] == EncodeLeaf(leaf)[0];
      match leaf
      case Null =>
      case Boolean(_) =>
      case Int(n) =>
        if 0 <= n < U29_LIMIT {
          assert s[1..] == U29(n)[..j - 1];
          U29Cut(n, j - 1);
        } else {
          assert |s[1..]| < 8;
        }
      case Number(bits) => assert |s[1..]| < 8;
    }
  }

  /** A proper part of the bytes of a value is read as a value if and only if it breaks off within the
      string with which the value ends, after its first byte; then all of it is consumed. */
  lemma {:induction false} CutExactly(o: Ordered<Leaf3>, j: nat, refs: Refs)
    requires Representable(o) && j < |Encode(o)|
    ensures ReadsIf(Decode(Encode(o)[..j], refs), j + LastText(o) > |Encode(o)|)
    decreases o, 2
  {
    hide EncodeElems, EncodeValues, TraitBytes, LastOfElems, LastOfProps, DecodeArray, DecodeObject, ReadString,
         Utf8, Code, ReadInteger, ReadDouble, PropsFit;
    LastTextFits(o);
    var s := Encode(o)[..j];
    if j > 0 {
      var t := Encode(o)[1..][..j - 1];
      assert s[0] == Encode(o)[0] && s[1..] == t;
      match o
      case OLeaf(leaf) => LeafCut(leaf, j, refs);
      case OStr(text) => Utf8Cut(text, j - 1, refs);
      case OArr(elems) =>
        assert Encode(o)[1..] == Code(LengthCode(|elems|)) + (Utf8([]) + EncodeElems(elems));
        ArrayCut(elems, j - 1, refs);
      case OObj(props) =>
        assert Encode(o)[1..] == TraitBytes([], props) + EncodeValues(props);
        ObjectCut([], props, j - 1, refs);
      case OTyped(name, props) =>
        assert Encode(o)[1..] == TraitBytes(name, props) + EncodeValues(props);
        ObjectCut(name, props, j - 1, refs);
    }
  }

  lemma {:induction false} ArrayCut(elems: seq<Ordered<Leaf3>>, j: nat, refs: Refs)
    requires |elems| < TEXT_LIMIT && forall i | 0 <= i < |elems| :: Representable(elems[i])
    requires j < |Code(LengthCode(|elems|)) + (Utf8([]) + EncodeElems(elems))|
    ensures var all := Code(LengthCode(|elems|)) + (Utf8([]) + EncodeElems(elems));
      ReadsIf(DecodeArray(all[..j], refs), j + LastOfElems(elems) > |all|)
    decreases elems, 1
  {
    hide ReadU29, ReadString, EncodeElems, Utf8, Code, LastOfElems, DecodeElems, Representable;
    var code, body := Code(LengthCode(|elems|)), EncodeElems(elems);
    CodeCut(LengthCode(|elems|), Utf8([]) + body, j);
    LastOfElemsFits(elems);
    OneByte();
    if j >= |code| {
      var i := j - |code|;
      var rest := (Utf8([]) + body)[..i];
      if i == 0 {
        NoStrings(1, refs);
      } else {
        assert rest == Utf8([]) + body[..i - 1];
        StringReads([], body[..i - 1], refs);
        ElemsCut(elems, i - 1, ReadString(rest, refs).refs);
      }
    }
  }

  lemma OneByte()
    ensures |Utf8([])| == 1
  {
  }

  lemma {:induction false} ElemsCut(elems: seq<Ordered<Leaf3>>, j: nat, refs: Refs)
    requires forall i | 0 <= i < |elems| :: Representable(elems[i])
    requires j < |EncodeElems(elems)|
    ensures ReadsIf(DecodeElems(EncodeElems(elems)[..j], refs, |elems|),
                    j + LastOfElems(elems) > |EncodeElems(elems)|)
    decreases elems, 0
  {
    hide Decode, Encode, LastText, Representable;
    var first, more := Encode(elems[0]), EncodeElems(elems[1..]);
    LastOfElemsFits(elems[1..]);
    if j < |first| {
      assert EncodeElems(elems)[..j] == first[..j];
      CutExactly(elems[0], j, refs);
      NothingDecodes(Decode(first[..j], refs).refs, |elems| - 1);
    } else {
      assert EncodeElems(elems)[..j] == first + more[..j - |first|];
      DecodesEncoded(elems[0], more[..j - |first|], refs);
      ElemsCut(elems[1..], j - |first|, Decode(first + more[..j - |first|], refs).refs);
    }
  }

  lemma {:induction false} SealedCut(props: seq<Prop<Leaf3>>, j: nat, refs: Refs)
    requires PropsFit(props) && j < |EncodeValues(props)|
    ensures ReadsIf(DecodeSealed(EncodeValues(props)[..j], refs, KeyList(props)),
                    j + LastOfProps([], props) > |EncodeValues(props)|)
    decreases props, 0
  {
    hide Decode, Encode, LastText, Representable;
    var p, rest := props[0], props[1..];
    var first, more := Encode(p.value), EncodeValues(rest);
    LastOfPropsFits([], rest);
    assert KeyList(props)[1..] == KeyList(rest);
    if j < |first| {
      assert EncodeValues(props)[..j] == first[..j];
      CutExactly(p.value, j, refs);
      NothingSealed(Decode(first[..j], refs).refs, KeyList(rest));
    } else {
      assert EncodeValues(props)[..j] == first + more[..j - |first|];
      DecodesEncoded(p.value, more[..j - |first|], refs);
      SealedCut(rest, j - |first|, Decode(first + more[..j - |first|], refs).refs);
    }
  }

  /** The trait is cut: it can be read only if it ends with the name of the class. */
  lemma TraitCut(name: Text, keys: seq<Text>, j: nat, refs: Refs)
    requires |name| < TEXT_LIMIT && forall i | 0 <= i < |keys| :: |keys[i]| < TEXT_LIMIT
    requires j < |Utf8(name) + Utf8s(keys)|
    ensures var d := ReadTrait((Utf8(name) + Utf8s(keys))[..j], 8 * |keys| + 1, refs);
      && (d.r.out.Done? ==> d.r.rest == [] && d.r.out.value == Trait(d.r.out.value.name, false, false, d.r.out.value.properties)
                            && |d.r.out.value.properties| == |keys|)
      && (keys == [] ==> (d.r.out.Done? <==> j + |name| > |Utf8(name)|))
  {
    hide ReadString, ReadStrings, Utf8, Utf8s;
    TraitMarks(|keys|);
    var s := (Utf8(name) + Utf8s(keys))[..j];
    if j < |Utf8(name)| {
      assert s == Utf8(name)[..j];
      Utf8Cut(name, j, refs);
      NoStrings(|keys|, ReadString(s, refs).refs);
      NoKeys(ReadString(s, refs).refs);
    } else {
      var i := j - |Utf8(name)|;
      assert s == Utf8(name) + Utf8s(keys)[..i];
      StringReads(name, Utf8s(keys)[..i], refs);
      Utf8sCut(keys, i, ReadString(s, refs).refs);
      SomeKeys(keys);
    }
  }

  lemma NoKeys(refs: Refs)
    ensures ReadStrings([], refs, 0).r == Result(Done([]), [])
  {
  }

  lemma SomeKeys(keys: seq<Text>)
    ensures keys == [] ==> Utf8s(keys) == []
  {
  }

  lemma {:induction false} ObjectCut(name: Text, props: seq<Prop<Leaf3>>, j: nat, refs: Refs)
    requires |name| < TEXT_LIMIT && |props| < PROPS_LIMIT && PropsFit(props)
    requires j < |TraitBytes(name, props) + EncodeValues(props)|
    ensures var all := TraitBytes(name, props) + EncodeValues(props);
      ReadsIf(DecodeObject(all[..j], refs), j + LastOfProps(name, props) > |all|)
    decreases props, 1
  {
    hide ReadU29, ReadTrait, TraitBytes, Utf8, Utf8s, EncodeValues, DecodeSealed, DecodeDynamic, KeyList, LastOfProps,
         PropsFit;
    TraitCodeMarks(|props|);
    hide TraitCode, Code;
    var code, names, values := Code(TraitCode(|props|)), Utf8(name) + Utf8s(KeyList(props)), EncodeValues(props);
    assert TraitBytes(name, props) == code + names by { TraitParts(name, props); }
    Regroup(code, names, values);
    CodeCut(TraitCode(|props|), names + values, j);
    LastOfPropsFits(name, props);
    if j >= |code| {
      CutBehindCode(name, props, j - |code|, refs);
    }
  }

  lemma TraitParts(name: Text, props: seq<Prop<Leaf3>>)
    ensures TraitBytes(name, props) == Code(TraitCode(|props|)) + (Utf8(name) + Utf8s(KeyList(props)))
  {
  }

  lemma TraitCodeMarks(n: nat)
    requires n < PROPS_LIMIT
    ensures TraitCode(n) < U29_LIMIT && TraitCode(n) % 2 == 1 && TraitCode(n) / 2 == 8 * n + 1
  {
    TraitCodeValue(n);
    assert TraitCode(n) == 2 * (8 * n + 1) + 1;
    hide TraitCode;
    Halved(8 * n + 1);
  }

  lemma Halved(m: nat)
    ensures (2 * m + 1) % 2 == 1 && (2 * m + 1) / 2 == m
  {
  }

  /** What the object decoder does behind the number of properties. */
  function AfterCode(s: seq<byte>, n: nat, refs: Refs): Read<Val3> {
    var t := ReadTrait(s, 8 * n + 1, refs);
    if t.r.out.Failed? then Fail(t.r.out.error, t.r.rest, t.refs)
    else DecodeProps(t.r.rest, t.refs.(objects := t.refs.objects + [Leaf(Null)]), t.r.out.value)
  }

  lemma {:induction false} CutBehindCode(name: Text, props: seq<Prop<Leaf3>>, j: nat, refs: Refs)
    requires |name| < TEXT_LIMIT && |props| < PROPS_LIMIT && PropsFit(props)
    requires j < |Utf8(name) + Utf8s(KeyList(props)) + EncodeValues(props)|
    ensures var all := Utf8(name) + Utf8s(KeyList(props)) + EncodeValues(props);
      ReadsIf(AfterCode(all[..j], |props|, refs), j + LastOfProps(name, props) > |all|)
    decreases props, 1, 0
  {
    hide ReadTrait, Utf8, Utf8s, EncodeValues, DecodeSealed, DecodeDynamic, LastOfProps;
    var names, values := Utf8(name) + Utf8s(KeyList(props)), EncodeValues(props);
    var s := (names + values)[..j];
    LastOfPropsFits(name, props);
    NoProperties(name, props);
    if j < |names| {
      assert s == names[..j];
      TraitCut(name, KeyList(props), j, refs);
      var t := ReadTrait(s, 8 * |props| + 1, refs);
      if t.r.out.Done? {
        NothingSealed(t.refs.(objects := t.refs.objects + [Leaf(Null)]), t.r.out.value.properties);
      }
    } else {
      assert s == names + values[..j - |names|];
      TraitReads(name, KeyList(props), values[..j - |names|], refs);
      var t := ReadTrait(s, 8 * |props| + 1, refs);
      SealedCut(props, j - |names|, t.refs.(objects := t.refs.objects + [Leaf(Null)]));
    }
  }

  lemma {:induction false} NoProperties(name: Text, props: seq<Prop<Leaf3>>)
    ensures props == [] ==> EncodeValues(props) == [] && Utf8s(KeyList(props)) == [] && LastOfProps(name, props) == |name|
    ensures props != [] ==> LastOfProps(name, props) == LastOfProps([], props)
    decreases props
  {
    if props != [] {
      NoProperties(name, props[1..]);
    }
  }
}
