/**
 The packer that writes values shallowly, and the token writer below it that checks the
 declared sizes.
 */
module ObjectsPacker {
  import opened Wrappers
  import opened Documents
  import opened ShallowView

  // ---------------------------------------------------------------- the token writer

  // An open map or array, and how many items it still expects.
  datatype Level = Level(isMap: bool, remaining: nat)

  predicate Room(stack: seq<Level>, n: nat) {
    stack == [] || stack[|stack| - 1].remaining >= n
  }

  function Taken(stack: seq<Level>, n: nat): (r: seq<Level>)
    requires Room(stack, n)
  {
    if stack == [] then []
    else stack[..|stack| - 1] + [stack[|stack| - 1].(remaining := stack[|stack| - 1].remaining - n)]
  }

  // The documents were written completely, and the enclosing level expects that many fewer.
  ghost predicate Wrote(t0: seq<Token>, s0: seq<Level>, t1: seq<Token>, s1: seq<Level>, docs: seq<Doc>) {
    Room(s0, |docs|) && t1 == t0 + FlattenAll(docs) && s1 == Taken(s0, |docs|)
  }

  lemma WroteNothing(t: seq<Token>, s: seq<Level>)
    ensures Wrote(t, s, t, s, [])
  {
  }

  lemma WroteOne(t: seq<Token>, s: seq<Level>, d: Doc)
    requires Room(s, 1)
    ensures Wrote(t, s, t + Flatten(d), Taken(s, 1), [d])
  {
    FlattenOne(d);
  }

  lemma WroteThen(t0: seq<Token>, s0: seq<Level>, t1: seq<Token>, s1: seq<Level>, t2: seq<Token>, s2: seq<Level>,
                  a: seq<Doc>, b: seq<Doc>)
    requires Wrote(t0, s0, t1, s1, a)
    ensures Room(s1, |b|) <==> Room(s0, |a + b|)
    ensures Wrote(t1, s1, t2, s2, b) ==> Wrote(t0, s0, t2, s2, a + b)
  {
    hide FlattenAll;
    FlattenAppends(a, b);
    TakenTwice(s0, |a|, |b|);
    assert t0 + FlattenAll(a) + FlattenAll(b) == t0 + (FlattenAll(a) + FlattenAll(b));
  }

  lemma TakenTwice(s: seq<Level>, a: nat, b: nat)
    requires Room(s, a)
    ensures Room(Taken(s, a), b) <==> Room(s, a + b)
    ensures Room(s, a + b) ==> Taken(Taken(s, a), b) == Taken(s, a + b)
  {
  }

  // A map written between its begin and its end.
  lemma WroteMap(t0: seq<Token>, s0: seq<Level>, size: nat, t1: seq<Token>, s1: seq<Level>, items: seq<Doc>)
    requires Room(s0, 1)
    requires Wrote(t0 + [MapBegin(size)], Taken(s0, 1) + [Level(true, 2 * size)], t1, s1, items)
    ensures |s1| > 0 && s1[|s1| - 1] == Level(true, 2 * size - |items|) && s1[..|s1| - 1] == Taken(s0, 1)
    ensures |items| == 2 * size ==> Wrote(t0, s0, t1 + [MapEnd], Taken(s0, 1), [Dict(items)])
  {
    var f := FlattenAll(items);
    assert |items| == 2 * size ==> Flatten(Dict(items)) == [MapBegin(size)] + f + [MapEnd];
    hide FlattenAll;
    hide Flatten;
    FlattenOne(Dict(items));
    assert t1 + [MapEnd] == t0 + ([MapBegin(size)] + f + [MapEnd]);
  }

  lemma WroteList(t0: seq<Token>, s0: seq<Level>, size: nat, t1: seq<Token>, s1: seq<Level>, items: seq<Doc>)
    requires Room(s0, 1)
    requires Wrote(t0 + [ArrayBegin(size)], Taken(s0, 1) + [Level(false, size)], t1, s1, items)
    ensures |s1| > 0 && s1[|s1| - 1] == Level(false, size - |items|) && s1[..|s1| - 1] == Taken(s0, 1)
    ensures |items| == size ==> Wrote(t0, s0, t1 + [ArrayEnd], Taken(s0, 1), [List(items)])
  {
    var f := FlattenAll(items);
    assert |items| == size ==> Flatten(List(items)) == [ArrayBegin(size)] + f + [ArrayEnd];
    hide FlattenAll;
    hide Flatten;
    FlattenOne(List(items));
    assert t1 + [ArrayEnd] == t0 + ([ArrayBegin(size)] + f + [ArrayEnd]);
  }

  // Every method answers false where the source throws.
  class JSONPacker {
    // everything up to the last line end, and the line after it
    var out: seq<Write>
    var tokens: seq<Token>
    var stack: seq<Level>

    constructor ()
      ensures out == [] && tokens == [] && stack == []
    {
      out, tokens, stack := [], [], [];
    }

    function Stream(): seq<Write>
      reads this
    {
      out + Items(tokens)
    }

    method EndJSONLine()
      modifies this`out, this`tokens
      ensures Stream() == old(Stream()) + [LineEnd] && tokens == []
    {
      out := out + Items(tokens) + [LineEnd];
      tokens := [];
    }

    // An item more than declared is an error, noticed after it is written.
    method Item(t: Token) returns (ok: bool)
      modifies this`tokens, this`stack
      ensures tokens == old(tokens) + [t]
      ensures ok <==> Room(old(stack), 1)
      ensures ok ==> stack == Taken(old(stack), 1)
    {
      tokens := tokens + [t];
      ok := stack == [] || stack[|stack| - 1].remaining > 0;
      if ok && stack != [] {
        var top := stack[|stack| - 1];
        stack := stack[..|stack| - 1] + [top.(remaining := top.remaining - 1)];
      }
    }

    method Write(s: JsonScalar) returns (ok: bool)
      modifies this`tokens, this`stack
      ensures old(tokens) <= tokens
      ensures ok <==> Room(old(stack), 1)
      ensures ok ==> Wrote(old(tokens), old(stack), tokens, stack, [Leaf(s)])
    {
      ok := Item(Plain(s));
      if ok { WroteOne(old(tokens), old(stack), Leaf(s)); }
    }

    method WriteNil() returns (ok: bool)
      modifies this`tokens, this`stack
      ensures old(tokens) <= tokens
      ensures ok <==> Room(old(stack), 1)
      ensures ok ==> Wrote(old(tokens), old(stack), tokens, stack, [NilDoc])
    {
      ok := Item(Nil);
      if ok { WroteOne(old(tokens), old(stack), NilDoc); }
    }

    // A string that may be null.
    method WriteString(s: Option<string>) returns (ok: bool)
      modifies this`tokens, this`stack
      ensures old(tokens) <= tokens
      ensures ok <==> Room(old(stack), 1)
      ensures ok ==> Wrote(old(tokens), old(stack), tokens, stack, [TextOrNil(s)])
    {
      if s.Some? {
        ok := Write(Text(s.value));
      } else {
        ok := WriteNil();
      }
    }

    // A key and a plain value.
    method WriteEntry(key: string, s: JsonScalar) returns (ok: bool)
      modifies this`tokens, this`stack
      ensures old(tokens) <= tokens
      ensures ok <==> Room(old(stack), 2)
      ensures ok ==> Wrote(old(tokens), old(stack), tokens, stack, [TextDoc(key), Leaf(s)])
    {
      hide FlattenAll;
      ok := Write(Text(key));
      if !ok { return; }
      ghost var t, st := tokens, stack;
      ok := Write(s);
      WroteThen(old(tokens), old(stack), t, st, tokens, stack, [TextDoc(key)], [Leaf(s)]);
      assert [TextDoc(key)] + [Leaf(s)] == [TextDoc(key), Leaf(s)];
    }

    method WriteMapBegin(size: nat) returns (ok: bool)
      modifies this`tokens, this`stack
      ensures tokens == old(tokens) + [MapBegin(size)]
      ensures ok <==> Room(old(stack), 1)
      ensures ok ==> stack == Taken(old(stack), 1) + [Level(true, 2 * size)]
    {
      ok := Item(MapBegin(size));
      stack := stack + [Level(true, 2 * size)];
    }

    method WriteMapEnd() returns (ok: bool)
      modifies this`tokens, this`stack
      ensures old(tokens) <= tokens
      ensures ok <==> old(stack) != [] && old(stack)[|old(stack)| - 1] == Level(true, 0)
      ensures ok ==> stack == old(stack)[..|old(stack)| - 1] && tokens == old(tokens) + [MapEnd]
    {
      ok := stack != [] && stack[|stack| - 1] == Level(true, 0);
      if ok {
        stack := stack[..|stack| - 1];
        tokens := tokens + [MapEnd];
      }
    }

    method WriteArrayBegin(size: nat) returns (ok: bool)
      modifies this`tokens, this`stack
      ensures tokens == old(tokens) + [ArrayBegin(size)]
      ensures ok <==> Room(old(stack), 1)
      ensures ok ==> stack == Taken(old(stack), 1) + [Level(false, size)]
    {
      ok := Item(ArrayBegin(size));
      stack := stack + [Level(false, size)];
    }

    // When sizes are not enforced, nil takes the place of every missing element.
    method WriteArrayEnd(check: bool) returns (ok: bool)
      modifies this`tokens, this`stack
      ensures old(tokens) <= tokens
      ensures ok <==> old(stack) != [] && !old(stack)[|old(stack)| - 1].isMap && (check ==> old(stack)[|old(stack)| - 1].remaining == 0)
      ensures ok ==> stack == old(stack)[..|old(stack)| - 1]
                     && tokens == old(tokens) + FlattenAll(Nils(old(stack)[|old(stack)| - 1].remaining)) + [ArrayEnd]
    {
      ok := stack != [] && !stack[|stack| - 1].isMap && (check ==> stack[|stack| - 1].remaining == 0);
      if !ok { return; }
      var remain := stack[|stack| - 1].remaining;
      for i := 0 to remain
        invariant |stack| == |old(stack)| && stack[..|stack| - 1] == old(stack)[..|stack| - 1]
        invariant stack[|stack| - 1] == Level(false, remain - i)
        invariant tokens == old(tokens) + FlattenAll(Nils(i))
      {
        var wrote := Item(Nil);
        assert Nils(i + 1) == Nils(i) + [NilDoc];
        FlattenAppends(Nils(i), [NilDoc]);
        FlattenOne(NilDoc);
      }
      stack := stack[..|stack| - 1];
      tokens := tokens + [ArrayEnd];
    }
  }

  // ---------------------------------------------------------------- objects, primitives, references

  method WriteOpening(o: Opening, p: JSONPacker) returns (ok: bool)
    modifies p`tokens, p`stack
    ensures old(p.tokens) <= p.tokens
    ensures ok <==> Room(old(p.stack), |OpeningDocs(o)|)
    ensures ok ==> Wrote(old(p.tokens), old(p.stack), p.tokens, p.stack, OpeningDocs(o))
  {
    match o
    case Bare =>
      ok := true;
      WroteNothing(p.tokens, p.stack);
    case Named(name) => ok := p.WriteEntry("n", Text(name));
    case FieldOf(owner, name) =>
      ok := p.WriteEntry("o", Whole(owner));
      if !ok { return; }
      ghost var t, s := p.tokens, p.stack;
      ok := p.WriteEntry("n", Text(name));
      hide Wrote;
      WroteThen(old(p.tokens), old(p.stack), t, s, p.tokens, p.stack,
                [TextDoc("o"), Leaf(Whole(owner))], [TextDoc("n"), TextDoc(name)]);
      assert [TextDoc("o"), Leaf(Whole(owner))] + [TextDoc("n"), TextDoc(name)] == OpeningDocs(o);
  }

  method PackObjectContents(v: Value, h: Heap, p: JSONPacker) returns (ok: bool)
    requires v.Ref?
    modifies p`tokens, p`stack
    ensures old(p.tokens) <= p.tokens
    ensures ok <==> Room(old(p.stack), |ObjectDocs(v, h)|) && !h.texts(v.address).TextThrows?
    ensures ok ==> Wrote(old(p.tokens), old(p.stack), p.tokens, p.stack, ObjectDocs(v, h))
  {
    hide Wrote;
    ghost var t0, s0 := p.tokens, p.stack;
    ok := p.WriteEntry("t", Text("O"));
    if !ok { return; }
    ghost var t1, s1, d1 := p.tokens, p.stack, [TextDoc("t"), TextDoc("O")];
    ok := p.WriteEntry("#c", Text(v.cls));
    WroteThen(t0, s0, t1, s1, p.tokens, p.stack, d1, [TextDoc("#c"), TextDoc(v.cls)]);
    if !ok { return; }
    ghost var t2, s2, d2 := p.tokens, p.stack, d1 + [TextDoc("#c"), TextDoc(v.cls)];
    ok := p.WriteEntry("id", Whole(v.hash));
    WroteThen(t0, s0, t2, s2, p.tokens, p.stack, d2, [TextDoc("id"), Leaf(Whole(v.hash))]);
    if !ok { return; }
    ghost var t3, s3, d3 := p.tokens, p.stack, d2 + [TextDoc("id"), Leaf(Whole(v.hash))];
    match h.texts(v.address)
    case NoExtra => assert d3 == ObjectDocs(v, h);
    case TextThrows =>
      ok := p.Write(Text("#toS"));
      ok := false;
    case ToText(text) =>
      ok := p.Write(Text("#toS"));
      WroteThen(t0, s0, t3, s3, p.tokens, p.stack, d3, [TextDoc("#toS")]);
      if !ok { return; }
      ghost var t4, s4, d4 := p.tokens, p.stack, d3 + [TextDoc("#toS")];
      ok := p.WriteString(text);
      WroteThen(t0, s0, t4, s4, p.tokens, p.stack, d4, [TextOrNil(text)]);
      assert d4 + [TextOrNil(text)] == ObjectDocs(v, h);
  }

  method PackObject(o: Opening, v: Value, h: Heap, p: JSONPacker) returns (ok: bool)
    requires v.Ref?
    modifies p`tokens, p`stack
    ensures old(p.tokens) <= p.tokens
    ensures ok <==> Room(old(p.stack), 1) && !h.texts(v.address).TextThrows?
    ensures ok ==> Wrote(old(p.tokens), old(p.stack), p.tokens, p.stack, [Dict(OpeningDocs(o) + ObjectDocs(v, h))])
  {
    hide Wrote;
    var extra := if h.texts(v.address).NoExtra? then 0 else 1;
    var size := (match o case Bare => 3 case Named(_) => 4 case FieldOf(_, _) => 5) + extra;
    ok := p.WriteMapBegin(size);
    if !ok { return; }
    ghost var t1, s1 := p.tokens, p.stack;
    ok := WriteOpening(o, p);
    if !ok { return; }
    ghost var t2, s2 := p.tokens, p.stack;
    ok := PackObjectContents(v, h, p);
    WroteThen(t1, s1, t2, s2, p.tokens, p.stack, OpeningDocs(o), ObjectDocs(v, h));
    if !ok { return; }
    WroteMap(old(p.tokens), old(p.stack), size, p.tokens, p.stack, OpeningDocs(o) + ObjectDocs(v, h));
    ok := p.WriteMapEnd();
  }

  // JSON has no notation for three floating values; they are written as text, and all else as it is.
  method HandleFloatingTypeCornerCase(value: Scalar) returns (result: JsonScalar)
    ensures value == Fraction(NaN) ==> result == Text("NaN")
    ensures value == Fraction(NegativeInfinity) ==> result == Text("-Infinity")
    ensures value == Fraction(PositiveInfinity) ==> result == Text("Infinity")
    ensures !(value.Fraction? && !value.f.Finite?) ==> result == value
  {
    if value == Fraction(NaN) {
      result := Text("NaN");
    } else if value == Fraction(NegativeInfinity) {
      result := Text("-Infinity");
    } else if value == Fraction(PositiveInfinity) {
      result := Text("Infinity");
    } else {
      result := value;
    }
  }

  method PackPrimitiveContents(value: Option<Scalar>, p: JSONPacker) returns (ok: bool)
    modifies p`tokens, p`stack
    ensures old(p.tokens) <= p.tokens
    ensures ok <==> Room(old(p.stack), 4)
    ensures ok ==> Wrote(old(p.tokens), old(p.stack), p.tokens, p.stack, PrimitiveDocs(value))
  {
    hide Wrote;
    ghost var t0, s0 := p.tokens, p.stack;
    ok := p.WriteEntry("t", Text("P"));
    if !ok { return; }
    ghost var t1, s1, d1 := p.tokens, p.stack, [TextDoc("t"), TextDoc("P")];
    ok := p.Write(Text("v"));
    WroteThen(t0, s0, t1, s1, p.tokens, p.stack, d1, [TextDoc("v")]);
    if !ok { return; }
    ghost var t2, s2, d2 := p.tokens, p.stack, d1 + [TextDoc("v")];
    ghost var last := NilDoc;
    if value.Some? {
      var written := HandleFloatingTypeCornerCase(value.value);
      last := Leaf(written);
      ok := p.Write(written);
    } else {
      ok := p.WriteNil();
    }
    WroteThen(t0, s0, t2, s2, p.tokens, p.stack, d2, [last]);
    assert d2 + [last] == PrimitiveDocs(value);
  }

  method PackPrimitive(o: Opening, value: Option<Scalar>, p: JSONPacker) returns (ok: bool)
    modifies p`tokens, p`stack
    ensures old(p.tokens) <= p.tokens
    ensures ok <==> Room(old(p.stack), 1)
    ensures ok ==> Wrote(old(p.tokens), old(p.stack), p.tokens, p.stack, [Dict(OpeningDocs(o) + PrimitiveDocs(value))])
  {
    hide Wrote;
    var size := match o case Bare => 2 case Named(_) => 3 case FieldOf(_, _) => 4;
    ok := p.WriteMapBegin(size);
    if !ok { return; }
    ghost var t1, s1 := p.tokens, p.stack;
    ok := WriteOpening(o, p);
    if !ok { return; }
    ghost var t2, s2 := p.tokens, p.stack;
    ok := PackPrimitiveContents(value, p);
    WroteThen(t1, s1, t2, s2, p.tokens, p.stack, OpeningDocs(o), PrimitiveDocs(value));
    if !ok { return; }
    WroteMap(old(p.tokens), old(p.stack), size, p.tokens, p.stack, OpeningDocs(o) + PrimitiveDocs(value));
    ok := p.WriteMapEnd();
  }

  // The tag and the identity of an array, collection or map.
  method PackHeader(tag: string, v: Value, p: JSONPacker) returns (ok: bool)
    requires v.Ref?
    modifies p`tokens, p`stack
    ensures old(p.tokens) <= p.tokens
    ensures ok <==> Room(old(p.stack), 4)
    ensures ok ==> Wrote(old(p.tokens), old(p.stack), p.tokens, p.stack, HeaderDocs(tag, v))
  {
    hide Wrote;
    ok := p.WriteEntry("t", Text(tag));
    if !ok { return; }
    ghost var t, s := p.tokens, p.stack;
    ok := p.WriteEntry("id", Whole(v.hash));
    ghost var d1, d2 := [TextDoc("t"), TextDoc(tag)], [TextDoc("id"), Leaf(Whole(v.hash))];
    WroteThen(old(p.tokens), old(p.stack), t, s, p.tokens, p.stack, d1, d2);
    assert d1 + d2 == HeaderDocs(tag, v);
  }

  method PackArrayRef(v: Value, p: JSONPacker) returns (ok: bool)
    requires v.Ref?
    modifies p`tokens, p`stack
    ensures old(p.tokens) <= p.tokens
    ensures ok <==> Room(old(p.stack), 1)
    ensures ok ==> Wrote(old(p.tokens), old(p.stack), p.tokens, p.stack, [Dict(HeaderDocs("A", v))])
  {
    hide Wrote;
    ok := p.WriteMapBegin(2);
    if !ok { return; }
    ok := PackHeader("A", v, p);
    if !ok { return; }
    WroteMap(old(p.tokens), old(p.stack), 2, p.tokens, p.stack, HeaderDocs("A", v));
    ok := p.WriteMapEnd();
  }

  /** One level only: an array inside is a reference, and anything else not primitive is an
      object without its contents. */
  method PackArrayElement(v: Value, h: Heap, p: JSONPacker) returns (ok: bool)
    modifies p`tokens, p`stack
    ensures old(p.tokens) <= p.tokens
    ensures ok <==> Room(old(p.stack), 1) && ElementPacks(v, h)
    ensures ok ==> Wrote(old(p.tokens), old(p.stack), p.tokens, p.stack, [ElementDoc(v, h)])
  {
    hide Wrote;
    match v
    case Null => ok := p.WriteNil();
    case Boxed(s) =>
      ok := PackPrimitive(Bare, Some(s), p);
      assert [] + PrimitiveDocs(Some(s)) == PrimitiveDocs(Some(s));
    case Ref(_, _, _, kind) =>
      if kind.ArrayKind? {
        ok := PackArrayRef(v, p);
      } else {
        ok := PackObject(Bare, v, h, p);
        assert [] + ObjectDocs(v, h) == ObjectDocs(v, h);
      }
  }

  // ---------------------------------------------------------------- arrays, collections and maps

  method PackElements(vs: seq<Value>, h: Heap, p: JSONPacker) returns (ok: bool)
    modifies p`tokens, p`stack
    ensures old(p.tokens) <= p.tokens
    ensures ok <==> Room(old(p.stack), |vs|) && ElementsPack(vs, h)
    ensures ok ==> Wrote(old(p.tokens), old(p.stack), p.tokens, p.stack, ElementDocs(vs, h))
  {
    hide Wrote;
    hide ElementDoc;
    hide ElementPacks;
    ok := true;
    WroteNothing(p.tokens, p.stack);
    assert ElementDocs(vs[..0], h) == [];
    for i := 0 to |vs|
      invariant ok && old(p.tokens) <= p.tokens
      invariant ElementsPack(vs[..i], h)
      invariant Wrote(old(p.tokens), old(p.stack), p.tokens, p.stack, ElementDocs(vs[..i], h))
    {
      ghost var t, s := p.tokens, p.stack;
      ok := PackArrayElement(vs[i], h, p);
      WroteThen(old(p.tokens), old(p.stack), t, s, p.tokens, p.stack, ElementDocs(vs[..i], h), [ElementDoc(vs[i], h)]);
      assert ElementDocs(vs[..i + 1], h) == ElementDocs(vs[..i], h) + [ElementDoc(vs[i], h)];
      assert vs[i] in vs;
      if !ok { return; }
    }
    assert vs[..|vs|] == vs;
    RoomLeft(old(p.tokens), old(p.stack), p.tokens, p.stack, ElementDocs(vs, h));
  }

  lemma RoomLeft(t0: seq<Token>, s0: seq<Level>, t1: seq<Token>, s1: seq<Level>, docs: seq<Doc>)
    requires Wrote(t0, s0, t1, s1, docs)
    ensures Room(s0, |docs|)
  {
  }

  method PackScalars(scalars: seq<JsonScalar>, p: JSONPacker) returns (ok: bool)
    modifies p`tokens, p`stack
    ensures old(p.tokens) <= p.tokens
    ensures ok <==> Room(old(p.stack), |scalars|)
    ensures ok ==> Wrote(old(p.tokens), old(p.stack), p.tokens, p.stack, Leaves(scalars))
  {
    hide Wrote;
    ok := true;
    WroteNothing(p.tokens, p.stack);
    assert Leaves(scalars[..0]) == [];
    for i := 0 to |scalars|
      invariant ok && old(p.tokens) <= p.tokens
      invariant Wrote(old(p.tokens), old(p.stack), p.tokens, p.stack, Leaves(scalars[..i]))
    {
      ghost var t, s := p.tokens, p.stack;
      ok := p.Write(scalars[i]);
      WroteThen(old(p.tokens), old(p.stack), t, s, p.tokens, p.stack, Leaves(scalars[..i]), [Leaf(scalars[i])]);
      assert Leaves(scalars[..i + 1]) == Leaves(scalars[..i]) + [Leaf(scalars[i])];
      if !ok { return; }
    }
    assert scalars[..|scalars|] == scalars;
    RoomLeft(old(p.tokens), old(p.stack), p.tokens, p.stack, Leaves(scalars));
  }

  ghost function Leaves(scalars: seq<JsonScalar>): (r: seq<Doc>)
    ensures |r| == |scalars|
  {
    seq(|scalars|, i requires 0 <= i < |scalars| => Leaf(scalars[i]))
  }

  method PackStrings(strings: seq<Option<string>>, p: JSONPacker) returns (ok: bool)
    modifies p`tokens, p`stack
    ensures old(p.tokens) <= p.tokens
    ensures ok <==> Room(old(p.stack), |strings|)
    ensures ok ==> Wrote(old(p.tokens), old(p.stack), p.tokens, p.stack, Texts(strings))
  {
    hide Wrote;
    ok := true;
    WroteNothing(p.tokens, p.stack);
    assert Texts(strings[..0]) == [];
    for i := 0 to |strings|
      invariant ok && old(p.tokens) <= p.tokens
      invariant Wrote(old(p.tokens), old(p.stack), p.tokens, p.stack, Texts(strings[..i]))
    {
      ghost var t, s := p.tokens, p.stack;
      ok := p.WriteString(strings[i]);
      WroteThen(old(p.tokens), old(p.stack), t, s, p.tokens, p.stack, Texts(strings[..i]), [TextOrNil(strings[i])]);
      assert Texts(strings[..i + 1]) == Texts(strings[..i]) + [TextOrNil(strings[i])];
      if !ok { return; }
    }
    assert strings[..|strings|] == strings;
    RoomLeft(old(p.tokens), old(p.stack), p.tokens, p.stack, Texts(strings));
  }

  ghost function Texts(strings: seq<Option<string>>): (r: seq<Doc>)
    ensures |r| == |strings|
  {
    seq(|strings|, i requires 0 <= i < |strings| => TextOrNil(strings[i]))
  }

  predicate ArrayPacks(e: Elements, h: Heap) {
    e.Objects? ==> ElementsPack(e.values, h)
  }

  method PackArrayOfValuesOrRefs(e: Elements, h: Heap, p: JSONPacker) returns (ok: bool)
    modifies p`tokens, p`stack
    ensures old(p.tokens) <= p.tokens
    ensures ok <==> Room(old(p.stack), 1) && ArrayPacks(e, h)
    ensures ok ==> Wrote(old(p.tokens), old(p.stack), p.tokens, p.stack, [ArrayDoc(e, h)])
  {
    hide Wrote;
    hide ElementsPack;
    var size := match e case Raw(s) => |s| case Strings(s) => |s| case Objects(vs) => |vs|;
    ok := p.WriteArrayBegin(size);
    if !ok { return; }
    match e {
      case Raw(scalars) =>
        ok := PackScalars(scalars, p);
        assert Leaves(scalars) == ArrayDoc(e, h).items;
      case Strings(strings) =>
        ok := PackStrings(strings, p);
        assert Texts(strings) == ArrayDoc(e, h).items;
      case Objects(values) =>
        ok := PackElements(values, h, p);
    }
    if !ok { return; }
    WroteList(old(p.tokens), old(p.stack), size, p.tokens, p.stack, ArrayDoc(e, h).items);
    NoNils();
    ok := p.WriteArrayEnd(true);
  }

  lemma NoNils()
    ensures FlattenAll(Nils(0)) == []
    ensures forall t: seq<Token> :: t + [] == t
  {
  }

  method PackArray(o: Opening, v: Value, h: Heap, p: JSONPacker) returns (ok: bool)
    requires v.Ref?
    modifies p`tokens, p`stack
    ensures old(p.tokens) <= p.tokens
    ensures ok <==> Room(old(p.stack), 1) && ArrayPacks(h.arrays(v.address), h)
    ensures ok ==> Wrote(old(p.tokens), old(p.stack), p.tokens, p.stack,
                         [Dict(OpeningDocs(o) + (HeaderDocs("A", v) + [TextDoc("v"), ArrayDoc(h.arrays(v.address), h)]))])
  {
    hide Wrote;
    hide ArrayDoc;
    hide ArrayPacks;
    var size := match o case Bare => 3 case Named(_) => 4 case FieldOf(_, _) => 5;
    ok := p.WriteMapBegin(size);
    if !ok { return; }
    ghost var t1, s1 := p.tokens, p.stack;
    ok := WriteOpening(o, p);
    if !ok { return; }
    ghost var t2, s2 := p.tokens, p.stack;
    ok := PackHeader("A", v, p);
    WroteThen(t1, s1, t2, s2, p.tokens, p.stack, OpeningDocs(o), HeaderDocs("A", v));
    if !ok { return; }
    ghost var t3, s3, d3 := p.tokens, p.stack, OpeningDocs(o) + HeaderDocs("A", v);
    ok := p.Write(Text("v"));
    WroteThen(t1, s1, t3, s3, p.tokens, p.stack, d3, [TextDoc("v")]);
    if !ok { return; }
    ghost var t4, s4, d4 := p.tokens, p.stack, d3 + [TextDoc("v")];
    ghost var last := ArrayDoc(h.arrays(v.address), h);
    ok := PackArrayOfValuesOrRefs(h.arrays(v.address), h, p);
    WroteThen(t1, s1, t4, s4, p.tokens, p.stack, d4, [last]);
    if !ok { return; }
    assert d4 + [last] == OpeningDocs(o) + (HeaderDocs("A", v) + [TextDoc("v"), last]);
    WroteMap(old(p.tokens), old(p.stack), size, p.tokens, p.stack, d4 + [last]);
    ok := p.WriteMapEnd();
  }

  method PackCollectionValue(c: Iteration<Value>, h: Heap, p: JSONPacker) returns (ok: bool)
    modifies p`tokens, p`stack
    ensures old(p.tokens) <= p.tokens
    ensures ok <==> Room(old(p.stack), 2) && CollectionPacks(c, h)
    ensures ok ==> Wrote(old(p.tokens), old(p.stack), p.tokens, p.stack, [TextDoc("v"), CollectionDoc(c, h)])
  {
    hide Wrote;
    hide ElementsPack;
    ok := p.Write(Text("v"));
    if !ok { return; }
    ghost var t1, s1, last := p.tokens, p.stack, CollectionDoc(c, h);
    RoomLeft(old(p.tokens), old(p.stack), t1, s1, [TextDoc("v")]);
    WroteThen(old(p.tokens), old(p.stack), t1, s1, t1, s1, [TextDoc("v")], [last]);
    assert [TextDoc("v")] + [last] == [TextDoc("v"), last];
    if c.size.None? || c.elements.None? {
      ok := p.WriteNil();
    } else {
      ok := p.WriteArrayBegin(c.size.value);
      if !ok { return; }
      ok := PackElements(c.elements.value, h, p);
      if !ok { return; }
      if c.throws { return false; }
      WroteList(t1, s1, c.size.value, p.tokens, p.stack, ElementDocs(c.elements.value, h));
      NoNils();
      ok := p.WriteArrayEnd(true);
    }
    WroteThen(old(p.tokens), old(p.stack), t1, s1, p.tokens, p.stack, [TextDoc("v")], [last]);
  }

  // Named collections and maps leave their elements out unless they are Clojure's.
  method PackCollection(o: Opening, v: Value, h: Heap, p: JSONPacker) returns (ok: bool)
    requires v.Ref? && v.kind.CollectionKind?
    modifies p`tokens, p`stack
    ensures old(p.tokens) <= p.tokens
    ensures ok <==> Room(old(p.stack), 1) && ContentPacks(v, h, o.Bare?)
    ensures ok ==> Wrote(old(p.tokens), old(p.stack), p.tokens, p.stack, [Dict(OpeningDocs(o) + ContentDocs(v, h, o.Bare?))])
  {
    hide Wrote;
    hide CollectionDoc;
    hide CollectionPacks;
    hide Flatten;
    hide FlattenAll;
    var isClojureType := "clojure.lang" <= v.cls;
    var extra := if isClojureType then 1 else 0;
    var size := match o case Bare => 3 case Named(_) => 3 + extra case FieldOf(_, _) => 4 + extra;
    ok := p.WriteMapBegin(size);
    if !ok { return; }
    ghost var t1, s1 := p.tokens, p.stack;
    ok := WriteOpening(o, p);
    if !ok { return; }
    ghost var t2, s2 := p.tokens, p.stack;
    ok := PackHeader("C", v, p);
    WroteThen(t1, s1, t2, s2, p.tokens, p.stack, OpeningDocs(o), HeaderDocs("C", v));
    if !ok { return; }
    ghost var t3, s3, d3 := p.tokens, p.stack, OpeningDocs(o) + HeaderDocs("C", v);
    ghost var last := if o.Bare? || isClojureType then [TextDoc("v"), CollectionDoc(h.collections(v.address), h)] else [];
    assert d3 + last == OpeningDocs(o) + ContentDocs(v, h, o.Bare?);
    if o.Bare? || isClojureType {
      ok := PackCollectionValue(h.collections(v.address), h, p);
      WroteThen(t1, s1, t3, s3, p.tokens, p.stack, d3, last);
      if !ok { return; }
    } else {
      assert d3 + last == d3;
    }
    WroteMap(old(p.tokens), old(p.stack), size, p.tokens, p.stack, d3 + last);
    ok := p.WriteMapEnd();
  }

  predicate MapEntryPacks(e: MapEntry, h: Heap) {
    ElementPacks(OrNull(e.key), h) && ElementPacks(OrNull(e.value), h)
  }

  lemma NullElement(h: Heap)
    ensures ElementDoc(ShallowView.Null, h) == NilDoc && ElementPacks(ShallowView.Null, h)
  {
  }

  // A key or value whose getter throws is written like null.
  method PackMapEntry(e: MapEntry, h: Heap, p: JSONPacker) returns (ok: bool)
    modifies p`tokens, p`stack
    ensures old(p.tokens) <= p.tokens
    ensures ok <==> Room(old(p.stack), 1) && MapEntryPacks(e, h)
    ensures ok ==> Wrote(old(p.tokens), old(p.stack), p.tokens, p.stack, [MapEntryDoc(e, h)])
  {
    hide Wrote;
    NullElement(h);
    hide ElementDoc;
    hide ElementPacks;
    ok := p.WriteMapBegin(2);
    if !ok { return; }
    ghost var t1, s1 := p.tokens, p.stack;
    ok := p.Write(Text("k"));
    if !ok { return; }
    ghost var t2, s2, d2 := p.tokens, p.stack, [TextDoc("k")];
    ghost var k, v := ElementDoc(OrNull(e.key), h), ElementDoc(OrNull(e.value), h);
    if e.key.None? {
      ok := p.WriteNil();
    } else {
      ok := PackArrayElement(e.key.value, h, p);
    }
    WroteThen(t1, s1, t2, s2, p.tokens, p.stack, d2, [k]);
    if !ok { return; }
    ghost var t3, s3, d3 := p.tokens, p.stack, d2 + [k];
    ok := p.Write(Text("v"));
    WroteThen(t1, s1, t3, s3, p.tokens, p.stack, d3, [TextDoc("v")]);
    if !ok { return; }
    ghost var t4, s4, d4 := p.tokens, p.stack, d3 + [TextDoc("v")];
    if e.value.None? {
      ok := p.WriteNil();
    } else {
      ok := PackArrayElement(e.value.value, h, p);
    }
    WroteThen(t1, s1, t4, s4, p.tokens, p.stack, d4, [v]);
    if !ok { return; }
    assert d4 + [v] == [TextDoc("k"), k, TextDoc("v"), v];
    WroteMap(old(p.tokens), old(p.stack), 2, p.tokens, p.stack, d4 + [v]);
    ok := p.WriteMapEnd();
  }

  ghost function MapEntryDocs(entries: seq<MapEntry>, h: Heap): (r: seq<Doc>)
    ensures |r| == |entries|
  {
    seq(|entries|, i requires 0 <= i < |entries| => MapEntryDoc(entries[i], h))
  }

  predicate EntriesPack(entries: seq<MapEntry>, h: Heap) {
    forall e :: e in entries ==> MapEntryPacks(e, h)
  }

  method PackEachMapEntry(entries: seq<MapEntry>, h: Heap, p: JSONPacker) returns (ok: bool)
    modifies p`tokens, p`stack
    ensures old(p.tokens) <= p.tokens
    ensures ok <==> Room(old(p.stack), |entries|) && EntriesPack(entries, h)
    ensures ok ==> Wrote(old(p.tokens), old(p.stack), p.tokens, p.stack, MapEntryDocs(entries, h))
  {
    hide Wrote;
    hide MapEntryDoc;
    hide MapEntryPacks;
    ok := true;
    WroteNothing(p.tokens, p.stack);
    assert MapEntryDocs(entries[..0], h) == [];
    for i := 0 to |entries|
      invariant ok && old(p.tokens) <= p.tokens
      invariant EntriesPack(entries[..i], h)
      invariant Wrote(old(p.tokens), old(p.stack), p.tokens, p.stack, MapEntryDocs(entries[..i], h))
    {
      ghost var t, s := p.tokens, p.stack;
      ok := PackMapEntry(entries[i], h, p);
      WroteThen(old(p.tokens), old(p.stack), t, s, p.tokens, p.stack, MapEntryDocs(entries[..i], h), [MapEntryDoc(entries[i], h)]);
      assert MapEntryDocs(entries[..i + 1], h) == MapEntryDocs(entries[..i], h) + [MapEntryDoc(entries[i], h)];
      assert entries[i] in entries;
      if !ok { return; }
    }
    assert entries[..|entries|] == entries;
    RoomLeft(old(p.tokens), old(p.stack), p.tokens, p.stack, MapEntryDocs(entries, h));
  }

  method PackMapEntries(i: Iteration<MapEntry>, h: Heap, p: JSONPacker) returns (ok: bool)
    modifies p`tokens, p`stack
    ensures old(p.tokens) <= p.tokens
    ensures ok <==> Room(old(p.stack), 1) && MapPacks(Some(i), h)
    ensures ok ==> Wrote(old(p.tokens), old(p.stack), p.tokens, p.stack, [MapDoc(Some(i), h)])
  {
    hide Wrote;
    hide MapEntryDoc;
    hide ElementPacks;
    if i.size.None? || i.elements.None? {
      ok := p.WriteNil();
      return;
    }
    var entries, size := i.elements.value, i.size.value;
    ok := p.WriteArrayBegin(size);
    if !ok { return; }
    ok := PackEachMapEntry(entries, h, p);
    if !ok { return; }
    if i.throws { return false; }
    ghost var t2, s2, docs, nils := p.tokens, p.stack, MapEntryDocs(entries, h), Nils(size - |entries|);
    assert docs + nils == MapDoc(Some(i), h).items;
    WroteList(old(p.tokens), old(p.stack), size, t2, s2, docs);
    ok := p.WriteArrayEnd(false);
    WroteFilledList(old(p.tokens), old(p.stack), size, t2, s2, docs, nils);
  }

  // A list filled up with nil.
  lemma WroteFilledList(t0: seq<Token>, s0: seq<Level>, size: nat, t1: seq<Token>, s1: seq<Level>, items: seq<Doc>, nils: seq<Doc>)
    requires Room(s0, 1) && |items| + |nils| == size
    requires Wrote(t0 + [ArrayBegin(size)], Taken(s0, 1) + [Level(false, size)], t1, s1, items)
    ensures Wrote(t0, s0, t1 + FlattenAll(nils) + [ArrayEnd], Taken(s0, 1), [List(items + nils)])
  {
    hide FlattenAll;
    hide Flatten;
    var t2, s2 := t1 + FlattenAll(nils), Taken(Taken(s0, 1) + [Level(false, size)], size);
    WroteThen(t0 + [ArrayBegin(size)], Taken(s0, 1) + [Level(false, size)], t1, s1, t2, s2, items, nils);
    TakenTwice(Taken(s0, 1) + [Level(false, size)], |items|, |nils|);
    WroteList(t0, s0, size, t2, s2, items + nils);
  }

  method PackMapValue(m: Option<Iteration<MapEntry>>, h: Heap, p: JSONPacker) returns (ok: bool)
    modifies p`tokens, p`stack
    ensures old(p.tokens) <= p.tokens
    ensures ok <==> Room(old(p.stack), 2) && MapPacks(m, h)
    ensures ok ==> Wrote(old(p.tokens), old(p.stack), p.tokens, p.stack, [TextDoc("v"), MapDoc(m, h)])
  {
    hide Wrote;
    ok := p.Write(Text("v"));
    if !ok { return; }
    ghost var t1, s1 := p.tokens, p.stack;
    if m.None? {
      ok := p.WriteNil();
    } else {
      hide MapDoc;
      hide MapPacks;
      ok := PackMapEntries(m.value, h, p);
    }
    WroteThen(old(p.tokens), old(p.stack), t1, s1, p.tokens, p.stack, [TextDoc("v")], [MapDoc(m, h)]);
    assert [TextDoc("v")] + [MapDoc(m, h)] == [TextDoc("v"), MapDoc(m, h)];
  }

  method PackMap(o: Opening, v: Value, h: Heap, p: JSONPacker) returns (ok: bool)
    requires v.Ref? && v.kind.MapKind?
    modifies p`tokens, p`stack
    ensures old(p.tokens) <= p.tokens
    ensures ok <==> Room(old(p.stack), 1) && ContentPacks(v, h, o.Bare?)
    ensures ok ==> Wrote(old(p.tokens), old(p.stack), p.tokens, p.stack, [Dict(OpeningDocs(o) + ContentDocs(v, h, o.Bare?))])
  {
    hide Wrote;
    hide MapDoc;
    hide MapPacks;
    hide Flatten;
    hide FlattenAll;
    var isClojureType := "clojure.lang" <= v.cls;
    var extra := if isClojureType then 1 else 0;
    var size := match o case Bare => 3 case Named(_) => 3 + extra case FieldOf(_, _) => 4 + extra;
    ok := p.WriteMapBegin(size);
    if !ok { return; }
    ghost var t1, s1 := p.tokens, p.stack;
    ok := WriteOpening(o, p);
    if !ok { return; }
    ghost var t2, s2 := p.tokens, p.stack;
    ok := PackHeader("M", v, p);
    WroteThen(t1, s1, t2, s2, p.tokens, p.stack, OpeningDocs(o), HeaderDocs("M", v));
    if !ok { return; }
    ghost var t3, s3, d3 := p.tokens, p.stack, OpeningDocs(o) + HeaderDocs("M", v);
    ghost var last := if o.Bare? || isClojureType then [TextDoc("v"), MapDoc(h.maps(v.address), h)] else [];
    assert d3 + last == OpeningDocs(o) + ContentDocs(v, h, o.Bare?);
    if o.Bare? || isClojureType {
      ok := PackMapValue(h.maps(v.address), h, p);
      WroteThen(t1, s1, t3, s3, p.tokens, p.stack, d3, last);
      if !ok { return; }
    } else {
      assert d3 + last == d3;
    }
    WroteMap(old(p.tokens), old(p.stack), size, p.tokens, p.stack, d3 + last);
    ok := p.WriteMapEnd();
  }

  // ---------------------------------------------------------------- entries of a snapshot

  /** Every entry is one complete document with the sizes it declares, or packing throws; it
      throws exactly when the client's code does or a collection is not of the size it says. */
  method PackEntry(o: Opening, v: Value, h: Heap, p: JSONPacker) returns (ok: bool)
    modifies p`tokens, p`stack
    ensures old(p.tokens) <= p.tokens
    ensures ok <==> Room(old(p.stack), 1) && Fits(o, v) && ContentPacks(v, h, o.Bare?)
    ensures ok ==> Wrote(old(p.tokens), old(p.stack), p.tokens, p.stack, [EntryDoc(o, v, h)])
  {
    hide Wrote;
    hide MapDoc;
    hide CollectionDoc;
    hide ArrayDoc;
    hide MapPacks;
    hide CollectionPacks;
    match v
    case Null =>
      if o.Bare? {
        ok := p.WriteNil();
      } else {
        ok := PackPrimitive(o, None, p);
      }
    case Boxed(s) =>
      // neither array, collection nor map
      if o.Bare? { return false; }
      ok := PackPrimitive(o, Some(s), p);
    case Ref(_, _, _, kind) =>
      if o.Bare? && kind.OtherKind? { return false; }
      match kind
      case ArrayKind => ok := PackArray(o, v, h, p);
      case CollectionKind => ok := PackCollection(o, v, h, p);
      case MapKind => ok := PackMap(o, v, h, p);
      case OtherKind => ok := PackObject(o, v, h, p);
  }
}
