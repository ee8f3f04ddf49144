/**
 What stands in the two streams, token by token, and what a reader finds there: every value,
 name and number by itself.
 */
module StreamFormat {
  import opened Wrappers
  import opened Documents
  import opened ShallowView
  import opened DefinitionIndex
  import opened Recorder
  import opened Recordings
  import opened Replay

  function Str(s: string): Token { Plain(Documents.Text(s)) }

  function Num(n: int): Token { Plain(Whole(n)) }

  // ---------------------------------------------------------------- values read back

  predicate NonFinite(s: Documents.Scalar) {
    s == Fraction(NaN) || s == Fraction(PositiveInfinity) || s == Fraction(NegativeInfinity)
  }

  // The entry names its variable, or its field and the object it is in.
  predicate Opens(o: Opening, e: ShallowView.Entry) {
    match o
    case Bare => e.Entry? && e.owner == None && e.name == None
    case Named(name) => e.Entry? && e.owner == None && e.name == Some(name)
    case FieldOf(owner, name) => e.Entry? && e.owner == Some(owner) && e.name == Some(name)
  }

  /** A primitive value, a box or a string is read back as it is, wherever it stands. */
  lemma ScalarReadsBack(o: Opening, s: Documents.Scalar, other: Option<Value>, h: ShallowView.Heap)
    requires !NonFinite(s)
    ensures var e := ReadEntry(EntryDoc(o, Boxed(s), h));
            e.Some? && Opens(o, e.value) && e.value.content == PrimitiveContent(Some(s))
    ensures ReadElement(ElementDoc(Boxed(s), h)) == Some(Primitive(s))
    ensures var entry := ReadMapEntry(MapEntryDoc(MapEntry(Some(Boxed(s)), other), h));
            entry.Some? && entry.value.Some? && entry.value.value.0 == Primitive(s)
    ensures var entry := ReadMapEntry(MapEntryDoc(MapEntry(other, Some(Boxed(s))), h));
            entry.Some? && entry.value.Some? && entry.value.value.1 == Primitive(s)
  {
    EntryReads(o, Boxed(s), h);
    ElementReads(Boxed(s), h);
    MapEntryReads(MapEntry(Some(Boxed(s)), other), h);
    MapEntryReads(MapEntry(other, Some(Boxed(s))), h);
    hide ReadEntry;
    hide EntryDoc;
    hide ReadElement;
    hide ElementDoc;
    hide ReadMapEntry;
    hide MapEntryDoc;
  }

  /** The three floating values for which JSON has no notation are read back as text. */
  lemma NonFiniteReadsAsText(o: Opening, s: Documents.Scalar, other: Option<Value>, h: ShallowView.Heap)
    requires NonFinite(s)
    ensures var text := Documents.Text(if s == Fraction(NaN) then "NaN" else if s == Fraction(PositiveInfinity) then "Infinity" else "-Infinity");
            var e := ReadEntry(EntryDoc(o, Boxed(s), h));
            && e.Some? && Opens(o, e.value) && e.value.content == PrimitiveContent(Some(text))
            && ReadElement(ElementDoc(Boxed(s), h)) == Some(Primitive(text))
            && (var entry := ReadMapEntry(MapEntryDoc(MapEntry(Some(Boxed(s)), other), h));
                entry.Some? && entry.value.Some? && entry.value.value.0 == Primitive(text))
            && (var entry := ReadMapEntry(MapEntryDoc(MapEntry(other, Some(Boxed(s))), h));
                entry.Some? && entry.value.Some? && entry.value.value.1 == Primitive(text))
  {
    EntryReads(o, Boxed(s), h);
    ElementReads(Boxed(s), h);
    MapEntryReads(MapEntry(Some(Boxed(s)), other), h);
    MapEntryReads(MapEntry(other, Some(Boxed(s))), h);
    hide ReadEntry;
    hide EntryDoc;
    hide ReadElement;
    hide ElementDoc;
    hide ReadMapEntry;
    hide MapEntryDoc;
  }

  // The text of a class, a type, an enumeration constant or a member; nothing for other objects.
  predicate HasText(text: Option<Option<string>>, extra: Extra) {
    match extra
    case ToText(s) => text == Some(s)
    case _ => text == None
  }

  // As it is, or as text where JSON has no notation for it.
  predicate WrittenAs(s: Documents.Scalar, r: Documents.Scalar) {
    if NonFinite(s) then r == Documents.Text(if s.f == NaN then "NaN" else if s.f == PositiveInfinity then "Infinity" else "-Infinity")
    else r == s
  }

  // What is found of an element, a key or a value.
  predicate FoundAs(v: Value, h: ShallowView.Heap, e: Element) {
    match v
    case Null => e == Nothing
    case Boxed(s) => e.Primitive? && WrittenAs(s, e.s)
    case Ref(address, hash, cls, kind) =>
      if kind == ArrayKind then e == ArrayAt(hash)
      else e.ObjectAt? && e.cls == cls && e.id == hash && HasText(e.text, h.texts(address))
  }

  lemma ElementFound(v: Value, h: ShallowView.Heap)
    ensures ReadElement(ElementDoc(v, h)).Some? && FoundAs(v, h, ReadElement(ElementDoc(v, h)).value)
  {
    ElementReads(v, h);
    hide ReadElement;
    hide ElementDoc;
  }

  /** The key or value of a map entry is found as the element it is; one whose getter throws as nil. */
  lemma MapEntryFound(key: Option<Value>, value: Option<Value>, h: ShallowView.Heap)
    ensures var entry := ReadMapEntry(MapEntryDoc(MapEntry(key, value), h));
            && entry.Some? && entry.value.Some?
            && (if key.Some? then FoundAs(key.value, h, entry.value.value.0) else entry.value.value.0 == Nothing)
            && (if value.Some? then FoundAs(value.value, h, entry.value.value.1) else entry.value.value.1 == Nothing)
  {
    MapEntryReads(MapEntry(key, value), h);
    hide ReadMapEntry;
    hide MapEntryDoc;
  }

  predicate ElementsFound(vs: seq<Value>, h: ShallowView.Heap, es: seq<Element>) {
    |es| == |vs| && forall i :: 0 <= i < |vs| ==> FoundAs(vs[i], h, es[i])
  }

  // A primitive array holds its numbers, a string array its strings, any other its elements.
  predicate ArrayFound(a: ShallowView.Elements, h: ShallowView.Heap, es: seq<Element>) {
    match a
    case Raw(ss) => |es| == |ss| && forall i :: 0 <= i < |ss| ==> es[i] == Scalar(ss[i])
    case Strings(ss) =>
      |es| == |ss| && forall i :: 0 <= i < |ss| ==> es[i] == if ss[i] == None then Nothing else Scalar(Documents.Text(ss[i].value))
    case Objects(vs) => ElementsFound(vs, h, es)
  }

  // Each entry in its place, and none for the entries that are missing.
  predicate MapFound(entries: seq<MapEntry>, size: nat, h: ShallowView.Heap, es: seq<Option<(Element, Element)>>) {
    && |es| == (if size < |entries| then |entries| else size)
    && forall i :: 0 <= i < |es| ==>
         if i < |entries| then
           && es[i].Some?
           && (if entries[i].key == None then es[i].value.0 == Nothing else FoundAs(entries[i].key.value, h, es[i].value.0))
           && (if entries[i].value == None then es[i].value.1 == Nothing else FoundAs(entries[i].value.value, h, es[i].value.1))
         else es[i] == None
  }

  // The elements of a collection are written if it stands for itself or belongs to Clojure.
  predicate WithElements(o: Opening, cls: string) {
    o == Bare || (|cls| >= 12 && cls[..12] == "clojure.lang")
  }

  // What is found of the value of an entry.
  predicate ContentFound(o: Opening, v: Value, h: ShallowView.Heap, c: Content) {
    match v
    case Null => c == PrimitiveContent(None)
    case Boxed(s) => c.PrimitiveContent? && c.s.Some? && WrittenAs(s, c.s.value)
    case Ref(a, hash, cls, ArrayKind) => c.ArrayContent? && c.id == hash && ArrayFound(h.arrays(a), h, c.elements)
    case Ref(a, hash, cls, CollectionKind) =>
      (var i := h.collections(a);
       && c.CollectionContent? && c.id == hash
       && (if !WithElements(o, cls) then c.held == NotWritten
           else if i.size == None || i.elements == None then c.held == Unreadable
           else c.held.Elements? && ElementsFound(i.elements.value, h, c.held.elements)))
    case Ref(a, hash, cls, MapKind) =>
      (var i := h.maps(a);
       && c.MapContent? && c.id == hash
       && (if !WithElements(o, cls) then c.entries == NotWritten
           else if i == None || i.value.size == None || i.value.elements == None then c.entries == Unreadable
           else c.entries.Elements? && MapFound(i.value.elements.value, i.value.size.value, h, c.entries.elements)))
    case Ref(a, hash, cls, OtherKind) => c.ObjectContent? && c.cls == cls && c.id == hash && HasText(c.text, h.texts(a))
  }

  lemma ElementsViewed(vs: seq<Value>, h: ShallowView.Heap)
    ensures ElementsFound(vs, h, ElementViews(vs, h))
  {
  }

  lemma ArrayViewed(a: ShallowView.Elements, h: ShallowView.Heap)
    ensures ArrayFound(a, h, ArrayView(a, h))
  {
    hide FoundAs;
    if a.Objects? { ElementsViewed(a.values, h); }
  }

  lemma MapViewed(entries: seq<MapEntry>, size: nat, h: ShallowView.Heap)
    ensures MapFound(entries, size, h, MapView(entries, size, h))
  {
  }

  lemma ContentViewed(o: Opening, v: Value, h: ShallowView.Heap)
    ensures ContentFound(o, v, h, ContentView(v, h, o.Bare?))
  {
    hide ElementsFound;
    hide ArrayFound;
    hide MapFound;
    match v
    case Null =>
    case Boxed(s) =>
    case Ref(a, hash, cls, kind) =>
      match kind
      case ArrayKind => ArrayViewed(h.arrays(a), h);
      case CollectionKind => if h.collections(a).elements.Some? { ElementsViewed(h.collections(a).elements.value, h); }
      case MapKind =>
        if h.maps(a).Some? && h.maps(a).value.elements.Some? && h.maps(a).value.size.Some? {
          MapViewed(h.maps(a).value.elements.value, h.maps(a).value.size.value, h);
        }
      case OtherKind =>
  }

  /** Whatever packs without throwing is found in its entry, under its name and its owner, value
      by value. */
  lemma EntryFound(o: Opening, v: Value, h: ShallowView.Heap)
    requires ContentPacks(v, h, o.Bare?) && !(o.Bare? && v.Null?)
    ensures var e := ReadEntry(EntryDoc(o, v, h));
            e.Some? && Opens(o, e.value) && ContentFound(o, v, h, e.value.content)
  {
    EntryReads(o, v, h);
    ContentViewed(o, v, h);
    hide ReadEntry;
    hide EntryDoc;
    hide ContentPacks;
    hide ContentFound;
    hide ContentView;
  }

  /** What the merge shows of an entry is its value under its name and its owner. */
  lemma ViewsShow(es: seq<Modified>, h: ShallowView.Heap, i: nat)
    requires i < |es|
    ensures |Views(es, h)| == |es|
    ensures if es[i].opening == Bare && es[i].value == ShallowView.Null then Views(es, h)[i] == NilEntry
            else Opens(es[i].opening, Views(es, h)[i]) && ContentFound(es[i].opening, es[i].value, h, Views(es, h)[i].content)
  {
    ContentViewed(es[i].opening, es[i].value, h);
    hide ContentView;
    hide ContentFound;
  }

  // ---------------------------------------------------------------- the tokens of an entry

  // A map that opens with the owner and the name, if there are any, and goes on with so many pairs.
  function Framed(o: Opening, pairs: nat, content: seq<Token>): seq<Token> {
    match o
    case Bare => [MapBegin(pairs)] + content + [MapEnd]
    case Named(name) => [MapBegin(pairs + 1), Str("n"), Str(name)] + content + [MapEnd]
    case FieldOf(owner, name) => [MapBegin(pairs + 2), Str("o"), Num(owner), Str("n"), Str(name)] + content + [MapEnd]
  }

  predicate AllLeaves(ds: seq<Doc>) {
    forall i :: 0 <= i < |ds| ==> ds[i].Leaf?
  }

  lemma DictTokens(items: seq<Doc>)
    ensures Flatten(Dict(items)) == [MapBegin(|items| / 2)] + FlattenAll(items) + [MapEnd]
  {
  }

  // Leaves, and one document more.
  lemma LeavesThen(leaves: seq<Doc>, last: Doc)
    requires AllLeaves(leaves)
    ensures Flatten(Dict(leaves + [last])) == [MapBegin((|leaves| + 1) / 2)] + Tokens(leaves) + Flatten(last) + [MapEnd]
  {
    FlattenLeaves(leaves);
    hide *;
    FlattenAppends(leaves, [last]);
    FlattenOne(last);
    DictTokens(leaves + [last]);
    Regrouped([MapBegin((|leaves| + 1) / 2)], Tokens(leaves), Flatten(last), [MapEnd]);
  }

  lemma Regrouped(a: seq<Token>, b: seq<Token>, c: seq<Token>, d: seq<Token>)
    ensures a + (b + c) + d == a + b + c + d && a + b + (c + d) == a + b + c + d
  {
  }

  lemma OpeningTokens(o: Opening, pairs: nat, content: seq<Token>)
    ensures AllLeaves(OpeningDocs(o)) && |OpeningDocs(o)| % 2 == 0
    ensures Framed(o, pairs, content) == [MapBegin(pairs + |OpeningDocs(o)| / 2)] + Tokens(OpeningDocs(o)) + content + [MapEnd]
  {
    match o
    case Bare =>
    case Named(name) => assert Tokens(OpeningDocs(o)) == [Str("n"), Str(name)];
    case FieldOf(owner, name) => assert Tokens(OpeningDocs(o)) == [Str("o"), Num(owner), Str("n"), Str(name)];
  }

  lemma LeavesAppend(a: seq<Doc>, b: seq<Doc>)
    requires AllLeaves(a) && AllLeaves(b)
    ensures AllLeaves(a + b) && Tokens(a + b) == Tokens(a) + Tokens(b)
  {
  }

  lemma FramedThen(o: Opening, leaves: seq<Doc>, tokens: seq<Token>, last: Doc)
    requires AllLeaves(leaves) && |leaves| % 2 == 1 && tokens == Tokens(leaves)
    ensures Flatten(Dict(OpeningDocs(o) + (leaves + [last]))) == Framed(o, (|leaves| + 1) / 2, tokens + Flatten(last))
  {
    hide *;
    var open := OpeningDocs(o);
    OpeningTokens(o, (|leaves| + 1) / 2, tokens + Flatten(last));
    LeavesAppend(open, leaves);
    assert open + (leaves + [last]) == (open + leaves) + [last];
    LeavesThen(open + leaves, last);
    var m, a, b := [MapBegin((|leaves| + 1) / 2 + |open| / 2)], Tokens(open), Flatten(last);
    assert m + (a + tokens) + b + [MapEnd] == m + a + (tokens + b) + [MapEnd];
  }

  /** A primitive value is written under the tag P, in the tokens of the value itself. */
  lemma PrimitiveTokens(o: Opening, s: Documents.Scalar, h: ShallowView.Heap)
    requires !NonFinite(s)
    ensures Flatten(EntryDoc(o, Boxed(s), h)) == Framed(o, 2, [Str("t"), Str("P"), Str("v"), Plain(s)])
  {
    var leaves := [TextDoc("t"), TextDoc("P"), TextDoc("v")];
    FramedThen(o, leaves, [Str("t"), Str("P"), Str("v")], Leaf(s));
    assert EntryDoc(o, Boxed(s), h) == Dict(OpeningDocs(o) + (leaves + [Leaf(s)]));
  }

  // A variable or field that holds null.
  lemma NullTokens(o: Opening, h: ShallowView.Heap)
    requires o != Bare
    ensures Flatten(EntryDoc(o, ShallowView.Null, h)) == Framed(o, 2, [Str("t"), Str("P"), Str("v"), Nil])
  {
    var leaves := [TextDoc("t"), TextDoc("P"), TextDoc("v")];
    FramedThen(o, leaves, [Str("t"), Str("P"), Str("v")], NilDoc);
    assert EntryDoc(o, ShallowView.Null, h) == Dict(OpeningDocs(o) + (leaves + [NilDoc]));
  }

  /** An object is written under the tag O with its class and identity, and its text if it has one. */
  lemma ObjectTokens(o: Opening, address: nat, hash: int, cls: string, h: ShallowView.Heap)
    ensures var v := Ref(address, hash, cls, OtherKind);
            Flatten(EntryDoc(o, v, h)) ==
            match h.texts(address)
            case ToText(text) =>
              Framed(o, 4, [Str("t"), Str("O"), Str("#c"), Str(cls), Str("id"), Num(hash), Str("#toS"),
                            if text == None then Nil else Str(text.value)])
            case _ => Framed(o, 3, [Str("t"), Str("O"), Str("#c"), Str(cls), Str("id"), Num(hash)])
  {
    var v := Ref(address, hash, cls, OtherKind);
    var leaves := [TextDoc("t"), TextDoc("O"), TextDoc("#c"), TextDoc(cls), TextDoc("id")];
    var tokens := [Str("t"), Str("O"), Str("#c"), Str(cls), Str("id")];
    hide Flatten;
    hide Framed;
    hide OpeningDocs;
    match h.texts(address)
    case ToText(text) =>
      var more := leaves + [Leaf(Whole(hash)), TextDoc("#toS")];
      FramedThen(o, more, tokens + [Num(hash), Str("#toS")], TextOrNil(text));
      assert ObjectDocs(v, h) == more + [TextOrNil(text)];
      TextTokens(text);
      assert tokens + [Num(hash), Str("#toS")] + Flatten(TextOrNil(text))
             == [Str("t"), Str("O"), Str("#c"), Str(cls), Str("id"), Num(hash), Str("#toS"), if text == None then Nil else Str(text.value)];
    case _ =>
      FramedThen(o, leaves, tokens, Leaf(Whole(hash)));
      assert ObjectDocs(v, h) == leaves + [Leaf(Whole(hash))];
      LeafTokens(hash);
      assert tokens + [Num(hash)] == [Str("t"), Str("O"), Str("#c"), Str(cls), Str("id"), Num(hash)];
  }

  lemma TextTokens(text: Option<string>)
    ensures Flatten(TextOrNil(text)) == [if text == None then Nil else Str(text.value)]
  {
  }

  // The tokens of elements one after another.
  lemma ListTokens(items: seq<Doc>)
    ensures Flatten(List(items)) == [ArrayBegin(|items|)] + FlattenAll(items) + [ArrayEnd]
  {
  }

  /** Arrays, collections and maps are written under the tags A, C and M with their identity,
      and then, unless left out, what they hold. */
  lemma HolderTokens(o: Opening, address: nat, hash: int, cls: string, kind: ShallowView.Kind, h: ShallowView.Heap)
    requires kind != OtherKind
    ensures var tag := if kind == ArrayKind then "A" else if kind == CollectionKind then "C" else "M";
            var header := [Str("t"), Str(tag), Str("id"), Num(hash)];
            Flatten(EntryDoc(o, Ref(address, hash, cls, kind), h)) ==
            if kind == ArrayKind then Framed(o, 3, header + [Str("v")] + Flatten(ArrayDoc(h.arrays(address), h)))
            else if !WithElements(o, cls) then Framed(o, 2, header)
            else if kind == CollectionKind then Framed(o, 3, header + [Str("v")] + Flatten(CollectionDoc(h.collections(address), h)))
            else Framed(o, 3, header + [Str("v")] + Flatten(MapDoc(h.maps(address), h)))
  {
    var tag := if kind == ArrayKind then "A" else if kind == CollectionKind then "C" else "M";
    var last :=
      if kind == ArrayKind then ArrayDoc(h.arrays(address), h)
      else if kind == CollectionKind then CollectionDoc(h.collections(address), h) else MapDoc(h.maps(address), h);
    HolderDoc(o, address, hash, cls, kind, h);
    hide *;
    HeaderTokens(o, tag, hash, last);
  }

  lemma HeaderTokens(o: Opening, tag: string, hash: int, last: Doc)
    ensures var leaves := [TextDoc("t"), TextDoc(tag), TextDoc("id")];
            var header := [Str("t"), Str(tag), Str("id"), Num(hash)];
            && Flatten(Dict(OpeningDocs(o) + (leaves + [Leaf(Whole(hash))]))) == Framed(o, 2, header)
            && Flatten(Dict(OpeningDocs(o) + (leaves + [Leaf(Whole(hash)), TextDoc("v")] + [last])))
               == Framed(o, 3, header + [Str("v")] + Flatten(last))
  {
    var leaves := [TextDoc("t"), TextDoc(tag), TextDoc("id")];
    var more := leaves + [Leaf(Whole(hash)), TextDoc("v")];
    var tokens := [Str("t"), Str(tag), Str("id")];
    HeaderLeaves(tag, hash);
    LeafTokens(hash);
    hide *;
    FramedThen(o, more, tokens + [Num(hash), Str("v")], last);
    assert tokens + [Num(hash), Str("v")] == [Str("t"), Str(tag), Str("id"), Num(hash)] + [Str("v")];
    FramedThen(o, leaves, tokens, Leaf(Whole(hash)));
    assert tokens + [Num(hash)] == [Str("t"), Str(tag), Str("id"), Num(hash)];
  }

  lemma HolderDoc(o: Opening, address: nat, hash: int, cls: string, kind: ShallowView.Kind, h: ShallowView.Heap)
    requires kind != OtherKind
    ensures var tag := if kind == ArrayKind then "A" else if kind == CollectionKind then "C" else "M";
            var leaves := [TextDoc("t"), TextDoc(tag), TextDoc("id")];
            var more := leaves + [Leaf(Whole(hash)), TextDoc("v")];
            EntryDoc(o, Ref(address, hash, cls, kind), h) ==
            if kind == ArrayKind then Dict(OpeningDocs(o) + (more + [ArrayDoc(h.arrays(address), h)]))
            else if !WithElements(o, cls) then Dict(OpeningDocs(o) + (leaves + [Leaf(Whole(hash))]))
            else if kind == CollectionKind then Dict(OpeningDocs(o) + (more + [CollectionDoc(h.collections(address), h)]))
            else Dict(OpeningDocs(o) + (more + [MapDoc(h.maps(address), h)]))
  {
    hide ArrayDoc;
    hide CollectionDoc;
    hide MapDoc;
    hide OpeningDocs;
    var v := Ref(address, hash, cls, kind);
    ClojureExactly(v);
    hide Clojure;
    var tag := if kind == ArrayKind then "A" else if kind == CollectionKind then "C" else "M";
    var leaves := [TextDoc("t"), TextDoc(tag), TextDoc("id")];
    assert HeaderDocs(tag, v) == leaves + [Leaf(Whole(hash))];
    var last :=
      if kind == ArrayKind then ArrayDoc(h.arrays(address), h)
      else if kind == CollectionKind then CollectionDoc(h.collections(address), h) else MapDoc(h.maps(address), h);
    assert HeaderDocs(tag, v) + [TextDoc("v"), last] == leaves + [Leaf(Whole(hash)), TextDoc("v")] + [last];
    assert HeaderDocs(tag, v) + [] == HeaderDocs(tag, v);
  }

  lemma ClojureExactly(v: Value)
    requires v.Ref?
    ensures Clojure(v) <==> |v.cls| >= 12 && v.cls[..12] == "clojure.lang"
  {
  }

  lemma HeaderLeaves(tag: string, hash: int)
    ensures var leaves := [TextDoc("t"), TextDoc(tag), TextDoc("id")];
            && AllLeaves(leaves) && Tokens(leaves) == [Str("t"), Str(tag), Str("id")]
            && AllLeaves(leaves + [Leaf(Whole(hash)), TextDoc("v")])
            && Tokens(leaves + [Leaf(Whole(hash)), TextDoc("v")]) == [Str("t"), Str(tag), Str("id")] + [Num(hash), Str("v")]
  {
  }

  lemma LeafTokens(n: int)
    ensures Flatten(Leaf(Whole(n))) == [Num(n)]
  {
  }

  // ---------------------------------------------------------------- the tokens of a record

  /** A flow record names time, tag, class, method, line and depth, each under its key. */
  lemma FlowTokens(r: FlowRecord)
    ensures Flatten(FlowDoc(r)) ==
            [MapBegin(if r.tag == None then 5 else 6), Str("t"), Num(r.time)]
            + (if r.tag == None then [] else [Str("tg"), Str(r.tag.value)])
            + [Str("c"), Num(r.c), Str("m"), Num(r.m), Str("l"), Num(r.line), Str("sd"), Num(r.depth), MapEnd]
  {
    var leaves := FlowDoc(r).items;
    FlowLeaves(r);
    hide FlowDoc;
    FlattenLeaves(leaves);
    DictTokens(leaves);
    hide *;
  }

  lemma FlowLeaves(r: FlowRecord)
    ensures FlowDoc(r).Dict? && AllLeaves(FlowDoc(r).items) && |FlowDoc(r).items| / 2 == if r.tag == None then 5 else 6
    ensures Tokens(FlowDoc(r).items) ==
            [Str("t"), Num(r.time)] + (if r.tag == None then [] else [Str("tg"), Str(r.tag.value)])
            + [Str("c"), Num(r.c), Str("m"), Num(r.m), Str("l"), Num(r.line), Str("sd"), Num(r.depth)]
  {
  }

  /** A snapshot names its step and declares as many entries as there are variables, arrays,
      collections, maps and fields. */
  lemma SnapshotTokens(step: int, c: Collected, h: ShallowView.Heap)
    ensures Flatten(SnapshotDoc(step, c, h)) ==
            [MapBegin(2), Str("i"), Num(step), Str("sn")]
            + [ArrayBegin(|c.variables| + |c.arrays| + |c.collections| + |c.maps| + |c.fields|)]
            + FlattenAll(EntryDocs(Entries(c), h)) + [ArrayEnd, MapEnd]
  {
    var leaves := [TextDoc("i"), Leaf(Whole(step)), TextDoc("sn")];
    var docs := EntryDocs(Entries(c), h);
    assert |docs| == |c.variables| + |c.arrays| + |c.collections| + |c.maps| + |c.fields|;
    assert Tokens(leaves) == [Str("i"), Num(step), Str("sn")];
    hide Entries;
    hide EntryDocs;
    assert SnapshotDoc(step, c, h) == Dict(leaves + [List(docs)]);
    assert AllLeaves(leaves);
    hide *;
    LeavesThen(leaves, List(docs));
    ListTokens(docs);
    Enclosed([MapBegin(2), Str("i"), Num(step), Str("sn")], ArrayBegin(|docs|), FlattenAll(docs), ArrayEnd, MapEnd);
    assert [MapBegin(2)] + [Str("i"), Num(step), Str("sn")] == [MapBegin(2), Str("i"), Num(step), Str("sn")];
  }

  lemma Enclosed(a: seq<Token>, b: Token, c: seq<Token>, d: Token, e: Token)
    ensures a + ([b] + c + [d]) + [e] == a + [b] + c + [d, e]
  {
  }

  // ---------------------------------------------------------------- the entries of a snapshot

  /** The entries are the variables by name, the arrays, the collections, the maps and the
      fields by owner and name, in this order, each with its value; integers of boolean and
      character variables are converted. */
  lemma EntriesExactly(c: Collected, i: nat)
    ensures |Entries(c)| == |c.variables| + |c.arrays| + |c.collections| + |c.maps| + |c.fields|
    ensures i < |c.variables| ==>
              var (v, e) := (c.variables[i], Entries(c)[i]);
              && e.opening == Named(v.def.name)
              && (v.def.desc != "Z" && v.def.desc != "C" ==> e.value == v.value)
              && (v.def.desc == "Z" && v.value.Boxed? && v.value.s.Whole? ==> e.value == Boxed(Truth(v.value.s.n == 1)))
              && (v.def.desc == "C" && v.value.Boxed? && v.value.s.Whole? ==> e.value == Boxed(Letter(v.value.s.n % 0x1_0000)))
              && ((v.def.desc == "Z" || v.def.desc == "C") && !(v.value.Boxed? && v.value.s.Whole?) ==> e.value == ShallowView.Null)
    ensures i < |c.arrays| ==> Entries(c)[|c.variables| + i] == Modified(Bare, c.arrays[i])
    ensures i < |c.collections| ==> Entries(c)[|c.variables| + |c.arrays| + i] == Modified(Bare, c.collections[i])
    ensures i < |c.maps| ==> Entries(c)[|c.variables| + |c.arrays| + |c.collections| + i] == Modified(Bare, c.maps[i])
    ensures i < |c.fields| ==>
              Entries(c)[|c.variables| + |c.arrays| + |c.collections| + |c.maps| + i]
              == Modified(FieldOf(c.fields[i].parentId, c.fields[i].name), c.fields[i].value)
  {
  }

  /** A snapshot is packed without throwing exactly when no boolean or character variable
      holds null, nothing but arrays, collections and maps was reported as one, and every
      value packs. */
  lemma PacksExactly(c: Collected, h: ShallowView.Heap)
    ensures Packs(c, h) <==>
            && (forall v :: v in c.variables ==> (v.def.desc == "Z" || v.def.desc == "C" ==> v.value != ShallowView.Null))
            && (forall e :: e in Entries(c) ==> ContentPacks(e.value, h, e.opening == Bare))
            && (forall e :: e in Entries(c) && e.opening == Bare ==> e.value.Null? || (e.value.Ref? && e.value.kind != OtherKind))
  {
    hide Entries;
    hide ContentPacks;
  }

  // ---------------------------------------------------------------- the lines of a recording

  // The record names what the hook was given, the depth and the tag of that moment; the entries
  // are there exactly when something was collected and all of it packed.
  ghost predicate CapturedAs(before: State, call: Call, line: Merged) {
    && call.Line?
    && (var c := Collect(before, call.c, call.m, call.label_);
        && line.record.time == call.now && line.record.c == call.c && line.record.m == call.m
        && line.record.line == call.line && line.record.depth == before.depth && line.record.tag == before.tag
        && (line.sn.Some? <==> Entries(c) != [] && call.mishap.Fine? && Packs(c, call.heap))
        && (line.sn.Some? ==> line.sn.value == Views(Entries(c), call.heap)))
  }

  /** The n-th merged line is the n-th line captured, in the state its predecessors leave. */
  lemma {:induction false} ExpectedIsCaptured(calls: seq<Call>, s: State, n: nat)
    requires n < |Expected(calls, s)|
    ensures |CapturedAt(calls, s)| == |Expected(calls, s)| && CapturedAt(calls, s)[n] < |calls|
    ensures var at := CapturedAt(calls, s)[n];
            CapturedAs(Run(calls[..at], s), calls[at], Expected(calls, s)[n])
    decreases |calls|
  {
    SameLength(calls, s);
    hide *;
    if calls == [] {
      NothingExpected(s);
    } else {
      var last := |calls| - 1;
      var head := calls[..last];
      ExpectedStep(calls, s);
      CapturedAtStep(calls, s);
      SameLength(head, s);
      if n < |Expected(head, s)| {
        ExpectedIsCaptured(head, s, n);
        var at := CapturedAt(head, s)[n];
        assert calls[..at] == head[..at] && calls[at] == head[at];
      } else {
        ReportSpelled(Run(head, s), calls[last]);
      }
    }
  }

  lemma NothingExpected(s: State)
    ensures Expected([], s) == []
  {
  }

  lemma ReportSpelled(before: State, call: Call)
    requires call.Line?
    ensures CapturedAs(before, call, Merged(FlowRecordOf(before, call), ReportOf(before, call)))
  {
    hide Packs;
    hide Resolve;
    hide Views;
  }

  lemma {:induction false} SameLength(calls: seq<Call>, s: State)
    ensures |CapturedAt(calls, s)| == |Expected(calls, s)|
    decreases |calls|
  {
    hide Run;
    hide ReportOf;
    if calls != [] {
      SameLength(calls[..|calls| - 1], s);
      ExpectedStep(calls, s);
      CapturedAtStep(calls, s);
    }
  }
}
