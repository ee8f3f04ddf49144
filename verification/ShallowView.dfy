/**
 What is written for a modified variable, array, collection, map or field: one shallow
 document, and what a reader recovers from it.
 */
module ShallowView {
  import opened Wrappers
  import opened Documents

  // ---------------------------------------------------------------- values on the heap

  datatype Kind = ArrayKind | CollectionKind | MapKind | OtherKind

  // A reference carries the identity hash code and the class name of the object.
  datatype Value = Null | Boxed(s: Scalar) | Ref(address: nat, hash: int, cls: string, kind: Kind)

  datatype Elements = Raw(scalars: seq<JsonScalar>) | Strings(strings: seq<Option<string>>) | Objects(values: seq<Value>)

  // None where size() or iterator() throws; `throws` when iterating throws after the elements.
  datatype Iteration<T> = Iteration(size: Option<nat>, elements: Option<seq<T>>, throws: bool)

  // None where getKey() or getValue() throws.
  datatype MapEntry = MapEntry(key: Option<Value>, value: Option<Value>)

  // The text of classes, types, enumeration constants and members.
  datatype Extra = NoExtra | ToText(s: Option<string>) | TextThrows

  // No entry set when entrySet() throws or answers null.
  datatype Heap = Heap(
    arrays: nat -> Elements,
    collections: nat -> Iteration<Value>,
    maps: nat -> Option<Iteration<MapEntry>>,
    texts: nat -> Extra)

  // What an entry of a snapshot is about.
  datatype Opening = Bare | Named(name: string) | FieldOf(owner: int, name: string)

  predicate Clojure(v: Value)
    requires v.Ref?
  {
    "clojure.lang" <= v.cls
  }

  // Floating values for which JSON has no notation are written as text.
  function Printed(s: Scalar): JsonScalar {
    match s
    case Fraction(NaN) => Text("NaN")
    case Fraction(NegativeInfinity) => Text("-Infinity")
    case Fraction(PositiveInfinity) => Text("Infinity")
    case _ => s
  }

  // ---------------------------------------------------------------- the documents

  function TextDoc(s: string): Doc { Leaf(Text(s)) }

  function TextOrNil(s: Option<string>): Doc {
    if s.Some? then TextDoc(s.value) else NilDoc
  }

  function OpeningDocs(o: Opening): seq<Doc> {
    match o
    case Bare => []
    case Named(name) => [TextDoc("n"), TextDoc(name)]
    case FieldOf(owner, name) => [TextDoc("o"), Leaf(Whole(owner)), TextDoc("n"), TextDoc(name)]
  }

  function PrimitiveDocs(s: Option<Scalar>): seq<Doc> {
    [TextDoc("t"), TextDoc("P"), TextDoc("v"), if s.Some? then Leaf(Printed(s.value)) else NilDoc]
  }

  function ObjectDocs(v: Value, h: Heap): seq<Doc>
    requires v.Ref?
  {
    [TextDoc("t"), TextDoc("O"), TextDoc("#c"), TextDoc(v.cls), TextDoc("id"), Leaf(Whole(v.hash))]
    + if h.texts(v.address).ToText? then [TextDoc("#toS"), TextOrNil(h.texts(v.address).s)] else []
  }

  function HeaderDocs(tag: string, v: Value): seq<Doc>
    requires v.Ref?
  {
    [TextDoc("t"), TextDoc(tag), TextDoc("id"), Leaf(Whole(v.hash))]
  }

  // An element of an array or collection, a key or a value of a map.
  function ElementDoc(v: Value, h: Heap): Doc {
    match v
    case Null => NilDoc
    case Boxed(s) => Dict(PrimitiveDocs(Some(s)))
    case Ref(_, _, _, kind) => if kind.ArrayKind? then Dict(HeaderDocs("A", v)) else Dict(ObjectDocs(v, h))
  }

  function ElementDocs(vs: seq<Value>, h: Heap): (r: seq<Doc>)
    ensures |r| == |vs|
  {
    seq(|vs|, i requires 0 <= i < |vs| => ElementDoc(vs[i], h))
  }

  function ArrayDoc(e: Elements, h: Heap): Doc {
    match e
    case Raw(scalars) => List(seq(|scalars|, i requires 0 <= i < |scalars| => Leaf(scalars[i])))
    case Strings(strings) => List(seq(|strings|, i requires 0 <= i < |strings| => TextOrNil(strings[i])))
    case Objects(values) => List(ElementDocs(values, h))
  }

  function CollectionDoc(c: Iteration<Value>, h: Heap): Doc {
    if c.size.None? || c.elements.None? then NilDoc else List(ElementDocs(c.elements.value, h))
  }

  function OrNull(v: Option<Value>): Value {
    if v.Some? then v.value else Null
  }

  function MapEntryDoc(e: MapEntry, h: Heap): Doc {
    Dict([TextDoc("k"), ElementDoc(OrNull(e.key), h), TextDoc("v"), ElementDoc(OrNull(e.value), h)])
  }

  // When fewer entries than declared are found, nil takes their place.
  function MapDoc(m: Option<Iteration<MapEntry>>, h: Heap): Doc {
    if m.None? || m.value.size.None? || m.value.elements.None? then NilDoc
    else
      var entries := m.value.elements.value;
      List(seq(|entries|, i requires 0 <= i < |entries| => MapEntryDoc(entries[i], h)) + Nils(m.value.size.value - |entries|))
  }

  function Nils(n: int): (r: seq<Doc>)
    ensures |r| == if n < 0 then 0 else n
    ensures forall d :: d in r ==> d == NilDoc
  {
    seq(if n < 0 then 0 else n, _ => NilDoc)
  }

  // What follows the opening. A named collection or map leaves out its elements unless it is
  // one of Clojure's.
  function ContentDocs(v: Value, h: Heap, full: bool): seq<Doc> {
    match v
    case Null => PrimitiveDocs(None)
    case Boxed(s) => PrimitiveDocs(Some(s))
    case Ref(a, _, _, kind) =>
      match kind
      case ArrayKind => HeaderDocs("A", v) + [TextDoc("v"), ArrayDoc(h.arrays(a), h)]
      case CollectionKind =>
        HeaderDocs("C", v) + if full || Clojure(v) then [TextDoc("v"), CollectionDoc(h.collections(a), h)] else []
      case MapKind =>
        HeaderDocs("M", v) + if full || Clojure(v) then [TextDoc("v"), MapDoc(h.maps(a), h)] else []
      case OtherKind => ObjectDocs(v, h)
  }

  // One entry of a snapshot. A modified array, collection or map has no opening.
  function EntryDoc(o: Opening, v: Value, h: Heap): Doc {
    if o.Bare? && v.Null? then NilDoc
    else Dict(OpeningDocs(o) + ContentDocs(v, h, o.Bare?))
  }

  // ---------------------------------------------------------------- when packing does not throw

  predicate ElementPacks(v: Value, h: Heap) {
    v.Ref? && !v.kind.ArrayKind? ==> !h.texts(v.address).TextThrows?
  }

  predicate ElementsPack(vs: seq<Value>, h: Heap) {
    forall v :: v in vs ==> ElementPacks(v, h)
  }

  // The declared size is checked against the elements found.
  predicate CollectionPacks(c: Iteration<Value>, h: Heap) {
    c.size.Some? && c.elements.Some? ==>
      !c.throws && |c.elements.value| == c.size.value && ElementsPack(c.elements.value, h)
  }

  // For maps only too many entries are an error.
  predicate MapPacks(m: Option<Iteration<MapEntry>>, h: Heap) {
    m.Some? && m.value.size.Some? && m.value.elements.Some? ==>
      && !m.value.throws && |m.value.elements.value| <= m.value.size.value
      && forall e :: e in m.value.elements.value ==> ElementPacks(OrNull(e.key), h) && ElementPacks(OrNull(e.value), h)
  }

  predicate ContentPacks(v: Value, h: Heap, full: bool) {
    v.Ref? ==>
      match v.kind
      case ArrayKind => h.arrays(v.address).Objects? ==> ElementsPack(h.arrays(v.address).values, h)
      case CollectionKind => full || Clojure(v) ==> CollectionPacks(h.collections(v.address), h)
      case MapKind => full || Clojure(v) ==> MapPacks(h.maps(v.address), h)
      case OtherKind => !h.texts(v.address).TextThrows?
  }

  // A modified array, collection or map: anything else throws.
  predicate Fits(o: Opening, v: Value) {
    o.Bare? ==> v.Null? || (v.Ref? && !v.kind.OtherKind?)
  }

  // ---------------------------------------------------------------- what a reader recovers

  datatype Element =
    | Nothing
    | Scalar(s: Documents.Scalar)
    | Primitive(s: Documents.Scalar)
    | ArrayAt(id: int)
    | ObjectAt(cls: string, id: int, text: Option<Option<string>>)

  datatype Held<T> = NotWritten | Unreadable | Elements(elements: seq<T>)

  datatype Content =
    | PrimitiveContent(s: Option<Documents.Scalar>)
    | ArrayContent(id: int, elements: seq<Element>)
    | CollectionContent(id: int, held: Held<Element>)
    | MapContent(id: int, entries: Held<Option<(Element, Element)>>)
    | ObjectContent(cls: string, id: int, text: Option<Option<string>>)

  datatype Entry = NilEntry | Entry(owner: Option<int>, name: Option<string>, content: Content)

  function Lookup(items: seq<Doc>, key: string): Option<Doc> {
    if |items| < 2 then None
    else if items[0] == TextDoc(key) then Some(items[1])
    else Lookup(items[2..], key)
  }

  function AsText(d: Option<Doc>): Option<string> {
    if d.Some? && d.value.Leaf? && d.value.s.Text? then Some(d.value.s.s) else None
  }

  function AsWhole(d: Option<Doc>): Option<int> {
    if d.Some? && d.value.Leaf? && d.value.s.Whole? then Some(d.value.s.n) else None
  }

  function AsScalar(d: Option<Doc>): Option<Documents.Scalar> {
    if d.Some? && d.value.Leaf? then Some(d.value.s) else None
  }

  // Present or not, and then text or nil.
  function AsExtra(d: Option<Doc>): Option<Option<string>> {
    if d.None? then None else Some(AsText(d))
  }

  function ReadElement(d: Doc): Option<Element> {
    match d
    case NilDoc => Some(Nothing)
    case Leaf(s) => Some(Scalar(s))
    case List(_) => None
    case Dict(items) =>
      var tag := AsText(Lookup(items, "t"));
      var id := AsWhole(Lookup(items, "id"));
      if tag == Some("P") && Lookup(items, "v").Some? && Lookup(items, "v").value.Leaf? then
        Some(Primitive(Lookup(items, "v").value.s))
      else if tag == Some("A") && id.Some? then Some(ArrayAt(id.value))
      else if tag == Some("O") && id.Some? && AsText(Lookup(items, "#c")).Some? then
        Some(ObjectAt(AsText(Lookup(items, "#c")).value, id.value, AsExtra(Lookup(items, "#toS"))))
      else None
  }

  function ReadElements(ds: seq<Doc>): Option<seq<Element>> {
    if ds == [] then Some([])
    else
      var first, others := ReadElement(ds[0]), ReadElements(ds[1..]);
      if first.None? || others.None? then None else Some([first.value] + others.value)
  }

  function ReadMapEntry(d: Doc): Option<Option<(Element, Element)>> {
    match d
    case NilDoc => Some(None)
    case Dict(items) =>
      (var k, v := Lookup(items, "k"), Lookup(items, "v");
       if k.None? || v.None? || ReadElement(k.value).None? || ReadElement(v.value).None? then None
       else Some(Some((ReadElement(k.value).value, ReadElement(v.value).value))))
    case _ => None
  }

  function ReadMapEntries(ds: seq<Doc>): Option<seq<Option<(Element, Element)>>> {
    if ds == [] then Some([])
    else
      var first, others := ReadMapEntry(ds[0]), ReadMapEntries(ds[1..]);
      if first.None? || others.None? then None else Some([first.value] + others.value)
  }

  function ReadHeld(d: Option<Doc>): Option<Held<Element>> {
    match d
    case None => Some(NotWritten)
    case Some(NilDoc) => Some(Unreadable)
    case Some(List(ds)) => if ReadElements(ds).Some? then Some(Elements(ReadElements(ds).value)) else None
    case _ => None
  }

  function ReadHeldEntries(d: Option<Doc>): Option<Held<Option<(Element, Element)>>> {
    match d
    case None => Some(NotWritten)
    case Some(NilDoc) => Some(Unreadable)
    case Some(List(ds)) => if ReadMapEntries(ds).Some? then Some(Elements(ReadMapEntries(ds).value)) else None
    case _ => None
  }

  function ReadContent(items: seq<Doc>): Option<Content> {
    var tag, id, v := AsText(Lookup(items, "t")), AsWhole(Lookup(items, "id")), Lookup(items, "v");
    if tag == Some("P") && v.Some? && (v.value.NilDoc? || v.value.Leaf?) then Some(PrimitiveContent(AsScalar(v)))
    else if id.None? then None
    else if tag == Some("A") then
      if ReadHeld(v).Some? && ReadHeld(v).value.Elements? then Some(ArrayContent(id.value, ReadHeld(v).value.elements)) else None
    else if tag == Some("C") then
      if ReadHeld(v).Some? then Some(CollectionContent(id.value, ReadHeld(v).value)) else None
    else if tag == Some("M") then
      if ReadHeldEntries(v).Some? then Some(MapContent(id.value, ReadHeldEntries(v).value)) else None
    else if tag == Some("O") && AsText(Lookup(items, "#c")).Some? then
      Some(ObjectContent(AsText(Lookup(items, "#c")).value, id.value, AsExtra(Lookup(items, "#toS"))))
    else None
  }

  function ReadEntry(d: Doc): Option<Entry> {
    match d
    case NilDoc => Some(NilEntry)
    case Dict(items) =>
      if ReadContent(items).None? then None
      else Some(Entry(AsWhole(Lookup(items, "o")), AsText(Lookup(items, "n")), ReadContent(items).value))
    case _ => None
  }

  // ---------------------------------------------------------------- the shallow view of a value

  function TextOf(v: Value, h: Heap): Option<Option<string>>
    requires v.Ref?
  {
    if h.texts(v.address).ToText? then Some(h.texts(v.address).s) else None
  }

  function ElementView(v: Value, h: Heap): Element {
    match v
    case Null => Nothing
    case Boxed(s) => Primitive(Printed(s))
    case Ref(_, hash, cls, kind) => if kind.ArrayKind? then ArrayAt(hash) else ObjectAt(cls, hash, TextOf(v, h))
  }

  function ElementViews(vs: seq<Value>, h: Heap): (r: seq<Element>)
    ensures |r| == |vs|
  {
    seq(|vs|, i requires 0 <= i < |vs| => ElementView(vs[i], h))
  }

  function ArrayView(e: Elements, h: Heap): seq<Element> {
    match e
    case Raw(scalars) => seq(|scalars|, i requires 0 <= i < |scalars| => Scalar(scalars[i]))
    case Strings(strings) =>
      seq(|strings|, i requires 0 <= i < |strings| => if strings[i].Some? then Scalar(Text(strings[i].value)) else Nothing)
    case Objects(values) => ElementViews(values, h)
  }

  function MapView(entries: seq<MapEntry>, size: nat, h: Heap): seq<Option<(Element, Element)>> {
    seq(|entries|, i requires 0 <= i < |entries| =>
      Some((ElementView(OrNull(entries[i].key), h), ElementView(OrNull(entries[i].value), h))))
    + seq(if size < |entries| then 0 else size - |entries|, _ => None)
  }

  function ContentView(v: Value, h: Heap, full: bool): Content {
    match v
    case Null => PrimitiveContent(None)
    case Boxed(s) => PrimitiveContent(Some(Printed(s)))
    case Ref(a, hash, cls, kind) =>
      match kind
      case ArrayKind => ArrayContent(hash, ArrayView(h.arrays(a), h))
      case CollectionKind =>
        (var c := h.collections(a);
         CollectionContent(hash,
           if !full && !Clojure(v) then NotWritten
           else if c.size.None? || c.elements.None? then Unreadable
           else Elements(ElementViews(c.elements.value, h))))
      case MapKind =>
        (var m := h.maps(a);
         MapContent(hash,
           if !full && !Clojure(v) then NotWritten
           else if m.None? || m.value.size.None? || m.value.elements.None? then Unreadable
           else Elements(MapView(m.value.elements.value, m.value.size.value, h))))
      case OtherKind => ObjectContent(cls, hash, TextOf(v, h))
  }

  function EntryView(o: Opening, v: Value, h: Heap): Entry {
    if o.Bare? && v.Null? then NilEntry
    else Entry(if o.FieldOf? then Some(o.owner) else None, if o.Bare? then None else Some(o.name), ContentView(v, h, o.Bare?))
  }

  // ---------------------------------------------------------------- reading gives the view back

  lemma {:induction false} LookupAppends(a: seq<Doc>, b: seq<Doc>, key: string)
    requires |a| % 2 == 0
    ensures Lookup(a + b, key) == if Lookup(a, key).Some? then Lookup(a, key) else Lookup(b, key)
    decreases |a|
  {
    if a == [] {
      assert a + b == b;
    } else {
      assert (a + b)[2..] == a[2..] + b;
      LookupAppends(a[2..], b, key);
    }
  }

  lemma LookupOne(k: string, d: Doc, key: string)
    ensures Lookup([TextDoc(k), d], key) == if k == key then Some(d) else None
  {
    assert [TextDoc(k), d][2..] == [];
  }

  lemma LookupTwo(k1: string, d1: Doc, k2: string, d2: Doc, key: string)
    ensures Lookup([TextDoc(k1), d1, TextDoc(k2), d2], key) == if k1 == key then Some(d1) else if k2 == key then Some(d2) else None
  {
    assert [TextDoc(k1), d1, TextDoc(k2), d2][2..] == [TextDoc(k2), d2];
    LookupOne(k2, d2, key);
  }

  lemma LookupInObject(v: Value, h: Heap, key: string)
    requires v.Ref?
    ensures Lookup(ObjectDocs(v, h), key) ==
            if key == "t" then Some(TextDoc("O")) else if key == "#c" then Some(TextDoc(v.cls))
            else if key == "id" then Some(Leaf(Whole(v.hash)))
            else if key == "#toS" && TextOf(v, h).Some? then Some(TextOrNil(TextOf(v, h).value)) else None
  {
    var a := [TextDoc("t"), TextDoc("O"), TextDoc("#c"), TextDoc(v.cls)];
    var b := [TextDoc("id"), Leaf(Whole(v.hash))];
    var c := if h.texts(v.address).ToText? then [TextDoc("#toS"), TextOrNil(h.texts(v.address).s)] else [];
    hide Lookup;
    LookupTwo("t", TextDoc("O"), "#c", TextDoc(v.cls), key);
    LookupOne("id", Leaf(Whole(v.hash)), key);
    if c != [] {
      LookupOne("#toS", c[1], key);
    } else {
      LookupNothing(key);
    }
    LookupAppends(a + b, c, key);
    LookupAppends(a, b, key);
    assert a + b + c == ObjectDocs(v, h);
  }

  lemma LookupNothing(key: string)
    ensures Lookup([], key) == None
  {
  }

  lemma ElementReads(v: Value, h: Heap)
    ensures ReadElement(ElementDoc(v, h)) == Some(ElementView(v, h))
  {
    hide Lookup;
    match v
    case Null =>
    case Boxed(s) =>
      LookupTwo("t", TextDoc("P"), "v", Leaf(Printed(s)), "t");
      LookupTwo("t", TextDoc("P"), "v", Leaf(Printed(s)), "v");
    case Ref(_, hash, cls, kind) =>
      if kind.ArrayKind? {
        LookupTwo("t", TextDoc("A"), "id", Leaf(Whole(hash)), "t");
        LookupTwo("t", TextDoc("A"), "id", Leaf(Whole(hash)), "id");
      } else {
        hide ObjectDocs;
        LookupInObject(v, h, "t");
        LookupInObject(v, h, "#c");
        LookupInObject(v, h, "id");
        LookupInObject(v, h, "#toS");
      }
  }

  lemma {:induction false} ReadElementsByOne(ds: seq<Doc>, es: seq<Element>)
    requires |ds| == |es| && forall i :: 0 <= i < |ds| ==> ReadElement(ds[i]) == Some(es[i])
    ensures ReadElements(ds) == Some(es)
    decreases |ds|
  {
    if ds != [] {
      ReadElementsByOne(ds[1..], es[1..]);
      assert [es[0]] + es[1..] == es;
    }
  }

  lemma {:induction false} ReadMapEntriesByOne(ds: seq<Doc>, es: seq<Option<(Element, Element)>>)
    requires |ds| == |es| && forall i :: 0 <= i < |ds| ==> ReadMapEntry(ds[i]) == Some(es[i])
    ensures ReadMapEntries(ds) == Some(es)
    decreases |ds|
  {
    if ds != [] {
      ReadMapEntriesByOne(ds[1..], es[1..]);
      assert [es[0]] + es[1..] == es;
    }
  }

  lemma ElementsRead(vs: seq<Value>, h: Heap)
    ensures ReadElements(ElementDocs(vs, h)) == Some(ElementViews(vs, h))
  {
    forall i | 0 <= i < |vs|
      ensures ReadElement(ElementDocs(vs, h)[i]) == Some(ElementViews(vs, h)[i])
    {
      ElementReads(vs[i], h);
    }
    ReadElementsByOne(ElementDocs(vs, h), ElementViews(vs, h));
  }

  lemma ArrayReads(e: Elements, h: Heap)
    ensures ReadHeld(Some(ArrayDoc(e, h))) == Some(Elements(ArrayView(e, h)))
  {
    match e
    case Objects(vs) => ElementsRead(vs, h);
    case _ => ReadElementsByOne(ArrayDoc(e, h).items, ArrayView(e, h));
  }

  lemma CollectionReads(c: Iteration<Value>, h: Heap)
    ensures ReadHeld(Some(CollectionDoc(c, h))) ==
            Some(if c.size.None? || c.elements.None? then Unreadable else Elements(ElementViews(c.elements.value, h)))
  {
    if c.elements.Some? {
      ElementsRead(c.elements.value, h);
    }
  }

  lemma MapEntryReads(e: MapEntry, h: Heap)
    ensures ReadMapEntry(MapEntryDoc(e, h)) == Some(Some((ElementView(OrNull(e.key), h), ElementView(OrNull(e.value), h))))
  {
    var k, v := ElementDoc(OrNull(e.key), h), ElementDoc(OrNull(e.value), h);
    hide Lookup;
    hide ReadElement;
    hide ElementDoc;
    LookupTwo("k", k, "v", v, "k");
    LookupTwo("k", k, "v", v, "v");
    ElementReads(OrNull(e.key), h);
    ElementReads(OrNull(e.value), h);
  }

  lemma MapReads(m: Option<Iteration<MapEntry>>, h: Heap)
    requires MapPacks(m, h)
    ensures ReadHeldEntries(Some(MapDoc(m, h))) ==
            Some(if m.None? || m.value.size.None? || m.value.elements.None? then Unreadable
                 else Elements(MapView(m.value.elements.value, m.value.size.value, h)))
  {
    hide MapEntryDoc;
    if m.Some? && m.value.size.Some? && m.value.elements.Some? {
      var entries, size := m.value.elements.value, m.value.size.value;
      var ds, es := MapDoc(m, h).items, MapView(entries, size, h);
      forall i | 0 <= i < |ds|
        ensures ReadMapEntry(ds[i]) == Some(es[i])
      {
        if i < |entries| {
          MapEntryReads(entries[i], h);
        } else {
          assert ds[i] == Nils(size - |entries|)[i - |entries|];
        }
      }
      ReadMapEntriesByOne(ds, es);
    }
  }

  lemma LookupInOpening(o: Opening, key: string)
    ensures |OpeningDocs(o)| % 2 == 0
    ensures Lookup(OpeningDocs(o), key) ==
            if key == "o" && o.FieldOf? then Some(Leaf(Whole(o.owner)))
            else if key == "n" && !o.Bare? then Some(TextDoc(o.name)) else None
  {
    hide Lookup;
    match o
    case Bare => LookupNothing(key);
    case Named(name) => LookupOne("n", TextDoc(name), key);
    case FieldOf(owner, name) => LookupTwo("o", Leaf(Whole(owner)), "n", TextDoc(name), key);
  }

  lemma LookupInHeader(tag: string, v: Value, held: seq<Doc>, key: string)
    requires v.Ref? && (held == [] || (|held| == 2 && held[0] == TextDoc("v")))
    ensures Lookup(HeaderDocs(tag, v) + held, key) ==
            if key == "t" then Some(TextDoc(tag)) else if key == "id" then Some(Leaf(Whole(v.hash)))
            else if key == "v" && held != [] then Some(held[1]) else None
  {
    hide Lookup;
    LookupTwo("t", TextDoc(tag), "id", Leaf(Whole(v.hash)), key);
    LookupAppends(HeaderDocs(tag, v), held, key);
    if held == [] {
      LookupNothing(key);
    } else {
      LookupOne("v", held[1], key);
      assert held == [TextDoc("v"), held[1]];
    }
  }

  // The keys of the content are found behind any opening.
  lemma ContentReads(items: seq<Doc>, v: Value, h: Heap, full: bool)
    requires ContentPacks(v, h, full)
    requires forall key :: key in ["t", "id", "v", "#c", "#toS"] ==> Lookup(items, key) == Lookup(ContentDocs(v, h, full), key)
    ensures ReadContent(items) == Some(ContentView(v, h, full))
  {
    hide Lookup;
    hide ReadHeld;
    hide ReadHeldEntries;
    assert forall key :: key in ["t", "id", "v", "#c", "#toS"] <==> key == "t" || key == "id" || key == "v" || key == "#c" || key == "#toS";
    match v
    case Null => PrimitiveReads(items, None);
    case Boxed(s) => PrimitiveReads(items, Some(s));
    case Ref(a, hash, cls, kind) =>
      if kind.OtherKind? {
        hide ObjectDocs;
        LookupInObject(v, h, "t");
        LookupInObject(v, h, "#c");
        LookupInObject(v, h, "id");
        LookupInObject(v, h, "v");
        LookupInObject(v, h, "#toS");
      } else {
        var tag := if kind.ArrayKind? then "A" else if kind.CollectionKind? then "C" else "M";
        HeldReads(v, h, full);
        var held := HeldDocs(v, h, full);
        LookupInHeader(tag, v, held, "t");
        LookupInHeader(tag, v, held, "id");
        LookupInHeader(tag, v, held, "v");
      }
  }

  function HeldDocs(v: Value, h: Heap, full: bool): seq<Doc>
    requires v.Ref?
  {
    match v.kind
    case ArrayKind => [TextDoc("v"), ArrayDoc(h.arrays(v.address), h)]
    case CollectionKind => if full || Clojure(v) then [TextDoc("v"), CollectionDoc(h.collections(v.address), h)] else []
    case MapKind => if full || Clojure(v) then [TextDoc("v"), MapDoc(h.maps(v.address), h)] else []
    case OtherKind => []
  }

  lemma PrimitiveReads(items: seq<Doc>, s: Option<Documents.Scalar>)
    requires Lookup(items, "t") == Lookup(PrimitiveDocs(s), "t") && Lookup(items, "v") == Lookup(PrimitiveDocs(s), "v")
    ensures ReadContent(items) == Some(PrimitiveContent(if s.Some? then Some(Printed(s.value)) else None))
  {
    hide Lookup;
    var d := if s.Some? then Leaf(Printed(s.value)) else NilDoc;
    LookupTwo("t", TextDoc("P"), "v", d, "t");
    LookupTwo("t", TextDoc("P"), "v", d, "v");
  }

  lemma HeldReads(v: Value, h: Heap, full: bool)
    requires v.Ref? && !v.kind.OtherKind? && ContentPacks(v, h, full)
    ensures var held := HeldDocs(v, h, full);
            var d := if held == [] then None else Some(held[1]);
            match ContentView(v, h, full)
            case ArrayContent(_, es) => ReadHeld(d) == Some(Elements(es))
            case CollectionContent(_, es) => ReadHeld(d) == Some(es)
            case MapContent(_, es) => ReadHeldEntries(d) == Some(es)
            case _ => false
  {
    match v.kind
    case ArrayKind => ArrayReads(h.arrays(v.address), h);
    case CollectionKind => CollectionReads(h.collections(v.address), h);
    case MapKind => if full || Clojure(v) { MapReads(h.maps(v.address), h); }
  }

  /** Whatever packs without throwing is read back as the shallow view of the value. */
  lemma EntryReads(o: Opening, v: Value, h: Heap)
    requires ContentPacks(v, h, o.Bare?)
    ensures ReadEntry(EntryDoc(o, v, h)) == Some(EntryView(o, v, h))
  {
    if !(o.Bare? && v.Null?) {
      var content := ContentDocs(v, h, o.Bare?);
      hide Lookup;
      hide ReadContent;
      hide ContentDocs;
      hide OpeningDocs;
      hide ContentView;
      hide ContentPacks;
      forall key | key in ["t", "id", "v", "#c", "#toS"] ensures Lookup(OpeningDocs(o) + content, key) == Lookup(content, key) {
        LookupBehindOpening(o, content, key);
      }
      LookupBehindOpening(o, content, "o");
      LookupBehindOpening(o, content, "n");
      NoOpeningKeys(v, h, o.Bare?);
      ContentReads(OpeningDocs(o) + content, v, h, o.Bare?);
    }
  }

  lemma LookupBehindOpening(o: Opening, content: seq<Doc>, key: string)
    ensures Lookup(OpeningDocs(o) + content, key) ==
            if key == "o" && o.FieldOf? then Some(Leaf(Whole(o.owner)))
            else if key == "n" && !o.Bare? then Some(TextDoc(o.name)) else Lookup(content, key)
  {
    LookupInOpening(o, key);
    hide Lookup;
    hide OpeningDocs;
    LookupAppends(OpeningDocs(o), content, key);
  }

  lemma NoOpeningKeys(v: Value, h: Heap, full: bool)
    ensures Lookup(ContentDocs(v, h, full), "o") == None && Lookup(ContentDocs(v, h, full), "n") == None
  {
    hide Lookup;
    forall key | key == "o" || key == "n"
      ensures Lookup(ContentDocs(v, h, full), key) == None
    {
      match v
      case Null => LookupTwo("t", TextDoc("P"), "v", NilDoc, key);
      case Boxed(s) => LookupTwo("t", TextDoc("P"), "v", Leaf(Printed(s)), key);
      case Ref(a, hash, cls, kind) =>
        if kind.OtherKind? {
          hide ObjectDocs;
          LookupInObject(v, h, key);
        } else {
          LookupInHeader(if kind.ArrayKind? then "A" else if kind.CollectionKind? then "C" else "M", v, HeldDocs(v, h, full), key);
        }
    }
  }

  lemma {:induction false} AllWellFormedEach(ds: seq<Doc>)
    requires forall i :: 0 <= i < |ds| ==> WellFormed(ds[i])
    ensures AllWellFormed(ds)
    decreases |ds|
  {
    if ds != [] {
      AllWellFormedEach(ds[1..]);
    }
  }

  // Keys, leaves and nil alone.
  lemma LeavesWellFormed(ds: seq<Doc>)
    requires forall i :: 0 <= i < |ds| ==> ds[i].Leaf? || ds[i].NilDoc?
    ensures AllWellFormed(ds)
  {
    AllWellFormedEach(ds);
  }

  lemma ElementWellFormed(v: Value, h: Heap)
    ensures WellFormed(ElementDoc(v, h))
  {
    if ElementDoc(v, h).Dict? {
      LeavesWellFormed(ElementDoc(v, h).items);
    }
  }

  lemma ElementsWellFormed(vs: seq<Value>, h: Heap)
    ensures AllWellFormed(ElementDocs(vs, h))
  {
    hide WellFormed;
    forall i | 0 <= i < |vs| ensures WellFormed(ElementDocs(vs, h)[i]) {
      ElementWellFormed(vs[i], h);
    }
    AllWellFormedEach(ElementDocs(vs, h));
  }

  lemma MapDocWellFormed(m: Option<Iteration<MapEntry>>, h: Heap)
    ensures WellFormed(MapDoc(m, h))
  {
    if MapDoc(m, h).List? {
      var ds, entries := MapDoc(m, h).items, m.value.elements.value;
      forall i | 0 <= i < |ds| ensures WellFormed(ds[i]) {
        if i < |entries| {
          var e := entries[i];
          var four := [TextDoc("k"), ElementDoc(OrNull(e.key), h), TextDoc("v"), ElementDoc(OrNull(e.value), h)];
          ElementWellFormed(OrNull(e.key), h);
          ElementWellFormed(OrNull(e.value), h);
          AllWellFormedEach(four);
          assert ds[i] == Dict(four);
        } else {
          assert ds[i] in Nils(m.value.size.value - |entries|);
        }
      }
      AllWellFormedEach(ds);
    }
  }

  lemma HeldWellFormed(v: Value, h: Heap, full: bool)
    requires v.Ref?
    ensures AllWellFormed(HeldDocs(v, h, full)) && |HeldDocs(v, h, full)| % 2 == 0
  {
    match v.kind
    case ArrayKind =>
      if h.arrays(v.address).Objects? {
        ElementsWellFormed(h.arrays(v.address).values, h);
      } else {
        LeavesWellFormed(ArrayDoc(h.arrays(v.address), h).items);
      }
      AllWellFormedEach(HeldDocs(v, h, full));
    case CollectionKind =>
      if h.collections(v.address).elements.Some? {
        ElementsWellFormed(h.collections(v.address).elements.value, h);
      }
      AllWellFormedEach(HeldDocs(v, h, full));
    case MapKind =>
      MapDocWellFormed(h.maps(v.address), h);
      AllWellFormedEach(HeldDocs(v, h, full));
    case OtherKind =>
  }

  lemma ContentWellFormed(v: Value, h: Heap, full: bool)
    ensures AllWellFormed(ContentDocs(v, h, full)) && |ContentDocs(v, h, full)| % 2 == 0
  {
    var content := ContentDocs(v, h, full);
    if v.Ref? && !v.kind.OtherKind? {
      var header := HeaderDocs(if v.kind.ArrayKind? then "A" else if v.kind.CollectionKind? then "C" else "M", v);
      var held := HeldDocs(v, h, full);
      assert content == header + held;
      HeldWellFormed(v, h, full);
      LeavesWellFormed(header);
      hide *;
      AllWellFormedAppends(header, held);
      assert |content| == |header| + |held|;
    } else {
      LeavesWellFormed(content);
    }
  }

  lemma EntryWellFormed(o: Opening, v: Value, h: Heap)
    ensures WellFormed(EntryDoc(o, v, h))
  {
    hide ContentDocs;
    if !(o.Bare? && v.Null?) {
      LeavesWellFormed(OpeningDocs(o));
      ContentWellFormed(v, h, o.Bare?);
      AllWellFormedAppends(OpeningDocs(o), ContentDocs(v, h, o.Bare?));
    }
  }

  /** From the tokens, whatever follows them, the reader finds the end of the entry by the
      declared sizes and recovers kind, name, owner, identity and shallow contents. */
  lemma EntryRoundTrip(o: Opening, v: Value, h: Heap, rest: seq<Token>)
    requires ContentPacks(v, h, o.Bare?)
    ensures ParseOne(Flatten(EntryDoc(o, v, h)) + rest) == Some(Parsed(EntryDoc(o, v, h), rest))
    ensures ReadEntry(EntryDoc(o, v, h)) == Some(EntryView(o, v, h))
  {
    EntryWellFormed(o, v, h);
    ParseOfFlatten(EntryDoc(o, v, h), rest);
    EntryReads(o, v, h);
  }
}
