/**
 Documents as a stream of tokens in which every map and array declares its size before its
 entries, and a reader that relies on those sizes.
 */
module Documents {
  import opened Wrappers

  // ---------------------------------------------------------------- documents and tokens

  datatype Floating = Finite(r: real) | NaN | PositiveInfinity | NegativeInfinity

  // The primitive types of Java and their boxes, strings and big numbers included.
  datatype Scalar = Whole(n: int) | LongWhole(n: int) | Fraction(f: Floating) | Text(s: string) | Letter(code: int) | Truth(b: bool)

  // JSON has no notation for the other floating values; the packer raises on them.
  type JsonScalar = s: Scalar | s.Fraction? ==> s.f.Finite? witness Whole(0)

  datatype Token = MapBegin(size: int) | MapEnd | ArrayBegin(size: int) | ArrayEnd | Nil | Plain(s: Scalar)

  // What is written to a stream: tokens and line ends.
  datatype Write = Item(t: Token) | LineEnd

  function Items(ts: seq<Token>): (r: seq<Write>)
    ensures |r| == |ts|
  {
    seq(|ts|, i requires 0 <= i < |ts| => Item(ts[i]))
  }

  // The items of a map are its keys and values in turn.
  datatype Doc = NilDoc | Leaf(s: Scalar) | List(items: seq<Doc>) | Dict(items: seq<Doc>)

  function Flatten(d: Doc): (ts: seq<Token>)
    ensures |ts| > 0
  {
    match d
    case NilDoc => [Nil]
    case Leaf(s) => [Plain(s)]
    case List(items) => [ArrayBegin(|items|)] + FlattenAll(items) + [ArrayEnd]
    case Dict(items) => [MapBegin(|items| / 2)] + FlattenAll(items) + [MapEnd]
  }

  function FlattenAll(ds: seq<Doc>): seq<Token> {
    if ds == [] then [] else Flatten(ds[0]) + FlattenAll(ds[1..])
  }

  // Every key has its value.
  predicate WellFormed(d: Doc) {
    match d
    case NilDoc => true
    case Leaf(_) => true
    case List(items) => AllWellFormed(items)
    case Dict(items) => |items| % 2 == 0 && AllWellFormed(items)
  }

  predicate AllWellFormed(ds: seq<Doc>) {
    ds == [] || (WellFormed(ds[0]) && AllWellFormed(ds[1..]))
  }

  lemma {:induction false} AllWellFormedAppends(a: seq<Doc>, b: seq<Doc>)
    ensures AllWellFormed(a + b) == (AllWellFormed(a) && AllWellFormed(b))
    decreases |a|
  {
    if a == [] {
      assert a + b == b;
    } else {
      assert (a + b)[1..] == a[1..] + b;
      AllWellFormedAppends(a[1..], b);
    }
  }

  lemma {:induction false} FlattenAppends(a: seq<Doc>, b: seq<Doc>)
    ensures FlattenAll(a + b) == FlattenAll(a) + FlattenAll(b)
    decreases |a|
  {
    if a == [] {
      assert a + b == b;
    } else {
      assert (a + b)[1..] == a[1..] + b;
      FlattenAppends(a[1..], b);
      var x, y, z := Flatten(a[0]), FlattenAll(a[1..]), FlattenAll(b);
      assert x + (y + z) == x + y + z;
    }
  }

  lemma FlattenOne(d: Doc)
    ensures FlattenAll([d]) == Flatten(d)
  {
    assert [d][1..] == [];
    assert Flatten(d) + [] == Flatten(d);
  }

  // ---------------------------------------------------------------- reading tokens back

  datatype Parsed<T> = Parsed(value: T, rest: seq<Token>)

  // A reader that relies on the declared sizes and finds the end where they say.
  function ParseOne(ts: seq<Token>): (r: Option<Parsed<Doc>>)
    ensures r.Some? ==> |r.value.rest| < |ts|
    decreases |ts|, 0
  {
    if ts == [] then None
    else
      match ts[0]
      case Nil => Some(Parsed(NilDoc, ts[1..]))
      case Plain(s) => Some(Parsed(Leaf(s), ts[1..]))
      case ArrayBegin(n) =>
        (var inner := ParseMany(ts[1..], n);
         if inner.None? || inner.value.rest == [] || inner.value.rest[0] != ArrayEnd then None
         else Some(Parsed(List(inner.value.value), inner.value.rest[1..])))
      case MapBegin(n) =>
        (var inner := ParseMany(ts[1..], 2 * n);
         if inner.None? || inner.value.rest == [] || inner.value.rest[0] != MapEnd then None
         else Some(Parsed(Dict(inner.value.value), inner.value.rest[1..])))
      case _ => None
  }

  function ParseMany(ts: seq<Token>, n: int): (r: Option<Parsed<seq<Doc>>>)
    ensures r.Some? ==> |r.value.rest| <= |ts| && |r.value.value| == n
    decreases |ts|, 1
  {
    if n < 0 then None
    else if n == 0 then Some(Parsed([], ts))
    else
      var first := ParseOne(ts);
      if first.None? then None
      else
        var others := ParseMany(first.value.rest, n - 1);
        if others.None? then None
        else Some(Parsed([first.value.value] + others.value.value, others.value.rest))
  }

  /** The reader accepts exactly the flattened documents and gives back the document. */
  lemma {:induction false} ParseOfFlatten(d: Doc, rest: seq<Token>)
    requires WellFormed(d)
    ensures ParseOne(Flatten(d) + rest) == Some(Parsed(d, rest))
    decreases d, 0
  {
    hide FlattenAll;
    hide ParseMany;
    hide AllWellFormed;
    var ts := Flatten(d) + rest;
    match d
    case NilDoc => assert ts[1..] == rest;
    case Leaf(s) => assert ts[1..] == rest;
    case List(items) =>
      ParseManyOfFlatten(items, [ArrayEnd] + rest);
      assert ts[1..] == FlattenAll(items) + ([ArrayEnd] + rest);
      assert ([ArrayEnd] + rest)[1..] == rest;
    case Dict(items) =>
      ParseManyOfFlatten(items, [MapEnd] + rest);
      assert ts[1..] == FlattenAll(items) + ([MapEnd] + rest);
      assert ([MapEnd] + rest)[1..] == rest;
  }

  lemma {:induction false} ParseManyOfFlatten(ds: seq<Doc>, rest: seq<Token>)
    requires AllWellFormed(ds)
    ensures ParseMany(FlattenAll(ds) + rest, |ds|) == Some(Parsed(ds, rest))
    decreases ds, 1
  {
    hide Flatten;
    hide ParseOne;
    hide WellFormed;
    if ds == [] {
      assert FlattenAll(ds) + rest == rest;
    } else {
      ParseOfFlatten(ds[0], FlattenAll(ds[1..]) + rest);
      ParseManyOfFlatten(ds[1..], rest);
      assert FlattenAll(ds) + rest == Flatten(ds[0]) + (FlattenAll(ds[1..]) + rest);
      assert [ds[0]] + ds[1..] == ds;
    }
  }

  lemma {:induction false} ParseIsSound(ts: seq<Token>)
    ensures ParseOne(ts).Some? ==>
              var p := ParseOne(ts).value;
              WellFormed(p.value) && ts == Flatten(p.value) + p.rest
    decreases |ts|, 0
  {
    hide FlattenAll;
    hide ParseMany;
    hide AllWellFormed;
    if ParseOne(ts).Some? {
      match ts[0]
      case Nil =>
      case Plain(s) =>
      case ArrayBegin(n) =>
        ParseManyIsSound(ts[1..], n);
        var inner := ParseMany(ts[1..], n).value;
        Bracketed(ts, FlattenAll(inner.value), inner.rest);
      case MapBegin(n) =>
        ParseManyIsSound(ts[1..], 2 * n);
        var inner := ParseMany(ts[1..], 2 * n).value;
        Bracketed(ts, FlattenAll(inner.value), inner.rest);
    }
  }

  lemma Bracketed(ts: seq<Token>, items: seq<Token>, rest: seq<Token>)
    requires ts != [] && ts[1..] == items + rest && rest != []
    ensures ts == [ts[0]] + items + [rest[0]] + rest[1..]
  {
    assert rest == [rest[0]] + rest[1..];
  }

  lemma {:induction false} ParseManyIsSound(ts: seq<Token>, n: int)
    ensures ParseMany(ts, n).Some? ==>
              var p := ParseMany(ts, n).value;
              AllWellFormed(p.value) && ts == FlattenAll(p.value) + p.rest
    decreases |ts|, 1
  {
    hide Flatten;
    hide ParseOne;
    hide WellFormed;
    if n > 0 && ParseMany(ts, n).Some? {
      ParseIsSound(ts);
      var first := ParseOne(ts).value;
      ParseManyIsSound(first.rest, n - 1);
      var others := ParseMany(first.rest, n - 1).value;
      assert ([first.value] + others.value)[1..] == others.value;
      assert ts == Flatten(first.value) + (FlattenAll(others.value) + others.rest);
    }
  }
}
