/**
 The stack instructions on words: a stack is a row of words of which a two-slot value takes two,
 and each instruction copies, drops or moves words wherever it does not cut a value in half.
 */
module StackWords {
  import opened Wrappers
  import opened Jvm

  datatype Word = Single(v: Value) | First(v: Value) | Second(v: Value)

  function WordsOf(v: Value): seq<Word> {
    match v
    case Long(_) => [First(v), Second(v)]
    case Double(_) => [First(v), Second(v)]
    case _ => [Single(v)]
  }

  // From the top.
  function Words(s: Stack): seq<Word> {
    match s
    case Empty => []
    case Push(v, rest) => WordsOf(v) + Words(rest)
  }

  // So many words from the top, whole values only.
  predicate Whole(s: Stack, n: nat) {
    n == 0 || (s.Push? && |WordsOf(s.top)| <= n && Whole(s.rest, n - |WordsOf(s.top)|))
  }

  // How many words the instruction takes, and which of them it leaves, counted from the top.
  function Taken(op: Opcode): nat {
    match op
    case Dup => 1 case DupX1 => 2 case DupX2 => 3
    case Dup2 => 2 case Dup2X1 => 3 case Dup2X2 => 4
    case Pop => 1 case Pop2 => 2 case Swap => 2
    case _ => 0
  }

  function Left(op: Opcode): seq<nat> {
    match op
    case Dup => [0, 0] case DupX1 => [0, 1, 0] case DupX2 => [0, 1, 2, 0]
    case Dup2 => [0, 1, 0, 1] case Dup2X1 => [0, 1, 2, 0, 1] case Dup2X2 => [0, 1, 2, 3, 0, 1]
    case Swap => [1, 0]
    case _ => []
  }

  // Below the words that are copied or swapped.
  function Cut(op: Opcode): nat {
    match op
    case Dup2 => 2 case Dup2X1 => 2 case Dup2X2 => 2 case Pop2 => 2
    case _ => 1
  }

  function Picked(ws: seq<Word>, ks: seq<nat>): (r: seq<Word>)
    requires forall i :: 0 <= i < |ks| ==> ks[i] < |ws|
    ensures |r| == |ks|
  {
    seq(|ks|, i requires 0 <= i < |ks| => ws[ks[i]])
  }

  // The stack after the instruction, word by word.
  predicate Moved(op: Opcode, before: Stack, after: Stack) {
    && Taken(op) <= |Words(before)|
    && (forall i :: 0 <= i < |Left(op)| ==> Left(op)[i] < Taken(op))
    && Words(after) == Picked(Words(before), Left(op)) + Words(before)[Taken(op)..]
  }

  lemma Sizes(v: Value)
    ensures One(v) <==> WordsOf(v) == [Single(v)]
    ensures Two(v) <==> WordsOf(v) == [First(v), Second(v)]
    ensures One(v) || Two(v)
  {
  }

  function WordsOfAll(vs: seq<Value>): seq<Word> {
    if vs == [] then [] else WordsOf(vs[0]) + WordsOfAll(vs[1..])
  }

  // The values, the first on top, above the rest.
  function Above(vs: seq<Value>, rest: Stack): Stack {
    if vs == [] then rest else Push(vs[0], Above(vs[1..], rest))
  }

  lemma {:induction false} WordsAbove(vs: seq<Value>, rest: Stack)
    ensures Words(Above(vs, rest)) == WordsOfAll(vs) + Words(rest)
    decreases |vs|
  {
    if vs != [] {
      WordsAbove(vs[1..], rest);
      hide WordsOf;
      assert Words(Above(vs, rest)) == WordsOf(vs[0]) + (WordsOfAll(vs[1..]) + Words(rest));
    } else {
      assert [] + Words(rest) == Words(rest);
    }
  }

  // The values vs become the values us, and the rest stays.
  lemma MovedAbove(op: Opcode, vs: seq<Value>, us: seq<Value>, rest: Stack)
    requires |WordsOfAll(vs)| == Taken(op) && |WordsOfAll(us)| == |Left(op)|
    requires forall i :: 0 <= i < |Left(op)| ==> Left(op)[i] < Taken(op) && WordsOfAll(us)[i] == WordsOfAll(vs)[Left(op)[i]]
    ensures Moved(op, Above(vs, rest), Above(us, rest))
  {
    WordsAbove(vs, rest);
    WordsAbove(us, rest);
    var ws, xs := WordsOfAll(vs), WordsOfAll(us);
    hide Words;
    hide Above;
    hide WordsOfAll;
    hide Left;
    hide Taken;
    assert (ws + Words(rest))[Taken(op)..] == Words(rest);
    assert Picked(ws + Words(rest), Left(op)) == xs;
  }

  lemma OneOf(a: Value)
    ensures WordsOfAll([a]) == WordsOf(a) && forall r :: Above([a], r) == Push(a, r)
  {
    assert [a][1..] == [];
    assert WordsOf(a) + [] == WordsOf(a);
  }

  lemma OneMore(a: Value, vs: seq<Value>)
    ensures WordsOfAll([a] + vs) == WordsOf(a) + WordsOfAll(vs) && forall r :: Above([a] + vs, r) == Push(a, Above(vs, r))
  {
    assert ([a] + vs)[1..] == vs;
  }

  lemma TwoOf(a: Value, b: Value)
    ensures WordsOfAll([a, b]) == WordsOf(a) + WordsOf(b) && forall r :: Above([a, b], r) == Push(a, Push(b, r))
  {
    OneOf(b);
    OneMore(a, [b]);
    assert [a] + [b] == [a, b];
  }

  lemma ThreeOf(a: Value, b: Value, c: Value)
    ensures WordsOfAll([a, b, c]) == WordsOf(a) + (WordsOf(b) + WordsOf(c))
    ensures forall r :: Above([a, b, c], r) == Push(a, Push(b, Push(c, r)))
  {
    TwoOf(b, c);
    OneMore(a, [b, c]);
    assert [a] + [b, c] == [a, b, c];
  }

  lemma FourOf(a: Value, b: Value, c: Value, d: Value)
    ensures WordsOfAll([a, b, c, d]) == WordsOf(a) + (WordsOf(b) + (WordsOf(c) + WordsOf(d)))
    ensures forall r :: Above([a, b, c, d], r) == Push(a, Push(b, Push(c, Push(d, r))))
  {
    ThreeOf(b, c, d);
    OneMore(a, [b, c, d]);
    assert [a] + [b, c, d] == [a, b, c, d];
  }

  lemma FiveOf(a: Value, b: Value, c: Value, d: Value, e: Value)
    ensures WordsOfAll([a, b, c, d, e]) == WordsOf(a) + (WordsOf(b) + (WordsOf(c) + (WordsOf(d) + WordsOf(e))))
    ensures forall r :: Above([a, b, c, d, e], r) == Push(a, Push(b, Push(c, Push(d, Push(e, r)))))
  {
    FourOf(b, c, d, e);
    OneMore(a, [b, c, d, e]);
    assert [a] + [b, c, d, e] == [a, b, c, d, e];
  }

  lemma SixOf(a: Value, b: Value, c: Value, d: Value, e: Value, f: Value)
    ensures WordsOfAll([a, b, c, d, e, f]) == WordsOf(a) + (WordsOf(b) + (WordsOf(c) + (WordsOf(d) + (WordsOf(e) + WordsOf(f)))))
    ensures forall r :: Above([a, b, c, d, e, f], r) == Push(a, Push(b, Push(c, Push(d, Push(e, Push(f, r))))))
  {
    FiveOf(b, c, d, e, f);
    OneMore(a, [b, c, d, e, f]);
    assert [a] + [b, c, d, e, f] == [a, b, c, d, e, f];
  }

  // ---------------------------------------------------------------- where the instructions are possible

  lemma WholeSteps(s: Stack)
    ensures Whole(s, 1) <==> s.Push? && One(s.top)
    ensures Whole(s, 2) <==> s.Push? && (Two(s.top) || (s.rest.Push? && One(s.top) && One(s.rest.top)))
    ensures Whole(s, 3) <==> s.Push? && if Two(s.top) then s.rest.Push? && One(s.rest.top)
                                        else s.rest.Push? && (Two(s.rest.top) || (s.rest.rest.Push? && One(s.rest.top) && One(s.rest.rest.top)))
  {
    if s.Push? {
      Sizes(s.top);
      if s.rest.Push? {
        Sizes(s.rest.top);
        if s.rest.rest.Push? { Sizes(s.rest.rest.top); }
      }
    }
  }

  lemma WholeFour(s: Stack)
    ensures Whole(s, 4) <==> s.Push? && if Two(s.top) then Whole(s.rest, 2) else Whole(s.rest, 3)
  {
    if s.Push? { Sizes(s.top); }
  }

  lemma PossibleExactly(op: Opcode, s: Stack)
    requires op in {Dup, DupX1, DupX2, Dup2, Dup2X1, Dup2X2, Pop, Pop2, Swap}
    ensures Shuffle(op, s).Some? <==> Whole(s, Cut(op)) && Whole(s, Taken(op))
  {
    WholeSteps(s);
    WholeFour(s);
    if s.Push? {
      WholeSteps(s.rest);
    }
    hide Whole;
  }

  // ---------------------------------------------------------------- what they move

  lemma PopMoves(op: Opcode, s: Stack)
    requires op in {Pop, Pop2} && Shuffle(op, s).Some?
    ensures Moved(op, s, Shuffle(op, s).value)
  {
    var a, r := s.top, s.rest;
    Sizes(a);
    OneOf(a);
    if op == Pop || Two(a) {
      MovedAbove(op, [a], [], r);
    } else {
      Sizes(r.top);
      TwoOf(a, r.top);
      MovedAbove(op, [a, r.top], [], r.rest);
    }
  }

  lemma DupMoves(s: Stack)
    requires Shuffle(Dup, s).Some?
    ensures Moved(Dup, s, Shuffle(Dup, s).value)
  {
    hide WordsOf;
    hide WordsOfAll;
    hide Above;
    hide Moved;
    hide One;
    hide Two;
    var a := s.top;
    Sizes(a);
    OneOf(a);
    TwoOf(a, a);
    MovedAbove(Dup, [a], [a, a], s.rest);
  }

  lemma SwapMoves(s: Stack)
    requires Shuffle(Swap, s).Some?
    ensures Moved(Swap, s, Shuffle(Swap, s).value)
  {
    hide WordsOf;
    hide WordsOfAll;
    hide Above;
    hide Moved;
    hide One;
    hide Two;
    var a, b := s.top, s.rest.top;
    Sizes(a);
    Sizes(b);
    TwoOf(a, b);
    TwoOf(b, a);
    MovedAbove(Swap, [a, b], [b, a], s.rest.rest);
  }

  lemma Dup2Moves(s: Stack)
    requires Shuffle(Dup2, s).Some?
    ensures Moved(Dup2, s, Shuffle(Dup2, s).value)
  {
    hide WordsOf;
    hide WordsOfAll;
    hide Above;
    hide Moved;
    hide One;
    hide Two;
    var a, r := s.top, s.rest;
    Sizes(a);
    if Two(a) {
      assert Shuffle(Dup2, s) == Some(Push(a, Push(a, r)));
      hide Shuffle;
      OneOf(a);
      TwoOf(a, a);
      MovedAbove(Dup2, [a], [a, a], r);
    } else {
      var b := r.top;
      assert Shuffle(Dup2, s) == Some(Push(a, Push(b, Push(a, Push(b, r.rest)))));
      hide Shuffle;
      Sizes(b);
      TwoOf(a, b);
      FourOf(a, b, a, b);
      MovedAbove(Dup2, [a, b], [a, b, a, b], r.rest);
    }
  }

  lemma DupX1Moves(s: Stack)
    requires Shuffle(DupX1, s).Some?
    ensures Moved(DupX1, s, Shuffle(DupX1, s).value)
  {
    hide WordsOf;
    hide WordsOfAll;
    hide Above;
    hide Moved;
    hide One;
    hide Two;
    var a, b, r := s.top, s.rest.top, s.rest.rest;
    Sizes(a);
    Sizes(b);
    TwoOf(a, b);
    ThreeOf(a, b, a);
    MovedAbove(DupX1, [a, b], [a, b, a], r);
  }

  lemma DupX2Moves(s: Stack)
    requires Shuffle(DupX2, s).Some?
    ensures Moved(DupX2, s, Shuffle(DupX2, s).value)
  {
    hide WordsOf;
    hide WordsOfAll;
    hide Above;
    hide Moved;
    hide One;
    hide Two;
    var a, b, r := s.top, s.rest.top, s.rest.rest;
    Sizes(a);
    Sizes(b);
    if Two(b) {
      assert Shuffle(DupX2, s) == Some(Push(a, Push(b, Push(a, r))));
      hide Shuffle;
      TwoOf(a, b);
      ThreeOf(a, b, a);
      MovedAbove(DupX2, [a, b], [a, b, a], r);
    } else {
      var c := r.top;
      assert Shuffle(DupX2, s) == Some(Push(a, Push(b, Push(c, Push(a, r.rest)))));
      hide Shuffle;
      Sizes(c);
      ThreeOf(a, b, c);
      FourOf(a, b, c, a);
      MovedAbove(DupX2, [a, b, c], [a, b, c, a], r.rest);
    }
  }

  lemma Dup2X1Moves(s: Stack)
    requires Shuffle(Dup2X1, s).Some?
    ensures Moved(Dup2X1, s, Shuffle(Dup2X1, s).value)
  {
    hide WordsOf;
    hide WordsOfAll;
    hide Above;
    hide Moved;
    hide One;
    hide Two;
    var a, b, r := s.top, s.rest.top, s.rest.rest;
    Sizes(a);
    Sizes(b);
    if Two(a) {
      assert Shuffle(Dup2X1, s) == Some(Push(a, Push(b, Push(a, r))));
      hide Shuffle;
      TwoOf(a, b);
      ThreeOf(a, b, a);
      MovedAbove(Dup2X1, [a, b], [a, b, a], r);
    } else {
      var c := r.top;
      assert Shuffle(Dup2X1, s) == Some(Push(a, Push(b, Push(c, Push(a, Push(b, r.rest))))));
      hide Shuffle;
      Sizes(c);
      ThreeOf(a, b, c);
      FiveOf(a, b, c, a, b);
      MovedAbove(Dup2X1, [a, b, c], [a, b, c, a, b], r.rest);
    }
  }

  lemma Dup2X2MovesTwo(s: Stack)
    requires Shuffle(Dup2X2, s).Some? && Two(s.top)
    ensures Moved(Dup2X2, s, Shuffle(Dup2X2, s).value)
  {
    hide WordsOf;
    hide WordsOfAll;
    hide Above;
    hide Moved;
    hide One;
    hide Two;
    var a, b, r := s.top, s.rest.top, s.rest.rest;
    Sizes(a);
    Sizes(b);
    if Two(b) {
      assert Shuffle(Dup2X2, s) == Some(Push(a, Push(b, Push(a, r))));
      hide Shuffle;
      TwoOf(a, b);
      ThreeOf(a, b, a);
      MovedAbove(Dup2X2, [a, b], [a, b, a], r);
    } else {
      var c := r.top;
      assert Shuffle(Dup2X2, s) == Some(Push(a, Push(b, Push(c, Push(a, r.rest)))));
      hide Shuffle;
      Sizes(c);
      ThreeOf(a, b, c);
      FourOf(a, b, c, a);
      MovedAbove(Dup2X2, [a, b, c], [a, b, c, a], r.rest);
    }
  }

  lemma Dup2X2MovesOne(s: Stack)
    requires Shuffle(Dup2X2, s).Some? && !Two(s.top)
    ensures Moved(Dup2X2, s, Shuffle(Dup2X2, s).value)
  {
    hide WordsOf;
    hide WordsOfAll;
    hide Above;
    hide Moved;
    hide One;
    hide Two;
    var a, b, r := s.top, s.rest.top, s.rest.rest;
    Sizes(a);
    Sizes(b);
    var c := r.top;
    Sizes(c);
    if Two(c) {
      assert Shuffle(Dup2X2, s) == Some(Push(a, Push(b, Push(c, Push(a, Push(b, r.rest))))));
      hide Shuffle;
      ThreeOf(a, b, c);
      FiveOf(a, b, c, a, b);
      MovedAbove(Dup2X2, [a, b, c], [a, b, c, a, b], r.rest);
    } else {
      var d := r.rest.top;
      assert Shuffle(Dup2X2, s) == Some(Push(a, Push(b, Push(c, Push(d, Push(a, Push(b, r.rest.rest)))))));
      hide Shuffle;
      Sizes(d);
      FourOf(a, b, c, d);
      SixOf(a, b, c, d, a, b);
      MovedAbove(Dup2X2, [a, b, c, d], [a, b, c, d, a, b], r.rest.rest);
    }
  }

  /** Every stack instruction is possible exactly where it cuts no value in half, and then
      copies, drops or moves the words its description says. */
  lemma ShuffleMovesWords(op: Opcode, s: Stack)
    requires op in {Dup, DupX1, DupX2, Dup2, Dup2X1, Dup2X2, Pop, Pop2, Swap}
    ensures Shuffle(op, s).Some? <==> Whole(s, Cut(op)) && Whole(s, Taken(op))
    ensures Shuffle(op, s).Some? ==> Moved(op, s, Shuffle(op, s).value)
  {
    PossibleExactly(op, s);
    hide *;
    if Shuffle(op, s).Some? {
      match op {
        case DupX1 => DupX1Moves(s);
        case DupX2 => DupX2Moves(s);
        case Dup2X1 => Dup2X1Moves(s);
        case Dup2X2 => if Two(s.top) { Dup2X2MovesTwo(s); } else { Dup2X2MovesOne(s); }
        case Pop => PopMoves(op, s);
        case Pop2 => PopMoves(op, s);
        case Dup => DupMoves(s);
        case Dup2 => Dup2Moves(s);
        case _ => SwapMoves(s);
      }
    }
  }

  /** The words tell the stack. */
  lemma {:induction false} WordsTell(s: Stack, t: Stack)
    requires Words(s) == Words(t)
    ensures s == t
    decreases s
  {
    if s.Push? && t.Push? {
      Sizes(s.top);
      Sizes(t.top);
      assert Words(s)[0] == WordsOf(s.top)[0] && Words(t)[0] == WordsOf(t.top)[0];
      assert s.top == t.top;
      var n := |WordsOf(s.top)|;
      assert Words(s)[n..] == Words(s.rest) && Words(t)[n..] == Words(t.rest);
      WordsTell(s.rest, t.rest);
    } else {
      if s.Push? { Sizes(s.top); }
      if t.Push? { Sizes(t.top); }
    }
  }
}
