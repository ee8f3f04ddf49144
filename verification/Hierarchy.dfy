/**
 Subtyping questions answered from class files: ancestor chains, interface search and the
 common superclass, over any acyclic set of class files, complete or not.
 */
module Hierarchy {
  import opened Wrappers

  const OBJECT := "java/lang/Object"

  datatype TypeInfo = TypeInfo(isInterface: bool, superName: Option<string>, interfaces: seq<string>)

  // The class files that can be found, by internal name.
  type World = map<string, TypeInfo>

  ghost predicate Ranked(w: World, rank: map<string, nat>) {
    forall t :: t in w ==> t in rank && forall u :: u in w && Edge(w, t, u) ==> u in rank && rank[u] < rank[t]
  }

  ghost predicate Acyclic(w: World) {
    exists rank :: Ranked(w, rank)
  }

  // t extends or implements u directly.
  predicate Edge(w: World, t: string, u: string) {
    t in w && (w[t].superName == Some(u) || u in w[t].interfaces)
  }

  ghost function RankOf(w: World): (rank: map<string, nat>)
    requires Acyclic(w)
    ensures Ranked(w, rank)
  {
    var rank :| Ranked(w, rank);
    rank
  }

  ghost function Height(w: World, t: string): nat
    requires Acyclic(w)
  {
    if t in w then RankOf(w)[t] + 1 else 0
  }

  // ---------------------------------------------------------------- the answers; None where a class file is missing

  function Ancestors(w: World, t: string): Option<seq<string>>
    requires Acyclic(w)
    decreases Height(w, t)
  {
    if t !in w then None
    else if t == OBJECT then Some([])
    else
      match w[t].superName
      case None => None
      case Some(s) =>
        assert Edge(w, t, s);
        match Ancestors(w, s)
        case None => None
        case Some(a) => Some(a + [t])
  }

  function Implements(w: World, t: string, itf: string): Option<bool>
    requires Acyclic(w)
    decreases Height(w, t), 1, 0
  {
    if t !in w then None
    else if t == OBJECT then Some(false)
    else if itf in w[t].interfaces then Some(true)
    else
      match AnyImplements(w, t, w[t].interfaces, itf)
      case None => None
      case Some(true) => Some(true)
      case Some(false) =>
        match w[t].superName
        case None => None
        case Some(s) =>
          assert Edge(w, t, s);
          Implements(w, s, itf)
  }

  // The first of the interfaces of t that implements itf; a missing class file ends the search.
  function AnyImplements(w: World, ghost t: string, us: seq<string>, itf: string): Option<bool>
    requires Acyclic(w) && t in w && forall u :: u in us ==> u in w[t].interfaces
    decreases Height(w, t), 0, |us|
  {
    if us == [] then Some(false)
    else
      assert Edge(w, t, us[0]);
      match Implements(w, us[0], itf)
      case None => None
      case Some(true) => Some(true)
      case Some(false) => AnyImplements(w, t, us[1..], itf)
  }

  // The last position at which the two chains still agree.
  function LastShared(a: seq<string>, b: seq<string>, common: string): string {
    if a == [] || b == [] || a[0] != b[0] then common else LastShared(a[1..], b[1..], a[0])
  }

  function TryCommon(w: World, t1: string, t2: string): Option<string>
    requires Acyclic(w)
  {
    if t1 !in w then None
    else if w[t1].isInterface then
      match Implements(w, t2, t1)
      case None => None
      case Some(true) => Some(t1)
      case Some(false) =>
        if t2 !in w then None
        else if !w[t2].isInterface then Some(OBJECT)
        else
          match Implements(w, t1, t2)
          case None => None
          case Some(b) => Some(if b then t2 else OBJECT)
    else if t2 !in w then None
    else if w[t2].isInterface then
      match Implements(w, t1, t2)
      case None => None
      case Some(b) => Some(if b then t2 else OBJECT)
    else
      match Ancestors(w, t1)
      case None => None
      case Some(a) =>
        match Ancestors(w, t2)
        case None => None
        case Some(b) => Some(LastShared(a, b, OBJECT))
  }

  function Common(w: World, t1: string, t2: string): string
    requires Acyclic(w)
  {
    match TryCommon(w, t1, t2)
    case Some(c) => c
    case None => OBJECT
  }

  predicate IsInstanceOf(w: World, t: string, s: string)
    requires Acyclic(w)
  {
    t == s || Common(w, t, s) == s
  }

  // ---------------------------------------------------------------- the subtype relation

  ghost predicate IsPath(w: World, p: seq<string>, t: string, s: string) {
    && p != [] && p[0] == t && p[|p| - 1] == s
    && forall k :: 0 <= k < |p| - 1 ==> Edge(w, p[k], p[k + 1])
  }

  ghost predicate Reaches(w: World, t: string, s: string) {
    exists p :: IsPath(w, p, t, s)
  }

  lemma ReachesSelf(w: World, t: string)
    ensures Reaches(w, t, t)
  {
    assert IsPath(w, [t], t, t);
  }

  lemma ReachesVia(w: World, t: string, u: string, s: string)
    requires Edge(w, t, u) && Reaches(w, u, s)
    ensures Reaches(w, t, s)
  {
    var p :| IsPath(w, p, u, s);
    assert IsPath(w, [t] + p, t, s);
  }

  // A type is reached directly or through one of the edges.
  lemma ReachesSplit(w: World, t: string, s: string)
    requires Reaches(w, t, s) && t != s
    ensures exists u :: Edge(w, t, u) && Reaches(w, u, s)
  {
    var p :| IsPath(w, p, t, s);
    assert Edge(w, p[0], p[1]);
    assert IsPath(w, p[1..], p[1], s);
  }

  lemma {:induction false} ReachesDown(w: World, t: string, s: string)
    requires Acyclic(w) && Reaches(w, t, s) && t != s && s in w
    ensures t in w && Height(w, s) < Height(w, t)
    decreases Height(w, t)
  {
    ReachesSplit(w, t, s);
    var u :| Edge(w, t, u) && Reaches(w, u, s);
    if u != s {
      ReachesSplit(w, u, s);
      ReachesDown(w, u, s);
    }
  }

  // ---------------------------------------------------------------- complete class paths

  // Every name mentioned is found, only Object has no superclass, interfaces extend Object.
  ghost predicate Complete(w: World) {
    && Acyclic(w)
    && OBJECT in w && w[OBJECT] == TypeInfo(false, None, [])
    && (forall t :: t in w && t != OBJECT ==>
          w[t].superName.Some? && w[t].superName.value in w && !w[w[t].superName.value].isInterface)
    && (forall t :: t in w && w[t].isInterface ==> w[t].superName == Some(OBJECT))
    && (forall t, u :: t in w && u in w[t].interfaces ==> u in w && w[u].isInterface)
  }

  // The interface search answers, and answers yes exactly for the interfaces reached.
  lemma {:induction false} ImplementsExactly(w: World, t: string, itf: string)
    requires Complete(w) && t in w && itf in w && w[itf].isInterface
    ensures Implements(w, t, itf) == Some(t != itf && Reaches(w, t, itf))
    decreases Height(w, t), 1, 0
  {
    hide Reaches;
    hide Acyclic;
    if t == OBJECT {
      if Reaches(w, t, itf) {
        OnlyItselfAboveObject(w, itf);
      }
    } else {
      var s := w[t].superName.value;
      assert Edge(w, t, s);
      if itf in w[t].interfaces {
        assert Edge(w, t, itf);
        ReachesSelf(w, itf);
        ReachesVia(w, t, itf, itf);
        NotItself(w, t, itf, itf);
      } else {
        AnyImplementsExactly(w, t, w[t].interfaces, itf);
        ImplementsExactly(w, s, itf);
        if AnyImplements(w, t, w[t].interfaces, itf).value {
          var u :| u in w[t].interfaces && u != itf && Reaches(w, u, itf);
          ReachesVia(w, t, u, itf);
          NotItself(w, t, u, itf);
        } else if Reaches(w, s, itf) {
          ReachesVia(w, t, s, itf);
          NotItself(w, t, s, itf);
        } else if t != itf && Reaches(w, t, itf) {
          ReachesSplit(w, t, itf);
        }
      }
    }
  }

  lemma NotItself(w: World, t: string, u: string, s: string)
    requires Acyclic(w) && Edge(w, t, u) && u in w && Reaches(w, u, s) && s in w
    ensures t != s
  {
    if u != s {
      ReachesDown(w, u, s);
    }
  }

  lemma {:induction false} AnyImplementsExactly(w: World, t: string, us: seq<string>, itf: string)
    requires Complete(w) && t in w && itf in w && w[itf].isInterface && forall u :: u in us ==> u in w[t].interfaces
    ensures AnyImplements(w, t, us, itf) == Some(exists u :: u in us && u != itf && Reaches(w, u, itf))
    decreases Height(w, t), 0, |us|
  {
    hide Reaches;
    hide Acyclic;
    if us != [] {
      assert Edge(w, t, us[0]);
      ImplementsExactly(w, us[0], itf);
      AnyImplementsExactly(w, t, us[1..], itf);
      SomeOf(us, u => u != itf && Reaches(w, u, itf));
    }
  }

  lemma SomeOf(us: seq<string>, p: string -> bool)
    requires us != []
    ensures (exists u :: u in us && p(u)) <==> p(us[0]) || exists u :: u in us[1..] && p(u)
  {
    if u :| u in us && p(u) && u != us[0] {
      assert u in us[1..];
    }
  }

  // The ancestor chain is found, ends in the type and holds exactly the classes reached below Object.
  lemma {:induction false} AncestorsExactly(w: World, t: string)
    requires Complete(w) && t in w && !w[t].isInterface
    ensures Ancestors(w, t).Some?
    ensures forall c :: c in w && !w[c].isInterface ==>
              (Reaches(w, t, c) <==> c == OBJECT || c in Ancestors(w, t).value)
    ensures forall c :: c in Ancestors(w, t).value ==> c in w && c != OBJECT && !w[c].isInterface
    decreases Height(w, t)
  {
    if t == OBJECT {
      forall c | c in w && !w[c].isInterface
        ensures Reaches(w, t, c) <==> c == OBJECT
      {
        if Reaches(w, t, c) {
          OnlyItselfAboveObject(w, c);
        }
        ReachesSelf(w, OBJECT);
      }
    } else {
      var s := w[t].superName.value;
      assert Edge(w, t, s);
      AncestorsExactly(w, s);
      forall c | c in w && !w[c].isInterface
        ensures Reaches(w, t, c) <==> c == OBJECT || c in Ancestors(w, t).value
      {
        ReachesSelf(w, t);
        if Reaches(w, s, c) {
          ReachesVia(w, t, s, c);
        } else if c != t && Reaches(w, t, c) {
          ClassReachedThroughSuper(w, t, c);
        }
      }
    }
  }

  // Interfaces lead to no class but Object.
  lemma {:induction false} InterfacesReachObjectOnly(w: World, t: string, c: string)
    requires Complete(w) && t in w && w[t].isInterface && c in w && !w[c].isInterface && Reaches(w, t, c)
    ensures c == OBJECT
    decreases Height(w, t)
  {
    hide Reaches;
    hide Acyclic;
    ReachesSplit(w, t, c);
    var u :| Edge(w, t, u) && Reaches(w, u, c);
    if u in w[t].interfaces {
      InterfacesReachObjectOnly(w, u, c);
    } else {
      OnlyItselfAboveObject(w, c);
    }
  }

  lemma OnlyItselfAboveObject(w: World, c: string)
    requires Complete(w) && Reaches(w, OBJECT, c)
    ensures c == OBJECT
  {
    hide Reaches;
    if c != OBJECT {
      ReachesSplit(w, OBJECT, c);
    }
  }

  lemma ClassReachedThroughSuper(w: World, t: string, c: string)
    requires Complete(w) && t in w && t != OBJECT && c in w && !w[c].isInterface && c != t && Reaches(w, t, c)
    ensures Reaches(w, w[t].superName.value, c)
  {
    hide Reaches;
    hide Acyclic;
    ReachesSplit(w, t, c);
    var u :| Edge(w, t, u) && Reaches(w, u, c);
    if u in w[t].interfaces && w[t].superName != Some(u) {
      InterfacesReachObjectOnly(w, u, c);
      AllReachObject(w, w[t].superName.value);
    }
  }

  lemma {:induction false} AllReachObject(w: World, t: string)
    requires Complete(w) && t in w
    ensures Reaches(w, t, OBJECT)
    decreases Height(w, t)
  {
    ReachesSelf(w, OBJECT);
    if t != OBJECT {
      var s := w[t].superName.value;
      assert Edge(w, t, s);
      AllReachObject(w, s);
      ReachesVia(w, t, s, OBJECT);
    }
  }

  // Two chains that share a class agree up to it.
  lemma {:induction false} ChainIsPrefix(w: World, t: string, c: string)
    requires Complete(w) && t in w && !w[t].isInterface && Ancestors(w, t).Some? && c in Ancestors(w, t).value
    requires c in w && !w[c].isInterface && Ancestors(w, c).Some?
    ensures c != OBJECT && Ancestors(w, c).value <= Ancestors(w, t).value
    ensures Ancestors(w, c).value != [] && Ancestors(w, c).value[|Ancestors(w, c).value| - 1] == c
    decreases Height(w, t)
  {
    AncestorsExactly(w, t);
    if c != t {
      var s := w[t].superName.value;
      assert Edge(w, t, s);
      ChainIsPrefix(w, s, c);
    }
  }

  // The chains agree on exactly the first n types, the last of which is c.
  ghost predicate SharedUpTo(a: seq<string>, b: seq<string>, common: string, n: nat, c: string) {
    && n <= |a| && n <= |b| && a[..n] == b[..n]
    && (n < |a| && n < |b| ==> a[n] != b[n])
    && c == (if n == 0 then common else a[n - 1])
  }

  lemma {:induction false} LastSharedFound(a: seq<string>, b: seq<string>, common: string)
    ensures exists n: nat :: SharedUpTo(a, b, common, n, LastShared(a, b, common))
    decreases |a|
  {
    var c := LastShared(a, b, common);
    if a == [] || b == [] || a[0] != b[0] {
      assert SharedUpTo(a, b, common, 0, c);
    } else {
      LastSharedFound(a[1..], b[1..], a[0]);
      var n: nat :| SharedUpTo(a[1..], b[1..], a[0], n, c);
      assert a[..n + 1] == [a[0]] + a[1..][..n] && b[..n + 1] == [b[0]] + b[1..][..n];
      assert SharedUpTo(a, b, common, n + 1, c);
    }
  }

  /** For two classes the common superclass is the least one: both reach it, and it reaches
      every class both reach. */
  lemma LeastCommonSuperclass(w: World, t1: string, t2: string)
    requires Complete(w) && t1 in w && t2 in w && !w[t1].isInterface && !w[t2].isInterface
    ensures var c := Common(w, t1, t2);
            && c in w && !w[c].isInterface && Reaches(w, t1, c) && Reaches(w, t2, c)
            && forall d :: d in w && !w[d].isInterface && Reaches(w, t1, d) && Reaches(w, t2, d) ==> Reaches(w, c, d)
  {
    hide Reaches;
    hide Ancestors;
    hide LastShared;
    hide Acyclic;
    AncestorsExactly(w, t1);
    AncestorsExactly(w, t2);
    var a, b := Ancestors(w, t1).value, Ancestors(w, t2).value;
    LastSharedFound(a, b, OBJECT);
    var c := Common(w, t1, t2);
    var n: nat :| SharedUpTo(a, b, OBJECT, n, c);
    SharedIsCommon(a, b, n, c);
    AllReachObject(w, c);
    forall d | d in w && !w[d].isInterface && Reaches(w, t1, d) && Reaches(w, t2, d)
      ensures Reaches(w, c, d)
    {
      if d != OBJECT {
        SharedIsReached(w, t1, t2, n, c, d);
      }
    }
  }

  lemma SharedIsCommon(a: seq<string>, b: seq<string>, n: nat, c: string)
    requires SharedUpTo(a, b, OBJECT, n, c)
    ensures c == OBJECT || (c in a && c in b)
  {
    if n > 0 {
      assert a[n - 1] == a[..n][n - 1] == b[..n][n - 1] == b[n - 1];
    }
  }

  // A chain that is a prefix of both lies within the shared part.
  lemma SharedPrefix(a: seq<string>, b: seq<string>, n: nat, c: string, e: seq<string>)
    requires SharedUpTo(a, b, OBJECT, n, c) && e <= a && e <= b
    ensures |e| <= n && e <= a[..n]
  {
    assert forall k :: 0 <= k < |e| ==> a[k] == e[k] == b[k];
  }

  lemma SharedIsReached(w: World, t1: string, t2: string, n: nat, c: string, d: string)
    requires Complete(w) && t1 in w && t2 in w && !w[t1].isInterface && !w[t2].isInterface
    requires Ancestors(w, t1).Some? && Ancestors(w, t2).Some?
    requires SharedUpTo(Ancestors(w, t1).value, Ancestors(w, t2).value, OBJECT, n, c)
    requires d in Ancestors(w, t1).value && d in Ancestors(w, t2).value
    requires c in w && !w[c].isInterface && d in w && !w[d].isInterface
    ensures Reaches(w, c, d)
  {
    hide Reaches;
    hide Acyclic;
    var a, b := Ancestors(w, t1).value, Ancestors(w, t2).value;
    AncestorsExactly(w, d);
    ChainIsPrefix(w, t1, d);
    ChainIsPrefix(w, t2, d);
    var e := Ancestors(w, d).value;
    SharedPrefix(a, b, n, c, e);
    AncestorsExactly(w, c);
    ChainEnds(w, t1, n);
    assert Ancestors(w, c).value == a[..n];
    assert e[|e| - 1] in a[..n];
  }

  // The class at a position of the chain has exactly the chain up to there.
  lemma {:induction false} ChainEnds(w: World, t: string, n: nat)
    requires Complete(w) && t in w && !w[t].isInterface && Ancestors(w, t).Some? && 0 < n <= |Ancestors(w, t).value|
    ensures var c := Ancestors(w, t).value[n - 1];
            Ancestors(w, c) == Some(Ancestors(w, t).value[..n])
    decreases Height(w, t)
  {
    hide Reaches;
    hide Acyclic;
    AncestorsExactly(w, t);
    var a := Ancestors(w, t).value;
    if n < |a| {
      var s := w[t].superName.value;
      assert Edge(w, t, s);
      AncestorsExactly(w, s);
      ChainEnds(w, s, n);
      assert a[..n] == Ancestors(w, s).value[..n];
    } else {
      assert a[..n] == a;
    }
  }

  /** On a complete class path the test decides the subtype relation. */
  lemma InstanceOfExactly(w: World, t: string, s: string)
    requires Complete(w) && t in w && s in w
    ensures IsInstanceOf(w, t, s) <==> Reaches(w, t, s)
  {
    if t == s {
      ReachesSelf(w, t);
    } else if w[t].isInterface {
      ImplementsExactly(w, s, t);
      if w[s].isInterface {
        ImplementsExactly(w, t, s);
        if Reaches(w, s, t) && Reaches(w, t, s) {
          ReachesDown(w, s, t);
          ReachesDown(w, t, s);
        }
      } else {
        AllReachObject(w, t);
        if Reaches(w, t, s) {
          InterfacesReachObjectOnly(w, t, s);
          if Reaches(w, s, t) { ReachesSplit(w, s, t); }
        }
      }
    } else if w[s].isInterface {
      ImplementsExactly(w, t, s);
    } else {
      LeastCommonSuperclass(w, t, s);
      var c := Common(w, t, s);
      ReachesSelf(w, s);
      if Reaches(w, t, s) && c != s {
        ReachesDown(w, c, s);
        ReachesDown(w, s, c);
      }
    }
  }

  /** For distinct types the answer does not depend on their order. */
  lemma CommonCommutes(w: World, t1: string, t2: string)
    requires Complete(w) && t1 in w && t2 in w && t1 != t2
    ensures Common(w, t1, t2) == Common(w, t2, t1)
  {
    if w[t1].isInterface || w[t2].isInterface {
      if w[t1].isInterface { ImplementsExactly(w, t2, t1); }
      if w[t2].isInterface { ImplementsExactly(w, t1, t2); }
      if Reaches(w, t1, t2) && Reaches(w, t2, t1) {
        ReachesDown(w, t1, t2);
        ReachesDown(w, t2, t1);
      }
    } else {
      LeastCommonSuperclass(w, t1, t2);
      LeastCommonSuperclass(w, t2, t1);
      var c, d := Common(w, t1, t2), Common(w, t2, t1);
      if c != d {
        ReachesDown(w, c, d);
        ReachesDown(w, d, c);
      }
    }
  }

  /** A type compared with itself is its own common superclass exactly when it is a class. */
  lemma CommonOfItself(w: World, t: string)
    requires Complete(w) && t in w
    ensures Common(w, t, t) == t <==> !w[t].isInterface
  {
    if w[t].isInterface {
      ImplementsExactly(w, t, t);
    } else {
      LeastCommonSuperclass(w, t, t);
      ReachesSelf(w, t);
      var c := Common(w, t, t);
      if c != t {
        ReachesDown(w, c, t);
        ReachesDown(w, t, c);
      }
    }
  }

  // ---------------------------------------------------------------- incomplete class paths

  lemma {:induction false} ImplementsSound(w: World, t: string, itf: string)
    requires Acyclic(w) && Implements(w, t, itf) == Some(true)
    ensures Reaches(w, t, itf)
    decreases Height(w, t), 1, 0
  {
    if itf in w[t].interfaces {
      ReachesSelf(w, itf);
      ReachesVia(w, t, itf, itf);
    } else {
      AnyImplementsSound(w, t, w[t].interfaces, itf);
      if AnyImplements(w, t, w[t].interfaces, itf) != Some(true) {
        var s := w[t].superName.value;
        assert Edge(w, t, s);
        ImplementsSound(w, s, itf);
        ReachesVia(w, t, s, itf);
      }
    }
  }

  lemma {:induction false} AnyImplementsSound(w: World, t: string, us: seq<string>, itf: string)
    requires Acyclic(w) && t in w && forall u :: u in us ==> u in w[t].interfaces
    ensures AnyImplements(w, t, us, itf) == Some(true) ==> Reaches(w, t, itf)
    decreases Height(w, t), 0, |us|
  {
    if us != [] {
      assert Edge(w, t, us[0]);
      if Implements(w, us[0], itf) == Some(true) {
        ImplementsSound(w, us[0], itf);
        ReachesVia(w, t, us[0], itf);
      } else {
        AnyImplementsSound(w, t, us[1..], itf);
      }
    }
  }

  lemma {:induction false} AncestorsSound(w: World, t: string, c: string)
    requires Acyclic(w) && Ancestors(w, t).Some? && c in Ancestors(w, t).value
    ensures Reaches(w, t, c)
    decreases Height(w, t)
  {
    ReachesSelf(w, t);
    if c != t {
      var s := w[t].superName.value;
      assert Edge(w, t, s);
      AncestorsSound(w, s, c);
      ReachesVia(w, t, s, c);
    }
  }

  /** Whatever class files are missing, a positive answer for a type other than Object is right. */
  lemma InstanceOfSound(w: World, t: string, s: string)
    requires Acyclic(w) && IsInstanceOf(w, t, s) && s != OBJECT
    ensures Reaches(w, t, s)
  {
    ReachesSelf(w, t);
    if t != s {
      if w[t].isInterface || w[s].isInterface {
        ImplementsSound(w, t, s);
      } else {
        var a, b := Ancestors(w, t).value, Ancestors(w, s).value;
        LastSharedFound(a, b, OBJECT);
        var n: nat :| SharedUpTo(a, b, OBJECT, n, s);
        SharedIsCommon(a, b, n, s);
        AncestorsSound(w, t, s);
      }
    }
  }

  // ---------------------------------------------------------------- the implementation and its cache

  function Lookup(w: World, t: string): Option<TypeInfo> {
    if t in w then Some(w[t]) else None
  }

  function Reversed(s: seq<string>): seq<string> {
    if s == [] then [] else [s[|s| - 1]] + Reversed(s[..|s| - 1])
  }

  // The ancestors of a type still to be looked up, before those collected so far.
  function Behind(chain: Option<seq<string>>, collected: seq<string>): Option<seq<string>> {
    match chain
    case None => None
    case Some(a) => Some(a + Reversed(collected))
  }

  lemma CollectOne(chain: seq<string>, t: string, collected: seq<string>)
    ensures Behind(Some(chain + [t]), collected) == Behind(Some(chain), collected + [t])
    ensures Behind(Some(chain), []) == Some(chain)
  {
    assert (collected + [t])[..|collected|] == collected;
    assert chain + [t] + Reversed(collected) == chain + ([t] + Reversed(collected));
    assert chain + [] == chain;
  }

  // None stands for the exception thrown when a class file is not found.
  class ComputeCommonSuperClass {
    const classPath: World
    var typeInfos: map<string, TypeInfo>

    constructor (classPath: World)
      ensures this.classPath == classPath && Valid()
    {
      this.classPath := classPath;
      typeInfos := map[];
    }

    // Everything cached is what the class files say.
    ghost predicate Valid()
      reads this
    {
      forall t :: t in typeInfos ==> t in classPath && typeInfos[t] == classPath[t]
    }

    method ReadTypeInfo(t: string) returns (info: Option<TypeInfo>)
      ensures info == Lookup(classPath, t)
    {
      info := if t in classPath then Some(classPath[t]) else None;
    }

    method GetTypeInfo(t: string) returns (info: Option<TypeInfo>)
      requires Valid()
      modifies this
      ensures Valid() && info == Lookup(classPath, t)
    {
      if t in typeInfos {
        return Some(typeInfos[t]);
      }
      info := ReadTypeInfo(t);
      if info.Some? {
        typeInfos := typeInfos[t := info.value];
      }
    }

    method TypeAncestors(t: string) returns (r: Option<seq<string>>)
      requires Valid() && Acyclic(classPath)
      modifies this
      ensures Valid() && r == Ancestors(classPath, t)
    {
      var ancestors: seq<string> := [];
      var at := t;
      var info := GetTypeInfo(at);
      if Ancestors(classPath, t).Some? { CollectOne(Ancestors(classPath, t).value, "", []); }
      while info.Some? && at != OBJECT
        invariant Valid() && info == Lookup(classPath, at)
        invariant Ancestors(classPath, t) == Behind(Ancestors(classPath, at), ancestors)
        decreases Height(classPath, at)
      {
        if info.value.superName.None? {
          return None;
        }
        var s := info.value.superName.value;
        assert Edge(classPath, at, s);
        if Ancestors(classPath, s).Some? { CollectOne(Ancestors(classPath, s).value, at, ancestors); }
        ancestors := ancestors + [at];
        at := s;
        info := GetTypeInfo(at);
      }
      if info.None? {
        return None;
      }
      assert [] + Reversed(ancestors) == Reversed(ancestors);
      return Some(Reversed(ancestors));
    }

    method TypeImplements(t: string, itf: string) returns (r: Option<bool>)
      requires Valid() && Acyclic(classPath)
      modifies this
      ensures Valid() && r == Implements(classPath, t, itf)
      decreases Height(classPath, t)
    {
      var at := t;
      var info := GetTypeInfo(at);
      while info.Some? && at != OBJECT
        invariant Valid() && info == Lookup(classPath, at) && Height(classPath, at) <= Height(classPath, t)
        invariant Implements(classPath, t, itf) == Implements(classPath, at, itf)
        decreases Height(classPath, at)
      {
        var itfs := info.value.interfaces;
        for i := 0 to |itfs|
          invariant Valid() && itf !in itfs[..i]
        {
          if itfs[i] == itf {
            return Some(true);
          }
        }
        assert itfs[..|itfs|] == itfs;
        for i := 0 to |itfs|
          invariant Valid() && AnyImplements(classPath, at, itfs, itf) == AnyImplements(classPath, at, itfs[i..], itf)
        {
          assert Edge(classPath, at, itfs[i]);
          var found := TypeImplements(itfs[i], itf);
          assert itfs[i..][1..] == itfs[i + 1..];
          if found != Some(false) {
            return found;
          }
        }
        if info.value.superName.None? {
          return None;
        }
        assert Edge(classPath, at, info.value.superName.value);
        at := info.value.superName.value;
        info := GetTypeInfo(at);
      }
      return if info.None? then None else Some(false);
    }

    method TryComputeCommonSuperClass(t1: string, t2: string) returns (r: Option<string>)
      requires Valid() && Acyclic(classPath)
      modifies this
      ensures Valid() && r == TryCommon(classPath, t1, t2)
    {
      var info1 := GetTypeInfo(t1);
      if info1.None? { return None; }
      if info1.value.isInterface {
        var b := TypeImplements(t2, t1);
        if b != Some(false) { return if b.None? then None else Some(t1); }
        var info2 := GetTypeInfo(t2);
        if info2.None? { return None; }
        if info2.value.isInterface {
          b := TypeImplements(t1, t2);
          if b != Some(false) { return if b.None? then None else Some(t2); }
        }
        return Some(OBJECT);
      }
      var info2 := GetTypeInfo(t2);
      if info2.None? { return None; }
      if info2.value.isInterface {
        var b := TypeImplements(t1, t2);
        return if b.None? then None else if b.value then Some(t2) else Some(OBJECT);
      }
      var a1 := TypeAncestors(t1);
      if a1.None? { return None; }
      var a2 := TypeAncestors(t2);
      if a2.None? { return None; }
      var common := OBJECT;
      var i := 0;
      while i < |a1.value| && i < |a2.value| && a1.value[i] == a2.value[i]
        invariant 0 <= i <= |a1.value| && i <= |a2.value|
        invariant LastShared(a1.value, a2.value, OBJECT) == LastShared(a1.value[i..], a2.value[i..], common)
      {
        common := a1.value[i];
        i := i + 1;
      }
      return Some(common);
    }

    method ComputeCommon(t1: string, t2: string) returns (c: string)
      requires Valid() && Acyclic(classPath)
      modifies this
      ensures Valid() && c == Common(classPath, t1, t2)
    {
      var r := TryComputeCommonSuperClass(t1, t2);
      c := if r.Some? then r.value else OBJECT;
    }

    /** Whatever has been asked before, the answer is the one the class files give. */
    method InstanceOf(t: string, s: string) returns (b: bool)
      requires Valid() && Acyclic(classPath)
      modifies this
      ensures Valid() && b == IsInstanceOf(classPath, t, s)
    {
      if t == s { return true; }
      var c := ComputeCommon(t, s);
      b := c == s;
    }
  }
}
