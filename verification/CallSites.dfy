/**
 Exactly which observed calls survive rewriting, and what they report, at every call site.
 */
module CallSites {
  import opened Wrappers
  import opened Jvm
  import opened Instrumentation
  import opened BlockProofs
  import opened Visitors
  import Trace

  // A call about to be made: its operands vs lie on top of the values below.
  ghost predicate Calling(env: Env, m: MethodRef, vs: seq<Value>, below: Stack, f: Frame) {
    && f.stack == Onto(vs, below)
    && |vs| == |OperandKinds(m)| && (forall k :: 0 <= k < |vs| ==> KindOf(vs[k]) == OperandKinds(m)[k])
    && Exec(env, Invoke(m), f) != Stuck
  }

  predicate WideResult(m: MethodRef) {
    m.ret.Some? && Wide(m.ret.value)
  }

  // The call does the same above any other values.
  lemma CallAbove(env: Env, m: MethodRef, vs: seq<Value>, below: Stack, f: Frame, other: Stack, t: seq<Event>)
    requires Calling(env, m, vs, below, f)
    ensures var e, e' := Exec(env, Invoke(m), f), Exec(env, Invoke(m), Frame(Onto(vs, other), f.locals, f.heap, t));
            (e.Fall?
             && (if m.ret.None? then e.frame.stack == below
                 else e.frame.stack.Push? && e.frame.stack.rest == below && KindOf(e.frame.stack.top) == m.ret.value)
             && e' == Fall(e.frame.(stack := if m.ret.None? then other else Push(e.frame.stack.top, other), trace := t)))
            || (e.Raise? && SameOutcome(e, e', t))
  {
    hide PopArgs;
    hide Onto;
    hide OperandKinds;
    PopArgsFinds(OperandKinds(m), vs, below);
    InvokeAbove(env, m, f, other, t);
  }

  // ---------------------------------------------------------------- a copied value is reported

  // What was copied lies below the result when the call returns.
  function Returned(m: MethodRef, e: Effect, copy: Value, below: Stack, t: seq<Event>): Frame
    requires e.Fall? && (m.ret.Some? ==> e.frame.stack.Push?)
  {
    e.frame.(stack := if m.ret.None? then Push(copy, below) else Push(e.frame.stack.top, Push(copy, below)), trace := t)
  }

  // A two-slot result cannot be moved past the copy, and only a reference can be reported.
  lemma ReportSticks(env: Env, cfg: Config, m: MethodRef, copy: Value, below: Stack, g: Frame)
    requires m.ret.None? ==> g.stack == Push(copy, below)
    requires m.ret.Some? ==> g.stack.Push? && g.stack.rest == Push(copy, below) && KindOf(g.stack.top) == m.ret.value
    requires WideResult(m) || !KindOf(copy).RefKind?
    ensures RunList(env, CallReportCode(cfg, m), g) == Stuck
  {
    var hook := CallHook(if MapCall(cfg, m) then MapHook else CollectionHook);
    hide MapCall;
    if m.ret.None? {
      assert CallReportCode(cfg, m) == [hook];
      RunOne(env, hook, g);
    } else {
      var g1 := g.(stack := Push(copy, Push(g.stack.top, below)));
      RunOne(env, hook, g1);
      if MapCall(cfg, m) {
        var g0 := g.(stack := Push(g.stack.top, Push(copy, Push(g.stack.top, below))));
        assert CallReportCode(cfg, m) == [Insn(DupX1)] + ([Insn(Pop)] + [hook]);
        RunCons(env, Insn(DupX1), [Insn(Pop)] + [hook], g);
        RunCons(env, Insn(Pop), [hook], g0);
      } else {
        assert CallReportCode(cfg, m) == [Insn(Swap)] + [hook];
        RunCons(env, Insn(Swap), [hook], g);
      }
    }
  }

  /** A call before which some value was copied is faithful exactly when, if it returns, its
      result takes at most one slot and the copy is the reference to be reported. */
  lemma CopyExactly(env: Env, cfg: Config, ctx: Context, m: MethodRef, vs: seq<Value>, below: Stack, f: Frame,
                    t: seq<Event>, copy: Value)
    requires Calling(env, m, vs, below, f) && vs != []
    requires Captured(cfg, ctx, Invoke(m)) == map[] && !Dropped(cfg, Invoke(m))
    requires RunList(env, Before(cfg, ctx, Invoke(m)), f.(trace := t)) == Fall(f.(stack := Onto(vs, Push(copy, below)), trace := t))
    requires After(cfg, ctx, Invoke(m)) == CallReportCode(cfg, m)
    requires Events(env, cfg, ctx, Invoke(m), f) == if Exec(env, Invoke(m), f).Fall? then [CallReport(cfg, m, vs[0])] else []
    ensures Faithful(env, cfg, ctx, Invoke(m), f, t)
            <==> (Exec(env, Invoke(m), f).Fall? ==> !WideResult(m) && KindOf(copy).RefKind? && copy == vs[0])
  {
    hide RunList;
    hide Before;
    hide After;
    hide Onto;
    hide Events;
    hide Captured;
    hide Dropped;
    hide MapCall;
    hide CallReportCode;
    hide Exec;
    hide Calling;
    var i, f0 := Invoke(m), f.(trace := t);
    var f1 := f0.(stack := Onto(vs, Push(copy, below)));
    CallAbove(env, m, vs, below, f, Push(copy, below), t);
    var e := Exec(env, i, f);
    if e.Fall? {
      var g1 := Returned(m, e, copy, below, t);
      assert Exec(env, i, f1) == Fall(g1);
      var before, after := Before(cfg, ctx, i), CallReportCode(cfg, m);
      BlockRuns(env, before, i, after, f0, f1, g1);
      if WideResult(m) || !KindOf(copy).RefKind? {
        ReportSticks(env, cfg, m, copy, below, g1);
      } else {
        CopyReported(env, cfg, m, copy, below, g1);
        assert t + [CallReport(cfg, m, copy)] == t + [CallReport(cfg, m, vs[0])] <==> copy == vs[0] by {
          OneReport(cfg, m, t, copy, vs[0]);
        }
      }
    } else {
      assert t + [] == t;
      FaithfulTransfer(env, cfg, ctx, i, f, t, f1);
    }
  }

  lemma OneReport(cfg: Config, m: MethodRef, t: seq<Event>, a: Value, b: Value)
    ensures t + [CallReport(cfg, m, a)] == t + [CallReport(cfg, m, b)] <==> a == b
  {
    assert (t + [CallReport(cfg, m, a)])[|t|] == CallReport(cfg, m, a);
    assert (t + [CallReport(cfg, m, b)])[|t|] == CallReport(cfg, m, b);
  }

  lemma BlockRuns(env: Env, before: seq<Instr>, i: Instr, after: seq<Instr>, f: Frame, f1: Frame, g1: Frame)
    requires RunList(env, before, f) == Fall(f1) && Exec(env, i, f1) == Fall(g1)
    ensures RunList(env, before + [i] + after, f) == RunList(env, after, g1)
  {
    hide Exec;
    assert before + [i] + after == before + ([i] + after);
    RunListAppends(env, before, [i] + after, f);
    RunCons(env, i, after, f1);
  }

  lemma CopyReported(env: Env, cfg: Config, m: MethodRef, copy: Value, below: Stack, g: Frame)
    requires m.ret.None? ==> g.stack == Push(copy, below)
    requires m.ret.Some? ==> g.stack.Push? && g.stack.rest == Push(copy, below) && KindOf(g.stack.top) == m.ret.value
    requires !WideResult(m) && KindOf(copy).RefKind?
    ensures RunList(env, CallReportCode(cfg, m), g)
            == Fall(g.(stack := if m.ret.None? then below else Push(g.stack.top, below), trace := g.trace + [CallReport(cfg, m, copy)]))
  {
    hide RunList;
    hide MapCall;
    ReportCopy(env, m, !MapCall(cfg, m), if MapCall(cfg, m) then MapHook else CollectionHook, copy, below, g);
  }

  // ---------------------------------------------------------------- methods of collections and maps

  // Copying past a top value of two slots does, above two one-slot operands, copy the value
  // below them.
  lemma WrongCopyRuns(env: Env, vs: seq<Value>, below: Stack, f: Frame)
    requires |vs| == 2 && One(vs[0]) && One(vs[1]) && f.stack == Onto(vs, below)
    ensures RunList(env, DuplicateSecond(true), f) ==
            if below.Push? && One(below.top) then Fall(f.(stack := Onto(vs, Push(below.top, below)))) else Stuck
  {
    TwoOperands(vs, below);
    hide RunList;
    hide Onto;
    if below.Push? && One(below.top) {
      TwoOperands(vs, Push(below.top, below));
      WrongCopySteps(env, vs[1], vs[0], below.top, below.rest, f);
    } else {
      assert Shuffle(Dup2X1, f.stack) == None;
      var rest := [Insn(Pop2), Insn(DupX2), Insn(DupX2), Insn(Pop)];
      assert DuplicateSecond(true) == [Insn(Dup2X1)] + rest;
      hide Shuffle;
      RunCons(env, Insn(Dup2X1), rest, f);
    }
  }

  // a, v, b  becomes  a, v, b, b.
  lemma WrongCopySteps(env: Env, a: Value, v: Value, b: Value, r: Stack, f: Frame)
    requires One(a) && One(v) && One(b) && f.stack == Push(a, Push(v, Push(b, r)))
    ensures RunList(env, DuplicateSecond(true), f) == Fall(f.(stack := Push(a, Push(v, Push(b, Push(b, r))))))
  {
    hide RunList;
    var ops := [Dup2X1, Pop2, DupX2, DupX2, Pop];
    assert Insns(ops) == DuplicateSecond(true);
    RunShuffles(env, ops,
                [f.stack, Push(a, Push(v, Push(b, Push(a, Push(v, r))))), Push(b, Push(a, Push(v, r))),
                 Push(b, Push(a, Push(v, Push(b, r)))), Push(b, Push(a, Push(v, Push(b, Push(b, r))))),
                 Push(a, Push(v, Push(b, Push(b, r))))], f);
  }

  lemma TwoOperands(vs: seq<Value>, s: Stack)
    requires |vs| == 2
    ensures Onto(vs, s) == Push(vs[1], Push(vs[0], s))
  {
    assert Onto(vs[..1], s) == Push(vs[0], Onto(vs[..1][..0], s));
  }

  lemma DynamicShape(types: set<string>, ctx: Context, m: MethodRef)
    requires !m.isStatic && m.owner in types && m.name != "<init>" && (OneSlotArgs(m, 1) || OneSlotArgs(m, 2))
    requires |m.args| == 1 ==> !OwnerTypeOf(m.owner).Malformed?
    ensures var cfg := CollectionsOnly(types);
            && Before(cfg, ctx, Invoke(m)) ==
               (if |m.args| == 1 && OwnerTypeOf(m.owner).TwoSlots? then DuplicateSecond(true) else CopyOf(|OperandKinds(m)|))
            && After(cfg, ctx, Invoke(m)) == CallReportCode(cfg, m)
            && !Dropped(cfg, Invoke(m)) && Captured(cfg, ctx, Invoke(m)) == map[] && !MapCall(cfg, m)
            && forall s, s' :: CallEvents(cfg, m, s, s') == [CallReport(cfg, m, Under(s, |m.args|))]
  {
    var x := CollectionAfter(CollectionPlanOf(CollectionsOnly(types), m), m);
    assert x + [] == x;
  }

  /** A call of a collection method with one or two one-slot arguments, at any call site: it is
      rewritten faithfully exactly when, if it returns, its result takes at most one slot. With
      one argument and an owner whose name reads as a two-slot type (J..., D...), the value
      below the operands is copied instead of the receiver: it must take one slot, and be the
      receiver if the call returns. A name that reads as an unfinished type (L...) loses the call. */
  lemma CollectionCallExactly(env: Env, types: set<string>, ctx: Context, m: MethodRef, vs: seq<Value>, below: Stack,
                              f: Frame, t: seq<Event>)
    requires Trace.InstanceCall(types, m)
    requires Calling(env, m, vs, below, f)
    ensures Faithful(env, CollectionsOnly(types), ctx, Invoke(m), f, t) <==>
            var returns_ := Exec(env, Invoke(m), f).Fall?;
            if |m.args| == 1 && Trace.Unfinished(m.owner) then false
            else if |m.args| == 1 && (m.owner[0] == 'J' || m.owner[0] == 'D') then
              below.Push? && One(below.top) && (returns_ ==> !WideResult(m) && below.top == vs[0])
            else returns_ ==> !WideResult(m)
  {
    var cfg, i := CollectionsOnly(types), Invoke(m);
    SlimArguments(m);
    OwnerRead(m.owner);
    hide OwnerTypeOf;
    assert |vs| == |m.args| + 1 && KindOf(vs[0]).RefKind? && forall k :: 0 <= k < |vs| ==> One(vs[k]);
    assert f.stack == Onto(vs, below);
    hide Exec;
    hide RunList;
    hide Onto;
    hide Faithful;
    hide CollectionPlanOf;
    hide MapCall;
    hide OperandKinds;
    hide Calling;
    if |m.args| == 1 && OwnerTypeOf(m.owner).Malformed? {
      LostCall(env, types, ctx, m, vs, below, f, t);
    } else {
      DynamicShape(types, ctx, m);
      UnderOthers(vs, below, |vs| - 1);
      var f0 := f.(trace := t);
      if |m.args| == 1 && OwnerTypeOf(m.owner).TwoSlots? {
        WrongCopyRuns(env, vs, below, f0);
        if below.Push? && One(below.top) {
          CopyExactly(env, cfg, ctx, m, vs, below, f, t, below.top);
        } else {
          StuckBefore(env, cfg, ctx, m, f, t);
        }
      } else {
        CopyRuns(env, vs, below, f0);
        CopyExactly(env, cfg, ctx, m, vs, below, f, t, vs[0]);
      }
    }
  }

  lemma SlimArguments(m: MethodRef)
    ensures Trace.Slim(m, 1) <==> OneSlotArgs(m, 1)
    ensures Trace.Slim(m, 2) <==> OneSlotArgs(m, 2)
  {
  }

  // An internal name read as a descriptor.
  lemma OwnerRead(owner: string)
    ensures OwnerTypeOf(owner) ==
            if Trace.Unfinished(owner) then Malformed
            else if owner[0] == 'J' || owner[0] == 'D' then TwoSlots else OneSlot
  {
  }

  lemma StuckBefore(env: Env, cfg: Config, ctx: Context, m: MethodRef, f: Frame, t: seq<Event>)
    requires Readable(Captured(cfg, ctx, Invoke(m)), f.locals)
    requires RunList(env, Before(cfg, ctx, Invoke(m)), f.(trace := t)) == Stuck
    ensures !Faithful(env, cfg, ctx, Invoke(m), f, t)
  {
  }

  // The visitor fails after nothing was written: the operands stay on the stack.
  lemma LostCall(env: Env, types: set<string>, ctx: Context, m: MethodRef, vs: seq<Value>, below: Stack, f: Frame, t: seq<Event>)
    requires !m.isStatic && m.owner in types && m.name != "<init>" && OneSlotArgs(m, 1) && OwnerTypeOf(m.owner).Malformed?
    requires Calling(env, m, vs, below, f)
    ensures !Faithful(env, CollectionsOnly(types), ctx, Invoke(m), f, t)
  {
    var cfg, i := CollectionsOnly(types), Invoke(m);
    assert CollectionPlanOf(cfg, m) == Lost;
    assert Block(cfg, ctx, i) == [] && Before(cfg, ctx, i) == [];
    assert f.stack == Onto(vs, below) && |vs| == 2;
    CallAbove(env, m, vs, below, f, below, t);
    TwoOperands(vs, below);
    hide Exec;
    hide Events;
    hide Calling;
    RunNone(env, f.(trace := t));
    Taller(vs[1], vs[0], below);
  }

  lemma Taller(a: Value, b: Value, s: Stack)
    ensures Push(a, Push(b, s)) != s && forall r :: Push(r, s) != Push(a, Push(b, s))
  {
    assert s < Push(b, s);
  }

  /** A two-argument map call, at any call site, is rewritten faithfully exactly when, if it
      returns, its result takes at most one slot. */
  lemma MapCallExactly(env: Env, types: set<string>, ctx: Context, m: MethodRef, vs: seq<Value>, below: Stack,
                       f: Frame, t: seq<Event>)
    requires Trace.MapMethodCall(types, m)
    requires Calling(env, m, vs, below, f)
    ensures Faithful(env, MapsOnly(types), ctx, Invoke(m), f, t) <==> (Exec(env, Invoke(m), f).Fall? ==> !WideResult(m))
  {
    var cfg := MapsOnly(types);
    SlimArguments(m);
    assert |vs| == 3 && KindOf(vs[0]).RefKind? && forall k :: 0 <= k < |vs| ==> One(vs[k]);
    assert f.stack == Onto(vs, below);
    MapShape(types, ctx, m);
    UnderOthers(vs, below, |vs| - 1);
    hide Exec;
    hide RunList;
    hide Onto;
    hide Faithful;
    hide CollectionPlanOf;
    hide MapCall;
    hide OperandKinds;
    hide Calling;
    CopyRuns(env, vs, below, f.(trace := t));
    CopyExactly(env, cfg, ctx, m, vs, below, f, t, vs[0]);
  }

  lemma MapShape(types: set<string>, ctx: Context, m: MethodRef)
    requires !m.isStatic && m.owner in types && OneSlotArgs(m, 2)
    ensures var cfg := MapsOnly(types);
            && Before(cfg, ctx, Invoke(m)) == CopyOf(3) && After(cfg, ctx, Invoke(m)) == CallReportCode(cfg, m)
            && !Dropped(cfg, Invoke(m)) && Captured(cfg, ctx, Invoke(m)) == map[] && MapCall(cfg, m)
            && forall s, s' :: CallEvents(cfg, m, s, s') == [CallReport(cfg, m, Under(s, 2))]
  {
  }

  /** A static call on java/util/Collections is rewritten faithfully exactly when, if it
      returns, its result takes at most one slot and its first argument is a reference. */
  lemma StaticCallExactly(env: Env, types: set<string>, ctx: Context, m: MethodRef, vs: seq<Value>, below: Stack,
                          f: Frame, t: seq<Event>)
    requires Trace.HelperCall(m)
    requires Calling(env, m, vs, below, f)
    ensures Faithful(env, CollectionsOnly(types), ctx, Invoke(m), f, t)
            <==> (Exec(env, Invoke(m), f).Fall? ==> !WideResult(m) && m.args[0].RefKind?)
  {
    var cfg := CollectionsOnly(types);
    StaticOperands(env, m, vs, below, f);
    StaticShape(types, ctx, m);
    UnderOthers(vs, below, |vs| - 1);
    hide Trace.HelperCall;
    hide StaticCollections;
    hide OneSlotArgs;
    hide Exec;
    hide RunList;
    hide Onto;
    hide Faithful;
    hide CollectionPlanOf;
    hide MapCall;
    hide OperandKinds;
    hide Calling;
    CopyRuns(env, vs, below, f.(trace := t));
    CopyExactly(env, cfg, ctx, m, vs, below, f, t, vs[0]);
  }

  lemma StaticOperands(env: Env, m: MethodRef, vs: seq<Value>, below: Stack, f: Frame)
    requires Trace.HelperCall(m) && Calling(env, m, vs, below, f)
    ensures StaticCollections(m) && (OneSlotArgs(m, 1) || OneSlotArgs(m, 2))
    ensures 1 <= |vs| <= 2 && |vs| == |m.args| && KindOf(vs[0]) == m.args[0] && forall k :: 0 <= k < |vs| ==> One(vs[k])
    ensures f.stack == Onto(vs, below)
  {
    SlimArguments(m);
    hide Exec;
    hide Onto;
  }

  lemma StaticShape(types: set<string>, ctx: Context, m: MethodRef)
    requires StaticCollections(m) && (OneSlotArgs(m, 1) || OneSlotArgs(m, 2))
    ensures var cfg := CollectionsOnly(types);
            && Before(cfg, ctx, Invoke(m)) == CopyOf(|m.args|) && After(cfg, ctx, Invoke(m)) == CallReportCode(cfg, m)
            && !Dropped(cfg, Invoke(m)) && Captured(cfg, ctx, Invoke(m)) == map[] && !MapCall(cfg, m)
            && forall s, s' :: CallEvents(cfg, m, s, s') == [CallReport(cfg, m, Under(s, |m.args| - 1))]
  {
    var x := CollectionAfter(CollectionPlanOf(CollectionsOnly(types), m), m);
    assert x + [] == x;
  }

  // ---------------------------------------------------------------- constructors and asList

  // What lies on top after the call is copied and reported.
  lemma ResultExactly(env: Env, types: set<string>, ctx: Context, m: MethodRef, vs: seq<Value>, below: Stack, f: Frame, t: seq<Event>)
    requires CollectionPlan(types, m).CopyResult? && Calling(env, m, vs, below, f)
    ensures var cfg, e := CollectionsOnly(types), Exec(env, Invoke(m), f);
            && (Faithful(env, cfg, ctx, Invoke(m), f, t) <==>
                (e.Fall? ==> e.frame.stack.Push? && KindOf(e.frame.stack.top).RefKind?))
            && (e.Fall? ==> Events(env, cfg, ctx, Invoke(m), f) == [CollectionModified(Under(e.frame.stack, 0))])
  {
    var cfg, i, f0 := CollectionsOnly(types), Invoke(m), f.(trace := t);
    var after := ResultCode(m);
    var e := Exec(env, i, f);
    ResultShape(types, ctx, m);
    assert Events(env, cfg, ctx, i, f) == if e.Fall? then [CollectionModified(Under(e.frame.stack, 0))] else [];
    CallAbove(env, m, vs, below, f, below, t);
    CallingStack(env, m, vs, below, f);
    RunNone(env, f0);
    assert f0 == Frame(Onto(vs, below), f.locals, f.heap, t);
    hide Calling;
    hide CollectionPlan;
    hide Onto;
    hide Exec;
    hide Before;
    hide After;
    hide Events;
    hide Captured;
    hide Dropped;
    hide RunList;
    hide ResultCode;
    if e.Fall? {
      var g1 := e.frame.(trace := t);
      assert Exec(env, i, f0) == Fall(g1);
      BlockRuns(env, [], i, after, f0, f0, g1);
      ResultReport(env, m, g1);
    } else {
      assert t + [] == t;
      FaithfulTransfer(env, cfg, ctx, i, f, t, f0);
    }
  }

  function ResultCode(m: MethodRef): seq<Instr> {
    [Insn(Dup)] + ((if m.ret.Some? then [Insn(Swap)] else []) + [CallHook(CollectionHook)])
  }

  lemma ResultShape(types: set<string>, ctx: Context, m: MethodRef)
    requires CollectionPlan(types, m).CopyResult?
    ensures var cfg := CollectionsOnly(types);
            && Before(cfg, ctx, Invoke(m)) == [] && After(cfg, ctx, Invoke(m)) == ResultCode(m)
            && !Dropped(cfg, Invoke(m)) && Captured(cfg, ctx, Invoke(m)) == map[]
            && forall s, s' :: CallEvents(cfg, m, s, s') == [CollectionModified(Under(s', 0))]
  {
    hide CollectionPlan;
    assert CollectionPlanOf(CollectionsOnly(types), m) == CopyResult && !MapCall(CollectionsOnly(types), m);
    var x := CollectionAfter(CopyResult, m);
    assert x + [] == x == ResultCode(m);
  }

  lemma CallingStack(env: Env, m: MethodRef, vs: seq<Value>, below: Stack, f: Frame)
    requires Calling(env, m, vs, below, f)
    ensures f.stack == Onto(vs, below)
  {
  }

  lemma ResultReport(env: Env, m: MethodRef, g: Frame)
    requires m.ret.Some? ==> g.stack.Push? && KindOf(g.stack.top) == m.ret.value
    ensures RunList(env, ResultCode(m), g) ==
            if g.stack.Push? && KindOf(g.stack.top).RefKind?
            then Fall(g.(trace := g.trace + [CollectionModified(g.stack.top)])) else Stuck
  {
    var h := CallHook(CollectionHook);
    var rest := (if m.ret.Some? then [Insn(Swap)] else []) + [h];
    RunCons(env, Insn(Dup), rest, g);
    if g.stack.Push? && One(g.stack.top) {
      var g2 := g.(stack := Push(g.stack.top, g.stack));
      RunOne(env, h, g2);
      if m.ret.Some? {
        RunCons(env, Insn(Swap), [h], g2);
      } else {
        assert rest == [h];
      }
    }
  }

  /** A constructor call of an observed collection gets through exactly when, if it returns, a
      reference lies directly below its operands, and reports the constructed collection
      exactly when that is the receiver, as it is behind `new` and `dup`. */
  lemma ConstructorCallExactly(env: Env, types: set<string>, ctx: Context, m: MethodRef, vs: seq<Value>, below: Stack,
                               f: Frame, t: seq<Event>)
    requires Trace.ConstructorCall(types, m) && m.ret.None?
    requires Calling(env, m, vs, below, f)
    ensures var cfg, e := CollectionsOnly(types), Exec(env, Invoke(m), f);
            && (Faithful(env, cfg, ctx, Invoke(m), f, t) <==> (e.Fall? ==> below.Push? && KindOf(below.top).RefKind?))
            && (e.Fall? ==>
                  (Faithful(env, cfg, ctx, Invoke(m), f, t) && Events(env, cfg, ctx, Invoke(m), f) == [CollectionModified(vs[0])]
                   <==> below.Push? && below.top == vs[0]))
  {
    ResultExactly(env, types, ctx, m, vs, below, f, t);
    CallAbove(env, m, vs, below, f, below, t);
    assert KindOf(vs[0]).RefKind?;
  }

  /** A call of Arrays.asList keeps its result and reports it. */
  lemma AsListCallExactly(env: Env, types: set<string>, ctx: Context, m: MethodRef, vs: seq<Value>, below: Stack,
                          f: Frame, t: seq<Event>)
    requires Trace.AsListCall(m) && m.ret.Some?
    requires Calling(env, m, vs, below, f)
    ensures var cfg, e := CollectionsOnly(types), Exec(env, Invoke(m), f);
            && (Faithful(env, cfg, ctx, Invoke(m), f, t) <==> (e.Fall? ==> m.ret.value.RefKind?))
            && (e.Fall? ==>
                  var result := env.invoke(m, vs, f.heap);
                  result.Returned? && result.result.Some? && Events(env, cfg, ctx, Invoke(m), f) == [CollectionModified(result.result.value)])
  {
    ResultExactly(env, types, ctx, m, vs, below, f, t);
    CallAbove(env, m, vs, below, f, below, t);
    hide PopArgs;
    PopArgsFinds(OperandKinds(m), vs, below);
  }
}
