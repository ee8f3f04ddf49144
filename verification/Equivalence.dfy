/**
 What the simulation means for a caller: rewriting changes neither results, nor thrown
 exceptions, nor divergence, and it is known exactly when rewritten code stops working.
 */
module Equivalence {
  import opened Wrappers
  import opened Jvm
  import opened Instrumentation
  import opened BlockProofs
  import opened Simulation

  ghost predicate NeverWrong(env: Env, m: Method, s: State) {
    forall n: nat :: Run(env, m, n, s) != Wrong
  }

  ghost predicate AlwaysSafe(env: Env, cfg: Config, m: Method, s: State) {
    forall n: nat :: SafeAt(env, cfg, m, Run(env, m, n, s))
  }

  ghost predicate Returns(env: Env, m: Method, s: State, result: Option<Value>, heap: Heap) {
    exists n: nat :: var e := Run(env, m, n, s); e.Finished? && e.result == result && e.heap == heap
  }

  ghost predicate Throws(env: Env, m: Method, s: State, exc: Value, heap: Heap) {
    exists n: nat :: var e := Run(env, m, n, s); e.Uncaught? && e.exc == exc && e.heap == heap
  }

  ghost predicate Diverges(env: Env, m: Method, s: State) {
    forall n: nat :: Run(env, m, n, s).At?
  }

  // ---------------------------------------------------------------- unsafe states

  lemma {:induction false} RunEmbeddedSticks(env: Env, m: Method, p: nat, code: seq<Instr>, f: Frame)
    requires p + |code| <= |m.code| && m.code[p..p + |code|] == code
    requires RunList(env, code, f) == Stuck
    ensures Run(env, m, |code|, At(p, f)) == Wrong
    decreases |code|
  {
    assert m.code[p] == code[0];
    hide Exec;
    var e := Exec(env, code[0], f);
    if e.Fall? {
      assert m.code[p + 1..p + 1 + |code[1..]|] == code[1..];
      RunEmbeddedSticks(env, m, p + 1, code[1..], e.frame);
    } else {
      assert Step(env, m, At(p, f)) == Wrong;
      RunStops(env, m, |code[1..]|, Wrong);
    }
  }

  lemma ResultCodeSticks(env: Env, m: MethodRef, g: Frame)
    requires m.ret.None? && !(g.stack.Push? && KindOf(g.stack.top).RefKind?)
    ensures RunList(env, CollectionAfter(CopyResult, m), g) == Stuck
  {
    var h := CallHook(CollectionHook);
    assert CollectionAfter(CopyResult, m) == [Insn(Dup)] + [h];
    RunCons(env, Insn(Dup), [h], g);
    if g.stack.Push? && One(g.stack.top) {
      RunOne(env, h, g.(stack := Push(g.stack.top, g.stack)));
    }
  }

  lemma UnsafeBlockSticks(env: Env, cfg: Config, ctx: Context, i: Instr, f: Frame)
    requires Original(cfg, i) && Exec(env, i, f) != Stuck && !Safe(env, cfg, ctx, i, f)
    ensures RunList(env, Block(cfg, ctx, i), f) == Stuck
  {
    hide RunList;
    hide CaptureCode;
    hide PopArgs;
    var b, a := Before(cfg, ctx, i), After(cfg, ctx, i);
    var slots := Captured(cfg, ctx, i);
    OriginalKept(cfg, i);
    assert Block(cfg, ctx, i) == b + ([i] + a);
    RunListAppends(env, b, [i] + a, f);
    if !Readable(slots, f.locals) {
      if i.LineMark? {
        var g := f;
        if cfg.flow.Some? {
          LineCodeReports(env, cfg.flow.value, i.line, LabelNumber(ctx, i.start), f);
          g := RunList(env, b, f).frame;
        } else {
          RunNone(env, f);
        }
        RunCons(env, i, a, g);
        CaptureCodeSticks(env, slots, g);
      } else {
        CaptureCodeSticks(env, slots, f);
      }
    } else {
      RunNone(env, f);
      RunCons(env, i, a, f);
      assert a == CollectionAfter(CopyResult, i.callee) by {
        assert !MapCall(cfg, i.callee);
        assert CollectionAfter(CopyResult, i.callee) + [] == CollectionAfter(CopyResult, i.callee);
      }
      ResultLeft(env, i.callee, f);
      assert i.callee.ret.None?;
      ResultCodeSticks(env, i.callee, Exec(env, i, f).frame);
    }
  }

  lemma ResultLeft(env: Env, m: MethodRef, f: Frame)
    requires Exec(env, Invoke(m), f).Fall?
    ensures var s := Exec(env, Invoke(m), f).frame.stack; m.ret.Some? ==> s.Push? && KindOf(s.top) == m.ret.value
  {
    hide PopArgs;
  }

  lemma UnsafeGoesWrong(env: Env, cfg: Config, m: Method, s: State, t: seq<Event>)
    requires OriginalMethod(cfg, m) && !SafeAt(env, cfg, m, s) && Step(env, m, s) != Wrong
    ensures exists k: nat :: Run(env, TransformMethod(cfg, m), k, Image(cfg, m, s, t)) == Wrong
  {
    hide Exec;
    hide Block;
    hide Transform;
    hide Run;
    hide Safe;
    hide ContextAfter;
    hide FindHandler;
    hide Original;
    hide RunList;
    var pc, f := s.pc, s.frame;
    var ctx, i := ContextAfter(m.code[..pc]), m.code[pc];
    var f0 := f.(trace := t);
    UnsafeIgnoresTrace(env, cfg, ctx, i, f, t);
    UnsafeBlockSticks(env, cfg, ctx, i, f0);
    BlockPosition(cfg, m.code, pc);
    RunEmbeddedSticks(env, TransformMethod(cfg, m), Pos(cfg, m.code, pc), Block(cfg, ctx, i), f0);
    assert Image(cfg, m, s, t) == At(Pos(cfg, m.code, pc), f0);
    assert Run(env, TransformMethod(cfg, m), |Block(cfg, ctx, i)|, Image(cfg, m, s, t)) == Wrong;
  }

  lemma UnsafeIgnoresTrace(env: Env, cfg: Config, ctx: Context, i: Instr, f: Frame, t: seq<Event>)
    requires Original(cfg, i) && Exec(env, i, f) != Stuck && !Safe(env, cfg, ctx, i, f)
    ensures Exec(env, i, f.(trace := t)) != Stuck && !Safe(env, cfg, ctx, i, f.(trace := t))
  {
    hide Exec;
    ExecIgnoresTrace(env, i, f, t);
  }

  // ---------------------------------------------------------------- runs of any length

  lemma {:induction false} SafePrefix(env: Env, cfg: Config, m: Method, n: nat, s: State)
    requires forall k: nat :: k < n ==> SafeAt(env, cfg, m, Run(env, m, k, s))
    ensures SafeFor(env, cfg, m, n, s)
  {
    hide SafeAt;
    hide Step;
    if n > 0 {
      assert Run(env, m, 0, s) == s;
      forall k: nat | k < n - 1
        ensures SafeAt(env, cfg, m, Run(env, m, k, Step(env, m, s)))
      {
        assert Run(env, m, k + 1, s) == Run(env, m, k, Step(env, m, s));
      }
      SafePrefix(env, cfg, m, n - 1, Step(env, m, s));
    }
  }

  lemma {:induction false} CostsGrow(env: Env, cfg: Config, m: Method, n: nat, s: State)
    requires OriginalMethod(cfg, m)
    ensures Costs(env, cfg, m, n, s) >= n
  {
    hide Step;
    hide Exec;
    hide Before;
    hide After;
    if n > 0 {
      if s.At? && s.pc < |m.code| {
        OriginalKept(cfg, m.code[s.pc]);
      }
      CostsGrow(env, cfg, m, n - 1, Step(env, m, s));
    }
  }

  // A run that has stopped stays where it is.
  lemma StoppedLater(env: Env, m: Method, a: nat, b: nat, s: State)
    requires a <= b && !Run(env, m, a, s).At?
    ensures Run(env, m, b, s) == Run(env, m, a, s)
  {
    RunAdds(env, m, a, b - a, s);
    RunStops(env, m, b - a, Run(env, m, a, s));
  }

  lemma SafeRunSimulates(env: Env, cfg: Config, m: Method, n: nat, s: State, t: seq<Event>)
    requires OriginalMethod(cfg, m) && NeverWrong(env, m, s) && AlwaysSafe(env, cfg, m, s)
    ensures SafeFor(env, cfg, m, n, s)
    ensures Run(env, TransformMethod(cfg, m), Costs(env, cfg, m, n, s), Image(cfg, m, s, t))
            == Image(cfg, m, Run(env, m, n, s), t + RunEvents(env, cfg, m, n, s))
  {
    SafePrefix(env, cfg, m, n, s);
    RunSimulates(env, cfg, m, n, s, t);
  }

  // Running states correspond to running states, stopped ones to stopped ones.
  lemma ImageShape(cfg: Config, m: Method, s: State, t: seq<Event>)
    ensures Image(cfg, m, s, t) != Wrong ==> Image(cfg, m, s, t).At? == s.At?
    ensures s != Wrong && (s.At? ==> s.pc <= |m.code|) ==> Image(cfg, m, s, t) != Wrong
  {
  }

  lemma InsideCode(env: Env, m: Method, n: nat, s: State)
    requires NeverWrong(env, m, s)
    ensures var e := Run(env, m, n, s); e.At? ==> e.pc < |m.code|
  {
    var e := Run(env, m, n, s);
    RunAdds(env, m, n, 1, s);
    assert Run(env, m, 1, e) == Run(env, m, 0, Step(env, m, e)) == Step(env, m, e);
    assert Run(env, m, n + 1, s) != Wrong;
  }

  /** The rewritten method stops working exactly when the original reaches a state in which
      a captured slot does not hold a value of the kind it is loaded with, or an observed
      constructor call leaves no reference on the stack. */
  lemma WorksExactlyWhenSafe(env: Env, cfg: Config, m: Method, s: State, t: seq<Event>)
    requires OriginalMethod(cfg, m) && NeverWrong(env, m, s)
    ensures NeverWrong(env, TransformMethod(cfg, m), Image(cfg, m, s, t)) <==> AlwaysSafe(env, cfg, m, s)
  {
    hide SafeAt;
    hide SafeFor;
    hide OriginalMethod;
    hide TransformMethod;
    hide RunEvents;
    hide Costs;
    hide Image;
    hide Step;
    var m' := TransformMethod(cfg, m);
    if AlwaysSafe(env, cfg, m, s) {
      forall n: nat
        ensures Run(env, m', n, Image(cfg, m, s, t)) != Wrong
      {
        SafeRunSimulates(env, cfg, m, n, s, t);
        InsideCode(env, m, n, s);
        ImageShape(cfg, m, Run(env, m, n, s), t + RunEvents(env, cfg, m, n, s));
        CostsGrow(env, cfg, m, n, s);
        if Run(env, m', n, Image(cfg, m, s, t)) == Wrong {
          StoppedLater(env, m', n, Costs(env, cfg, m, n, s), Image(cfg, m, s, t));
        }
      }
    } else {
      var n := FirstUnsafe(env, cfg, m, s);
      SafePrefix(env, cfg, m, n, s);
      RunSimulates(env, cfg, m, n, s, t);
      var e := Run(env, m, n, s);
      var t' := t + RunEvents(env, cfg, m, n, s);
      RunAdds(env, m, n, 1, s);
      InsideCode(env, m, n, s);
      assert Run(env, m, 1, e) == Run(env, m, 0, Step(env, m, e)) == Step(env, m, e);
      assert Run(env, m, n + 1, s) != Wrong;
      UnsafeGoesWrong(env, cfg, m, e, t');
      var k: nat :| Run(env, m', k, Image(cfg, m, e, t')) == Wrong;
      RunAdds(env, m', Costs(env, cfg, m, n, s), k, Image(cfg, m, s, t));
      assert Run(env, m', Costs(env, cfg, m, n, s) + k, Image(cfg, m, s, t)) == Wrong;
    }
  }

  lemma FirstUnsafe(env: Env, cfg: Config, m: Method, s: State) returns (n: nat)
    requires !AlwaysSafe(env, cfg, m, s)
    ensures !SafeAt(env, cfg, m, Run(env, m, n, s))
    ensures forall k: nat :: k < n ==> SafeAt(env, cfg, m, Run(env, m, k, s))
  {
    hide SafeAt;
    hide Run;
    var bad: nat :| !SafeAt(env, cfg, m, Run(env, m, bad, s));
    n := 0;
    while SafeAt(env, cfg, m, Run(env, m, n, s))
      invariant n <= bad
      invariant forall k: nat :: k < n ==> SafeAt(env, cfg, m, Run(env, m, k, s))
      decreases bad - n
    {
      n := n + 1;
    }
  }

  /** A rewritten method returns, throws and diverges exactly as the original does. */
  lemma SameResults(env: Env, cfg: Config, m: Method, s: State, t: seq<Event>, result: Option<Value>, exc: Value, heap: Heap)
    requires OriginalMethod(cfg, m) && NeverWrong(env, m, s) && AlwaysSafe(env, cfg, m, s)
    ensures var m', s' := TransformMethod(cfg, m), Image(cfg, m, s, t);
            && (Returns(env, m', s', result, heap) <==> Returns(env, m, s, result, heap))
            && (Throws(env, m', s', exc, heap) <==> Throws(env, m, s, exc, heap))
            && (Diverges(env, m', s') <==> Diverges(env, m, s))
  {
    hide Run;
    hide AlwaysSafe;
    hide OriginalMethod;
    hide TransformMethod;
    hide RunEvents;
    hide Costs;
    var m', s' := TransformMethod(cfg, m), Image(cfg, m, s, t);
    if Diverges(env, m, s) {
      forall n: nat
        ensures Run(env, m', n, s').At?
      {
        RewrittenReachesAsFar(env, cfg, m, n, s, t);
      }
    } else {
      var n: nat :| !Run(env, m, n, s).At?;
      SafeRunSimulates(env, cfg, m, n, s, t);
      var k := Costs(env, cfg, m, n, s);
      assert Run(env, m, n, s) != Wrong;
      hide Image;
      StopsOnce(env, m, n, s, result, exc, heap);
      StopsOnce(env, m', k, s', result, exc, heap);
    }
  }

  // A run that stops has one outcome.
  lemma StopsOnce(env: Env, m: Method, n: nat, s: State, result: Option<Value>, exc: Value, heap: Heap)
    requires !Run(env, m, n, s).At?
    ensures var e := Run(env, m, n, s);
            && !Diverges(env, m, s)
            && (Returns(env, m, s, result, heap) <==> e.Finished? && e.result == result && e.heap == heap)
            && (Throws(env, m, s, exc, heap) <==> e.Uncaught? && e.exc == exc && e.heap == heap)
  {
    hide Run;
    forall j: nat | !Run(env, m, j, s).At?
      ensures Run(env, m, j, s) == Run(env, m, n, s)
    {
      if j <= n { StoppedLater(env, m, j, n, s); } else { StoppedLater(env, m, n, j, s); }
    }
  }

  // As long as the original runs, so does the rewritten method.
  lemma RewrittenReachesAsFar(env: Env, cfg: Config, m: Method, n: nat, s: State, t: seq<Event>)
    requires OriginalMethod(cfg, m) && NeverWrong(env, m, s) && AlwaysSafe(env, cfg, m, s)
    requires Run(env, m, n, s).At?
    ensures Run(env, TransformMethod(cfg, m), n, Image(cfg, m, s, t)).At?
  {
    var m', s' := TransformMethod(cfg, m), Image(cfg, m, s, t);
    SafeRunSimulates(env, cfg, m, n, s, t);
    CostsGrow(env, cfg, m, n, s);
    InsideCode(env, m, n, s);
    if !Run(env, m', n, s').At? {
      StoppedLater(env, m', n, Costs(env, cfg, m, n, s), s');
    }
  }

  lemma PrologueRuns(env: Env, cfg: Config, f: Frame)
    ensures RunList(env, Prologue(cfg), f) ==
            Fall(f.(trace := f.trace + (if cfg.depth.Some? then [DepthIncreased] else [])))
  {
    if cfg.depth.Some? {
      RunOne(env, CallHook(IncreaseHook), f);
    } else {
      RunNone(env, f);
      assert f.trace + [] == f.trace;
    }
  }

  lemma PrologueFirst(cfg: Config, code: seq<Instr>)
    ensures Prologue(cfg) <= Transform(cfg, code) && Pos(cfg, code, 0) == |Prologue(cfg)|
  {
    TransformPrefix(cfg, code, 0);
    assert code[..0] == [];
  }

  /** Entering a rewritten method runs what is written at its beginning. */
  lemma EntrySimulates(env: Env, cfg: Config, m: Method, f: Frame)
    ensures Run(env, TransformMethod(cfg, m), |Prologue(cfg)|, At(0, f))
            == Image(cfg, m, At(0, f), f.trace + (if cfg.depth.Some? then [DepthIncreased] else []))
  {
    hide Run;
    hide RunList;
    hide Transform;
    PrologueFirst(cfg, m.code);
    PrologueRuns(env, cfg, f);
    RunEmbedded(env, TransformMethod(cfg, m), 0, Prologue(cfg), f);
  }
}
