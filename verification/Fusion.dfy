/**
 The visitors are chained: each one sees what the previous one wrote. Running them one
 after the other writes the same code as one visitor with all their parts.
 */
module Fusion {
  import opened Wrappers
  import opened Jvm
  import opened Instrumentation

  // The stages of the chain, in the order in which they see an instruction. The depth
  // transformer can retransform classes and therefore runs after those that cannot.
  predicate UpTo(cfg: Config, stage: nat) {
    && (stage < 1 ==> cfg.maps.None?)
    && (stage < 2 ==> cfg.collections.None?)
    && (stage < 3 ==> !cfg.arrays)
    && (stage < 4 ==> cfg.fields.None?)
    && (stage < 5 ==> cfg.variables.None?)
    && (stage < 6 ==> cfg.flow.None?)
    && (stage < 7 ==> cfg.depth.None?)
  }

  predicate From(cfg: Config, stage: nat) {
    && (stage >= 1 ==> cfg.maps.None?)
    && (stage >= 2 ==> cfg.collections.None?)
    && (stage >= 3 ==> !cfg.arrays)
    && (stage >= 4 ==> cfg.fields.None?)
    && (stage >= 5 ==> cfg.variables.None?)
    && (stage >= 6 ==> cfg.flow.None?)
    && (stage >= 7 ==> cfg.depth.None?)
  }

  function Join(a: Config, b: Config): Config {
    Config(if a.depth.Some? then a.depth else b.depth,
           if a.maps.Some? then a.maps else b.maps,
           if a.collections.Some? then a.collections else b.collections,
           a.arrays || b.arrays,
           if a.fields.Some? then a.fields else b.fields,
           if a.variables.Some? then a.variables else b.variables,
           if a.flow.Some? then a.flow else b.flow)
  }

  // Instructions the visitors add; no visitor looks at them.
  predicate Inserted(i: Instr) {
    match i
    case Insn(op) => IsShuffle(op)
    case Sipush(_) => true
    case LdcInt(_) => true
    case LdcText(_) => true
    case Load(_, _) => true
    case GetField(_) => true
    case CallHook(_) => true
    case _ => false
  }

  predicate AllInserted(code: seq<Instr>) {
    forall k :: 0 <= k < |code| ==> Inserted(code[k])
  }

  // What a visitor writes for a piece of code, starting from what it remembers.
  function Expand(cfg: Config, ctx: Context, code: seq<Instr>): seq<Instr>
    decreases |code|
  {
    if code == [] then []
    else Block(cfg, ctx, code[0]) + Expand(cfg, Advance(ctx, code[0]), code[1..])
  }

  function AdvanceAll(ctx: Context, code: seq<Instr>): Context
    decreases |code|
  {
    if code == [] then ctx else AdvanceAll(Advance(ctx, code[0]), code[1..])
  }

  lemma {:induction false} AdvanceAppends(a: seq<Instr>, b: seq<Instr>)
    ensures ContextAfter(a + b) == AdvanceAll(ContextAfter(a), b)
    decreases |b|
  {
    hide Advance;
    if b == [] {
      assert a + b == a;
    } else {
      var a1 := a + [b[0]];
      assert a + b == a1 + b[1..];
      assert a1[..|a1| - 1] == a;
      AdvanceAppends(a1, b[1..]);
    }
  }

  lemma {:induction false} TransformAppends(cfg: Config, a: seq<Instr>, b: seq<Instr>)
    ensures Transform(cfg, a + b) == Transform(cfg, a) + Expand(cfg, ContextAfter(a), b)
    decreases |b|
  {
    hide Advance;
    hide Block;
    if b == [] {
      assert a + b == a;
    } else {
      var a1 := a + [b[0]];
      assert a + b == a1 + b[1..];
      assert a1[..|a1| - 1] == a;
      TransformAppends(cfg, a1, b[1..]);
      var x, y, z := Transform(cfg, a), Block(cfg, ContextAfter(a), b[0]), Expand(cfg, ContextAfter(a1), b[1..]);
      assert x + y + z == x + (y + z);
    }
  }

  lemma InsertedUntouched(cfg: Config, ctx: Context, i: Instr)
    requires Inserted(i)
    ensures Block(cfg, ctx, i) == [i] && Advance(ctx, i) == ctx
  {
    hide CaptureCode;
    assert [] + [i] + [] == [i];
  }

  lemma {:induction false} ExpandAppends(cfg: Config, ctx: Context, a: seq<Instr>, b: seq<Instr>)
    ensures Expand(cfg, ctx, a + b) == Expand(cfg, ctx, a) + Expand(cfg, AdvanceAll(ctx, a), b)
    ensures AdvanceAll(ctx, a + b) == AdvanceAll(AdvanceAll(ctx, a), b)
    decreases |a|
  {
    hide Advance;
    hide Block;
    if a == [] {
      assert a + b == b;
    } else {
      assert (a + b)[1..] == a[1..] + b && (a + b)[0] == a[0];
      ExpandAppends(cfg, Advance(ctx, a[0]), a[1..], b);
      var x, y, z := Block(cfg, ctx, a[0]), Expand(cfg, Advance(ctx, a[0]), a[1..]), Expand(cfg, AdvanceAll(ctx, a), b);
      assert x + y + z == x + (y + z);
    }
  }

  lemma {:induction false} ExpandInserted(cfg: Config, ctx: Context, code: seq<Instr>)
    requires AllInserted(code)
    ensures Expand(cfg, ctx, code) == code && AdvanceAll(ctx, code) == ctx
    decreases |code|
  {
    hide Advance;
    hide Block;
    if code != [] {
      InsertedUntouched(cfg, ctx, code[0]);
      ExpandInserted(cfg, ctx, code[1..]);
      assert code == [code[0]] + code[1..];
    }
  }

  lemma {:induction false} CaptureCodeInserted(slots: map<nat, Kind>)
    ensures AllInserted(CaptureCode(slots))
    decreases |slots|
  {
    if slots != map[] {
      CaptureCodeInserted(slots - {MinKey(slots.Keys)});
    }
  }

  lemma CallCodeInserted(cfg: Config, m: MethodRef)
    ensures AllInserted(CopyCode(CollectionPlanOf(cfg, m)))
    ensures AllInserted(CollectionAfter(CollectionPlanOf(cfg, m), m)) && AllInserted(MapAfter(cfg, m))
  {
    hide CollectionPlanOf;
    hide MapCall;
  }

  lemma BeforeInserted(cfg: Config, ctx: Context, i: Instr)
    ensures AllInserted(Before(cfg, ctx, i)) && AllInserted(Prologue(cfg))
  {
    hide Captured;
    hide CaptureCode;
    hide CopyCode;
    hide CollectionPlanOf;
    hide MapCall;
    CaptureCodeInserted(Captured(cfg, ctx, i));
    if i.Invoke? {
      CallCodeInserted(cfg, i.callee);
    }
  }

  lemma AfterInserted(cfg: Config, ctx: Context, i: Instr)
    ensures AllInserted(After(cfg, ctx, i))
  {
    hide Captured;
    hide CaptureCode;
    hide CollectionAfter;
    hide MapAfter;
    hide CollectionPlanOf;
    CaptureCodeInserted(Captured(cfg, ctx, i));
    if i.Invoke? {
      CallCodeInserted(cfg, i.callee);
    }
  }

  // ---------------------------------------------------------------- two stages on one instruction

  lemma CallStages(a: Config, b: Config, stage: nat, m: MethodRef)
    requires UpTo(a, stage) && From(b, stage)
    ensures var j := Join(a, b);
            && (MapCall(j, m) <==> MapCall(a, m) || MapCall(b, m))
            && (a.collections.Some? ==> CollectionPlanOf(j, m) == CollectionPlanOf(a, m) && !MapCall(b, m) && CollectionPlanOf(b, m).Untouched?)
            && (a.collections.None? ==> CollectionPlanOf(j, m) == CollectionPlanOf(b, m) && CollectionPlanOf(a, m).Untouched?)
            && (b.maps.None? ==> !MapCall(b, m))
            && (b.maps.Some? ==> !MapCall(a, m) && CollectionPlanOf(a, m).Untouched?)
  {
    hide CollectionPlan;
  }

  lemma BeforeStages(a: Config, b: Config, stage: nat, ctx: Context, i: Instr)
    requires UpTo(a, stage) && From(b, stage)
    ensures Before(Join(a, b), ctx, i) == Before(a, ctx, i) + Before(b, ctx, i)
  {
    hide CaptureCode;
    hide CollectionPlanOf;
    hide MapCall;
    hide Captured;
    hide LineCode;
    hide CopyCode;
    var x, y := Before(a, ctx, i), Before(b, ctx, i);
    if i.Invoke? {
      BeforeCallStages(a, b, stage, ctx, i.callee);
    } else if i.LabelMark? || i.Jump? {
      NothingCaptured();
      CapturedStages(a, b, ctx, i);
      assert x == [] || y == [];
      assert [] + y == y && x + [] == x;
    } else if i.LineMark? {
      assert x == [] || y == [];
      assert [] + y == y && x + [] == x;
    }
  }

  lemma BeforeCallStages(a: Config, b: Config, stage: nat, ctx: Context, m: MethodRef)
    requires UpTo(a, stage) && From(b, stage)
    ensures Before(Join(a, b), ctx, Invoke(m)) == Before(a, ctx, Invoke(m)) + Before(b, ctx, Invoke(m))
  {
    hide CollectionPlanOf;
    hide MapCall;
    hide DuplicateThird;
    CallStages(a, b, stage, m);
    hide UpTo;
    hide From;
    UntouchedCopiesNothing();
    hide CopyCode;
    var x, y := Before(a, ctx, Invoke(m)), Before(b, ctx, Invoke(m));
    var p, q := CollectionPlanOf(a, m), CollectionPlanOf(b, m);
    if a.collections.Some? {
      assert y == [];
      assert x + [] == x;
    } else {
      assert CopyCode(p) == [];
      if b.maps.Some? {
        assert x == [] && [] + y == y;
      } else {
        assert y == CopyCode(q);
        assert x + CopyCode(p) == x;
      }
    }
  }

  lemma UntouchedCopiesNothing()
    ensures CopyCode(Untouched) == []
  {
  }

  lemma NothingCaptured()
    ensures CaptureCode(map[]) == []
  {
  }

  lemma CapturedStages(a: Config, b: Config, ctx: Context, i: Instr)
    requires a.variables.None? || b.variables.None?
    ensures Captured(Join(a, b), ctx, i) == if a.variables.Some? then Captured(a, ctx, i) else Captured(b, ctx, i)
    ensures (a.variables.None? ==> Captured(a, ctx, i) == map[]) && (b.variables.None? ==> Captured(b, ctx, i) == map[])
  {
  }

  lemma AfterStages(a: Config, b: Config, stage: nat, ctx: Context, i: Instr)
    requires UpTo(a, stage) && From(b, stage)
    ensures After(Join(a, b), ctx, i) == After(b, ctx, i) + After(a, ctx, i)
  {
    hide CaptureCode;
    hide CollectionPlanOf;
    hide MapCall;
    hide Captured;
    var x, y := After(a, ctx, i), After(b, ctx, i);
    if i.Invoke? {
      CallStages(a, b, stage, i.callee);
      if a.collections.Some? {
        assert y == [];
        assert [] + x == x;
      } else if b.maps.Some? {
        assert x == [] && y + [] == y;
      } else {
        assert y == CollectionAfter(CollectionPlanOf(b, i.callee), i.callee);
        assert x == MapAfter(a, i.callee);
      }
    } else if i.LineMark? {
      NothingCaptured();
      CapturedStages(a, b, ctx, i);
      assert x == [] || y == [];
      assert [] + x == x && y + [] == y;
    }
  }

  lemma DroppedStages(a: Config, b: Config, stage: nat, i: Instr)
    requires UpTo(a, stage) && From(b, stage)
    ensures Dropped(Join(a, b), i) <==> Dropped(a, i) || Dropped(b, i)
    ensures Dropped(a, i) ==> Before(b, Context(map[], map[]), i) == [] && After(b, Context(map[], map[]), i) == []
  {
    if i.Invoke? {
      CallStages(a, b, stage, i.callee);
    }
  }

  // Before and After of a call do not depend on what the visitors remember.
  lemma CallContextFree(cfg: Config, ctx: Context, i: Instr)
    requires i.Invoke?
    ensures Before(cfg, ctx, i) == Before(cfg, Context(map[], map[]), i)
    ensures After(cfg, ctx, i) == After(cfg, Context(map[], map[]), i)
    ensures Advance(ctx, i) == ctx
  {
  }

  lemma BlockStages(a: Config, b: Config, stage: nat, ctx: Context, i: Instr)
    requires UpTo(a, stage) && From(b, stage)
    ensures Expand(b, ctx, Block(a, ctx, i)) == Block(Join(a, b), ctx, i)
    ensures AdvanceAll(ctx, Block(a, ctx, i)) == Advance(ctx, i)
  {
    hide Before;
    hide After;
    hide Expand;
    hide AdvanceAll;
    hide Advance;
    hide UpTo;
    hide From;
    hide Dropped;
    hide Join;
    var x, z := Before(a, ctx, i), After(a, ctx, i);
    var core := if Dropped(a, i) then [] else [i];
    BeforeStages(a, b, stage, ctx, i);
    AfterStages(a, b, stage, ctx, i);
    DroppedStages(a, b, stage, i);
    BeforeInserted(a, ctx, i);
    AfterInserted(a, ctx, i);
    ExpandInserted(b, ctx, x);
    ExpandAppends(b, ctx, x + core, z);
    ExpandAppends(b, ctx, x, core);
    ExpandInserted(b, AdvanceAll(ctx, x + core), z);
    if Dropped(a, i) {
      CallContextFree(b, ctx, i) by { DroppedIsCall(a, i); }
      ExpandInserted(b, ctx, []);
      assert x + [] + z == x + z;
    } else {
      ExpandSingle(b, ctx, i);
      var y1, y2 := Before(b, ctx, i), After(b, ctx, i);
      var c := if Dropped(b, i) then [] else [i];
      assert x + (y1 + c + y2) + z == (x + y1) + c + (y2 + z);
    }
  }

  lemma DroppedIsCall(cfg: Config, i: Instr)
    requires Dropped(cfg, i)
    ensures i.Invoke?
  {
  }

  lemma ExpandSingle(cfg: Config, ctx: Context, i: Instr)
    ensures Expand(cfg, ctx, [i]) == Block(cfg, ctx, i) && AdvanceAll(ctx, [i]) == Advance(ctx, i)
  {
    assert [i][1..] == [];
    assert Block(cfg, ctx, i) + [] == Block(cfg, ctx, i);
  }

  // ---------------------------------------------------------------- whole bodies

  lemma {:induction false} ContextStays(a: Config, code: seq<Instr>)
    ensures ContextAfter(Transform(a, code)) == ContextAfter(code)
    decreases |code|
  {
    hide Advance;
    hide Block;
    if code == [] {
      BeforeInserted(a, ContextAfter([]), Plain(0));
      AdvanceAppends([], Prologue(a));
      assert [] + Prologue(a) == Prologue(a);
      ExpandInserted(a, ContextAfter([]), Prologue(a));
    } else {
      var n := |code| - 1;
      ContextStays(a, code[..n]);
      AdvanceAppends(Transform(a, code[..n]), Block(a, ContextAfter(code[..n]), code[n]));
      BlockStages(a, Nothing(), 7, ContextAfter(code[..n]), code[n]) by { assert UpTo(a, 7) && From(Nothing(), 7); }
    }
  }

  function Nothing(): Config {
    Config(None, None, None, false, None, None, None)
  }

  lemma PrologueStages(a: Config, b: Config, stage: nat)
    requires UpTo(a, stage) && From(b, stage)
    ensures Prologue(b) + Prologue(a) == Prologue(Join(a, b))
  {
  }

  /** Two visitors one after the other write what the joined visitor writes. */
  lemma {:induction false} StagesFuse(a: Config, b: Config, stage: nat, code: seq<Instr>)
    requires UpTo(a, stage) && From(b, stage)
    ensures Transform(b, Transform(a, code)) == Transform(Join(a, b), code)
    decreases |code|
  {
    hide Advance;
    hide Block;
    hide UpTo;
    hide From;
    if code == [] {
      BeforeInserted(a, ContextAfter([]), Plain(0));
      TransformAppends(b, [], Prologue(a));
      assert [] + Prologue(a) == Prologue(a);
      ExpandInserted(b, ContextAfter([]), Prologue(a));
      PrologueStages(a, b, stage);
    } else {
      var n := |code| - 1;
      var ctx := ContextAfter(code[..n]);
      StagesFuse(a, b, stage, code[..n]);
      ContextStays(a, code[..n]);
      TransformAppends(b, Transform(a, code[..n]), Block(a, ctx, code[n]));
      BlockStages(a, b, stage, ctx, code[n]);
    }
  }
}
