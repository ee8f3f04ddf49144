/**
 Whole methods: a rewritten method goes through the same operand stacks, locals and heaps
 as the original one, for arbitrary jumps, switches and exception handlers.
 */
module Simulation {
  import opened Wrappers
  import opened Jvm
  import opened Instrumentation
  import opened BlockProofs

  // A method body as the compiler wrote it.
  ghost predicate OriginalMethod(cfg: Config, m: Method) {
    forall pc :: 0 <= pc < |m.code| ==> Original(cfg, m.code[pc])
  }

  // ---------------------------------------------------------------- positions

  // Where the code written for instruction pc begins.
  function Pos(cfg: Config, code: seq<Instr>, pc: nat): nat
    requires pc <= |code|
  {
    |Transform(cfg, code[..pc])|
  }

  lemma {:induction false} TransformPrefix(cfg: Config, code: seq<Instr>, pc: nat)
    requires pc <= |code|
    ensures Transform(cfg, code[..pc]) <= Transform(cfg, code)
    decreases |code|
  {
    if pc == |code| {
      assert code[..pc] == code;
    } else {
      var n := |code| - 1;
      TransformPrefix(cfg, code[..n], pc);
      assert code[..n][..pc] == code[..pc];
    }
  }

  lemma BlockPosition(cfg: Config, code: seq<Instr>, pc: nat)
    requires pc < |code|
    ensures var b := Block(cfg, ContextAfter(code[..pc]), code[pc]);
            Pos(cfg, code, pc + 1) == Pos(cfg, code, pc) + |b|
            && Pos(cfg, code, pc + 1) <= |Transform(cfg, code)|
            && Transform(cfg, code)[Pos(cfg, code, pc)..Pos(cfg, code, pc + 1)] == b
  {
    hide Block;
    hide ContextAfter;
    TransformPrefix(cfg, code, pc + 1);
    NextBlock(cfg, code, pc);
    hide Transform;
    var p, q, whole := Transform(cfg, code[..pc]), Transform(cfg, code[..pc + 1]), Transform(cfg, code);
    assert whole[..|q|] == q;
    assert whole[|p|..|q|] == q[|p|..];
  }

  lemma NextBlock(cfg: Config, code: seq<Instr>, pc: nat)
    requires pc < |code|
    ensures Transform(cfg, code[..pc + 1]) == Transform(cfg, code[..pc]) + Block(cfg, ContextAfter(code[..pc]), code[pc])
  {
    hide Block;
    hide ContextAfter;
    assert code[..pc + 1][..pc] == code[..pc];
  }

  lemma {:induction false} PosMonotone(cfg: Config, code: seq<Instr>, a: nat, b: nat)
    requires a <= b <= |code|
    ensures Pos(cfg, code, a) <= Pos(cfg, code, b)
  {
    TransformPrefix(cfg, code[..b], a);
    assert code[..b][..a] == code[..a];
  }

  predicate Unlabelled(code: seq<Instr>) {
    forall k :: 0 <= k < |code| ==> !code[k].LabelMark?
  }

  lemma {:induction false} NoLabelFound(code: seq<Instr>, l: Label)
    requires Unlabelled(code)
    ensures FindLabel(code, l) == None
    decreases |code|
  {
    if code != [] {
      NoLabelFound(code[..|code| - 1], l);
    }
  }

  lemma {:induction false} CaptureCodeUnlabelled(slots: map<nat, Kind>)
    ensures Unlabelled(CaptureCode(slots))
    decreases |slots|
  {
    if slots != map[] {
      CaptureCodeUnlabelled(slots - {MinKey(slots.Keys)});
    }
  }

  lemma UnlabelledAppends(a: seq<Instr>, b: seq<Instr>)
    requires Unlabelled(a) && Unlabelled(b)
    ensures Unlabelled(a + b)
  {
  }

  lemma CallInsertionsUnlabelled(cfg: Config, m: MethodRef)
    ensures Unlabelled(CopyCode(CollectionPlanOf(cfg, m)))
    ensures Unlabelled(CollectionAfter(CollectionPlanOf(cfg, m), m)) && Unlabelled(MapAfter(cfg, m))
  {
    hide CollectionPlanOf;
    hide MapCall;
  }

  lemma BeforeUnlabelled(cfg: Config, ctx: Context, i: Instr)
    ensures Unlabelled(Before(cfg, ctx, i)) && Unlabelled(Prologue(cfg))
  {
    hide Captured;
    hide CaptureCode;
    hide CopyCode;
    hide CollectionPlanOf;
    hide MapCall;
    hide TrackedField;
    CaptureCodeUnlabelled(Captured(cfg, ctx, i));
    if i.Invoke? {
      CallInsertionsUnlabelled(cfg, i.callee);
    }
  }

  lemma AfterUnlabelled(cfg: Config, ctx: Context, i: Instr)
    ensures Unlabelled(After(cfg, ctx, i))
  {
    hide Captured;
    hide CaptureCode;
    hide CollectionAfter;
    hide MapAfter;
    hide CollectionPlanOf;
    hide MapCall;
    hide TrackedField;
    CaptureCodeUnlabelled(Captured(cfg, ctx, i));
    if i.Invoke? {
      CallInsertionsUnlabelled(cfg, i.callee);
      UnlabelledAppends(CollectionAfter(CollectionPlanOf(cfg, i.callee), i.callee), MapAfter(cfg, i.callee));
    }
  }

  lemma FindLabelInBlock(cfg: Config, ctx: Context, i: Instr, l: Label)
    requires !Dropped(cfg, i)
    ensures FindLabel(Block(cfg, ctx, i), l) == if i == LabelMark(l) then Some(|Before(cfg, ctx, i)|) else None
  {
    hide Before;
    hide After;
    BeforeUnlabelled(cfg, ctx, i);
    AfterUnlabelled(cfg, ctx, i);
    var b, a := Before(cfg, ctx, i), After(cfg, ctx, i);
    NoLabelFound(b, l);
    NoLabelFound(a, l);
    FindLabelAppends(b, [i], l);
    FindLabelAppends(b + [i], a, l);
    assert [i][..0] == [];
  }

  lemma OriginalKept(cfg: Config, i: Instr)
    requires Original(cfg, i)
    ensures !Dropped(cfg, i)
  {
  }

  // Where a label of the original code ends up.
  function LabelPos(cfg: Config, code: seq<Instr>, pc: nat): nat
    requires pc < |code|
  {
    Pos(cfg, code, pc) + |Before(cfg, ContextAfter(code[..pc]), code[pc])|
  }

  // Labels keep their order and none is lost or added.
  lemma {:induction false} LabelsStay(cfg: Config, code: seq<Instr>, l: Label)
    requires forall pc :: 0 <= pc < |code| ==> Original(cfg, code[pc])
    ensures FindLabel(Transform(cfg, code), l) ==
            match FindLabel(code, l) case Some(p) => Some(LabelPos(cfg, code, p)) case None => None
    decreases |code|
  {
    hide Before;
    hide After;
    hide Block;
    hide Original;
    hide Dropped;
    hide Prologue;
    hide ContextAfter;
    hide Unlabelled;
    if code == [] {
      BeforeUnlabelled(cfg, ContextAfter([]), Plain(0));
      NoLabelFound(Prologue(cfg), l);
    } else {
      var n := |code| - 1;
      var ctx := ContextAfter(code[..n]);
      LabelsStay(cfg, code[..n], l);
      OriginalKept(cfg, code[n]);
      FindLabelInBlock(cfg, ctx, code[n], l);
      FindLabelAppends(Transform(cfg, code[..n]), Block(cfg, ctx, code[n]), l);
      LastLabel(cfg, code, l);
      hide FindLabel;
      hide Transform;
    }
  }

  // Looking for a label, and its place, one instruction at a time.
  lemma LastLabel(cfg: Config, code: seq<Instr>, l: Label)
    requires code != []
    ensures var n := |code| - 1;
            && Transform(cfg, code) == Transform(cfg, code[..n]) + Block(cfg, ContextAfter(code[..n]), code[n])
            && FindLabel(code, l) == (if FindLabel(code[..n], l).Some? then FindLabel(code[..n], l)
                                      else if code[n] == LabelMark(l) then Some(n) else None)
            && (FindLabel(code[..n], l).Some? ==>
                  LabelPos(cfg, code, FindLabel(code[..n], l).value) == LabelPos(cfg, code[..n], FindLabel(code[..n], l).value))
            && LabelPos(cfg, code, n) == |Transform(cfg, code[..n])| + |Before(cfg, ContextAfter(code[..n]), code[n])|
  {
    hide Before;
    hide Block;
    hide ContextAfter;
    var n := |code| - 1;
    match FindLabel(code[..n], l)
    case Some(p) => assert code[..n][..p] == code[..p];
    case None =>
  }

  // An instruction other than a label stays inside the same guarded ranges.
  lemma CoverageStays(cfg: Config, m: Method, h: Handler, pc: nat)
    requires OriginalMethod(cfg, m) && pc < |m.code| && !m.code[pc].LabelMark?
    ensures Covers(Transform(cfg, m.code), h, LabelPos(cfg, m.code, pc)) == Covers(m.code, h, pc)
  {
    hide Before;
    hide After;
    hide Transform;
    var code := m.code;
    LabelsStay(cfg, code, h.start);
    LabelsStay(cfg, code, h.end);
    var a, b := FindLabel(code, h.start), FindLabel(code, h.end);
    if a.Some? && b.Some? {
      OrderStays(cfg, code, a.value, pc);
      OrderStays(cfg, code, pc, b.value);
      OrderStays(cfg, code, pc, a.value);
      OrderStays(cfg, code, b.value, pc);
    }
  }

  lemma OrderStays(cfg: Config, code: seq<Instr>, a: nat, b: nat)
    requires a < |code| && b < |code| && !Dropped(cfg, code[a])
    ensures a < b ==> LabelPos(cfg, code, a) < LabelPos(cfg, code, b)
  {
    if a < b {
      BlockPosition(cfg, code, a);
      PosMonotone(cfg, code, a + 1, b);
    }
  }

  lemma {:induction false} HandlersStay(env: Env, cfg: Config, m: Method, hs: seq<Handler>, pc: nat, x: Value, heap: Heap)
    requires OriginalMethod(cfg, m) && pc < |m.code| && !m.code[pc].LabelMark?
    ensures FindHandler(env, Transform(cfg, m.code), hs, LabelPos(cfg, m.code, pc), x, heap)
            == FindHandler(env, m.code, hs, pc, x, heap)
    decreases |hs|
  {
    if hs != [] {
      CoverageStays(cfg, m, hs[0], pc);
      HandlersStay(env, cfg, m, hs[1..], pc, x, heap);
    }
  }

  // ---------------------------------------------------------------- corresponding states

  // The state of the rewritten method that corresponds to s, with trace t.
  function Image(cfg: Config, m: Method, s: State, t: seq<Event>): State {
    match s
    case At(pc, f) => if pc <= |m.code| then At(Pos(cfg, m.code, pc), f.(trace := t)) else Wrong
    case Finished(r, h, _) => Finished(r, h, t)
    case Uncaught(x, h, _) => Uncaught(x, h, t)
    case Wrong => Wrong
  }

  ghost predicate SafeAt(env: Env, cfg: Config, m: Method, s: State) {
    s.At? && s.pc < |m.code| ==> Safe(env, cfg, ContextAfter(m.code[..s.pc]), m.code[s.pc], s.frame)
  }

  // The label an outcome transfers control to.
  function Landing(env: Env, m: Method, pc: nat, e: Effect): Option<Label> {
    match e
    case Goto(l, _) => Some(l)
    case Raise(x, g) => FindHandler(env, m.code, m.handlers, pc, x, g.heap)
    case _ => None
  }

  // The events of one step of the original method.
  ghost function StepEvents(env: Env, cfg: Config, m: Method, s: State): seq<Event>
    requires SafeAt(env, cfg, m, s)
  {
    if s.At? && s.pc < |m.code| then
      Events(env, cfg, ContextAfter(m.code[..s.pc]), m.code[s.pc], s.frame)
      + (match Landing(env, m, s.pc, Exec(env, m.code[s.pc], s.frame))
         case Some(l) => LandEvents(cfg, l)
         case None => [])
    else []
  }

  // How many steps the rewritten method takes for one step of the original.
  function Cost(env: Env, cfg: Config, m: Method, s: State): nat {
    if s.At? && s.pc < |m.code| then
      var ctx := ContextAfter(m.code[..s.pc]);
      var i := m.code[s.pc];
      var e := Exec(env, i, s.frame);
      if e.Fall? then |Block(cfg, ctx, i)|
      else
        |Before(cfg, ctx, i)| + 1
        + (match Landing(env, m, s.pc, e) case Some(l) => |AfterLabel(cfg, l)| case None => 0)
    else 1
  }

  // Landing behind a label and running what is written there.
  lemma LandingSimulates(env: Env, cfg: Config, m: Method, l: Label, g: Frame, t: seq<Event>)
    requires OriginalMethod(cfg, m) && FindLabel(m.code, l).Some?
    ensures Run(env, TransformMethod(cfg, m), |AfterLabel(cfg, l)|, Land(Transform(cfg, m.code), l, g.(trace := t)))
            == Image(cfg, m, Land(m.code, l, g), t + LandEvents(cfg, l))
  {
    hide Transform;
    hide ContextAfter;
    hide Before;
    hide AfterLabel;
    hide RunList;
    hide FindLabel;
    hide Run;
    hide LandEvents;
    LabelsStay(cfg, m.code, l);
    var j := FindLabel(m.code, l).value;
    var ctx := ContextAfter(m.code[..j]);
    BlockPosition(cfg, m.code, j);
    var p := LabelPos(cfg, m.code, j) + 1;
    var b := Block(cfg, ctx, m.code[j]);
    var k := |Before(cfg, ctx, m.code[j])| + 1;
    assert b[k..] == AfterLabel(cfg, l);
    assert Transform(cfg, m.code)[p..p + |AfterLabel(cfg, l)|] == AfterLabel(cfg, l);
    LandingRuns(env, cfg, l, g.(trace := t));
    RunEmbedded(env, TransformMethod(cfg, m), p, AfterLabel(cfg, l), g.(trace := t));
  }

  // The code before the instruction runs, and the instruction itself is next.
  lemma BeforeSimulates(env: Env, cfg: Config, m: Method, pc: nat, f: Frame)
    requires OriginalMethod(cfg, m) && pc < |m.code|
    requires RunList(env, Before(cfg, ContextAfter(m.code[..pc]), m.code[pc]), f).Fall?
    ensures var before := Before(cfg, ContextAfter(m.code[..pc]), m.code[pc]);
            var p := LabelPos(cfg, m.code, pc);
            && p < |Transform(cfg, m.code)| && Transform(cfg, m.code)[p] == m.code[pc]
            && Run(env, TransformMethod(cfg, m), |before|, At(Pos(cfg, m.code, pc), f)) == At(p, RunList(env, before, f).frame)
  {
    hide Exec;
    hide Before;
    hide After;
    hide Transform;
    var ctx := ContextAfter(m.code[..pc]);
    var before := Before(cfg, ctx, m.code[pc]);
    var b := Block(cfg, ctx, m.code[pc]);
    BlockPosition(cfg, m.code, pc);
    assert b[..|before|] == before && b[|before|] == m.code[pc];
    var p := Pos(cfg, m.code, pc);
    assert Transform(cfg, m.code)[p..p + |before|] == before;
    RunEmbedded(env, TransformMethod(cfg, m), p, before, f);
  }

  lemma StepSimulates(env: Env, cfg: Config, m: Method, s: State, t: seq<Event>)
    requires OriginalMethod(cfg, m) && SafeAt(env, cfg, m, s) && Step(env, m, s) != Wrong
    ensures Run(env, TransformMethod(cfg, m), Cost(env, cfg, m, s), Image(cfg, m, s, t))
            == Image(cfg, m, Step(env, m, s), t + StepEvents(env, cfg, m, s))
  {
    hide Exec;
    hide Events;
    hide Readable;
    hide Block;
    hide Before;
    hide After;
    hide Transform;
    hide ContextAfter;
    hide FindHandler;
    hide FindLabel;
    var m' := TransformMethod(cfg, m);
    if !s.At? {
      RunStops(env, m', 1, Image(cfg, m, s, t));
      assert t + [] == t;
    } else {
      var pc, f := s.pc, s.frame;
      var ctx, i := ContextAfter(m.code[..pc]), m.code[pc];
      var e := Exec(env, i, f);
      var f0 := f.(trace := t);
      var t1 := t + Events(env, cfg, ctx, i, f);
      BlockIsFaithful(env, cfg, ctx, i, f, t);
      if e.Fall? {
        BlockPosition(cfg, m.code, pc);
        RunEmbedded(env, m', Pos(cfg, m.code, pc), Block(cfg, ctx, i), f0);
        assert t1 + [] == t1;
      } else {
        var k := |Before(cfg, ctx, i)|;
        var f1 := RunList(env, Before(cfg, ctx, i), f0).frame;
        BeforeSimulates(env, cfg, m, pc, f0);
        TransferSimulates(env, cfg, m, pc, f, f1, t1);
        RunAdds(env, m', k, Cost(env, cfg, m, s) - k, Image(cfg, m, s, t));
        var l := Landing(env, m, pc, e);
        assert t1 + (if l.Some? then LandEvents(cfg, l.value) else []) == t + StepEvents(env, cfg, m, s);
      }
    }
  }

  // A step that does not fall through, taken in the rewritten method.
  lemma TransferSimulates(env: Env, cfg: Config, m: Method, pc: nat, f: Frame, f1: Frame, t: seq<Event>)
    requires OriginalMethod(cfg, m) && pc < |m.code|
    requires LabelPos(cfg, m.code, pc) < |Transform(cfg, m.code)|
    requires Transform(cfg, m.code)[LabelPos(cfg, m.code, pc)] == m.code[pc]
    requires !Exec(env, m.code[pc], f).Fall? && SameOutcome(Exec(env, m.code[pc], f), Exec(env, m.code[pc], f1), t)
    requires Step(env, m, At(pc, f)) != Wrong
    ensures var l := Landing(env, m, pc, Exec(env, m.code[pc], f));
            Run(env, TransformMethod(cfg, m), 1 + (if l.Some? then |AfterLabel(cfg, l.value)| else 0),
                At(LabelPos(cfg, m.code, pc), f1))
            == Image(cfg, m, Step(env, m, At(pc, f)), t + (if l.Some? then LandEvents(cfg, l.value) else []))
  {
    var m' := TransformMethod(cfg, m);
    var p := LabelPos(cfg, m.code, pc);
    var e, e' := Exec(env, m.code[pc], f), Exec(env, m.code[pc], f1);
    assert Step(env, m', At(p, f1)) == Continue(env, m', p, e');
    match e
    case Goto(l, g) => LandingSimulates(env, cfg, m, l, g, t);
    case Exit(r, g) => assert t + [] == t;
    case Raise(x, g) =>
      HandlersStay(env, cfg, m, m.handlers, pc, x, g.heap);
      match FindHandler(env, m.code, m.handlers, pc, x, g.heap)
      case Some(l) => LandingSimulates(env, cfg, m, l, g.(stack := Push(x, Empty)), t);
      case None => assert t + [] == t;
  }

  // ---------------------------------------------------------------- runs

  // Every state of the first n is safe to observe.
  ghost predicate SafeFor(env: Env, cfg: Config, m: Method, n: nat, s: State) {
    n == 0 || (SafeAt(env, cfg, m, s) && SafeFor(env, cfg, m, n - 1, Step(env, m, s)))
  }

  // What a run of n steps of the original method gives rise to.
  ghost function RunEvents(env: Env, cfg: Config, m: Method, n: nat, s: State): seq<Event>
    requires SafeFor(env, cfg, m, n, s)
  {
    if n == 0 then [] else StepEvents(env, cfg, m, s) + RunEvents(env, cfg, m, n - 1, Step(env, m, s))
  }

  function Costs(env: Env, cfg: Config, m: Method, n: nat, s: State): nat {
    if n == 0 then 0 else Cost(env, cfg, m, s) + Costs(env, cfg, m, n - 1, Step(env, m, s))
  }

  lemma {:induction false} WrongStays(env: Env, m: Method, n: nat, s: State)
    requires n > 0 && Run(env, m, n, s) != Wrong
    ensures Step(env, m, s) != Wrong
  {
    if Step(env, m, s) == Wrong {
      RunStops(env, m, n - 1, Wrong);
    }
  }

  /** Every run of the original method is carried out by the rewritten method, from
      corresponding state to corresponding state, and the trace grows by exactly the events
      of the original run, in order. */
  lemma {:induction false} RunSimulates(env: Env, cfg: Config, m: Method, n: nat, s: State, t: seq<Event>)
    requires OriginalMethod(cfg, m) && SafeFor(env, cfg, m, n, s) && Run(env, m, n, s) != Wrong
    ensures Run(env, TransformMethod(cfg, m), Costs(env, cfg, m, n, s), Image(cfg, m, s, t))
            == Image(cfg, m, Run(env, m, n, s), t + RunEvents(env, cfg, m, n, s))
    decreases n
  {
    hide Exec;
    hide StepEvents;
    hide Cost;
    hide Image;
    hide SafeAt;
    hide Step;
    if n == 0 {
      assert t + [] == t;
    } else {
      WrongStays(env, m, n, s);
      var next := Step(env, m, s);
      var t1 := t + StepEvents(env, cfg, m, s);
      StepSimulates(env, cfg, m, s, t);
      RunSimulates(env, cfg, m, n - 1, next, t1);
      RunAdds(env, TransformMethod(cfg, m), Cost(env, cfg, m, s), Costs(env, cfg, m, n - 1, next), Image(cfg, m, s, t));
      assert t1 + RunEvents(env, cfg, m, n - 1, next) == t + RunEvents(env, cfg, m, n, s);
    }
  }
}
