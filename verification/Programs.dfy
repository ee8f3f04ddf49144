/**
 Whole programs: a thread runs methods that call each other, all of them rewritten, and goes
 through the same stack of activations as the original program.
 */
module Programs {
  import opened Wrappers
  import opened Jvm
  import opened Instrumentation
  import opened BlockProofs
  import opened Simulation
  import Equivalence

  // An instrumented method and the visitors that rewrite it.
  datatype Code = Code(body: Method, cfg: Config)

  // Which method a call runs; a number beyond the codes means one that is not instrumented.
  datatype Program = Program(codes: seq<Code>, dispatch: (MethodRef, seq<Value>, Heap) -> nat)

  // An activation that waits for a call to return: where it stands and its frame there.
  datatype Caller = Caller(id: nat, pc: nat, frame: Frame)

  datatype Thread = Thread(callers: seq<Caller>, id: nat, state: State)

  predicate Located(p: Program, w: Thread) {
    w.id < |p.codes| && forall k :: 0 <= k < |w.callers| ==> w.callers[k].id < |p.codes|
  }

  // ---------------------------------------------------------------- one step of a thread

  datatype Entry = Entry(id: nat, args: seq<Value>)

  // The instrumented method the instruction enters, with its arguments.
  function Entered(p: Program, i: Instr, f: Frame): Option<Entry> {
    if !i.Invoke? then None
    else
      match PopArgs(OperandKinds(i.callee), f.stack)
      case None => None
      case Some((args, _)) =>
        if !i.callee.isStatic && args != [] && args[0].Null? then None
        else if p.dispatch(i.callee, args, f.heap) < |p.codes| then Some(Entry(p.dispatch(i.callee, args, f.heap), args))
        else None
  }

  /** A call enters a method of the program, with its operands, exactly when the method is one of
      the program's and the receiver, if it has one, is not null. */
  lemma EntersExactly(p: Program, m: MethodRef, vs: seq<Value>, below: Stack, f: Frame)
    requires f.stack == Onto(vs, below)
    requires var kinds := (if m.isStatic then [] else [RefKind]) + m.args;
             |vs| == |kinds| && forall k :: 0 <= k < |vs| ==> KindOf(vs[k]) == kinds[k]
    ensures Entered(p, Invoke(m), f) ==
            if (m.isStatic || vs[0] != Null) && p.dispatch(m, vs, f.heap) < |p.codes|
            then Some(Entry(p.dispatch(m, vs, f.heap), vs)) else None
  {
    PopArgsFinds(OperandKinds(m), vs, below);
    hide PopArgs;
    hide Onto;
  }

  function SlotsOf(vs: seq<Value>): nat {
    if vs == [] then 0 else SlotsOf(vs[..|vs| - 1]) + if Two(vs[|vs| - 1]) then 2 else 1
  }

  // Arguments go into the first slots, two-slot values into two.
  function EntryLocals(vs: seq<Value>): Locals {
    if vs == [] then map[] else EntryLocals(vs[..|vs| - 1])[SlotsOf(vs[..|vs| - 1]) := vs[|vs| - 1]]
  }

  // The slot of the k-th value.
  function SlotOf(vs: seq<Value>, k: nat): nat
    requires k <= |vs|
  {
    SlotsOf(vs[..k])
  }

  // The first value is in slot 0, and each long or double takes two.
  lemma SlotStep(vs: seq<Value>, k: nat)
    requires k < |vs|
    ensures SlotOf(vs, 0) == 0
    ensures SlotOf(vs, k + 1) == SlotOf(vs, k) + if vs[k].Long? || vs[k].Double? then 2 else 1
  {
    assert vs[..k + 1][..k] == vs[..k];
  }

  lemma {:induction false} SlotsGrow(vs: seq<Value>, j: nat, k: nat)
    requires j < k <= |vs|
    ensures SlotOf(vs, j) < SlotOf(vs, k)
    decreases k
  {
    hide SlotOf;
    SlotStep(vs, k - 1);
    if j < k - 1 { SlotsGrow(vs, j, k - 1); }
  }

  // The values behind the k-th do not matter.
  lemma EntryStep(vs: seq<Value>, k: nat)
    requires k < |vs|
    ensures var last := |vs| - 1;
            && EntryLocals(vs) == EntryLocals(vs[..last])[SlotOf(vs, last) := vs[last]]
            && SlotOf(vs[..last], k) == SlotOf(vs, k)
  {
    assert vs[..|vs| - 1][..k] == vs[..k];
  }

  /** A method finds its k-th operand in the slot behind those of the operands before it, */
  lemma {:induction false} ArgumentInSlot(vs: seq<Value>, k: nat)
    requires k < |vs|
    ensures SlotOf(vs, k) in EntryLocals(vs) && EntryLocals(vs)[SlotOf(vs, k)] == vs[k]
    decreases |vs|
  {
    var last := |vs| - 1;
    EntryStep(vs, k);
    hide EntryLocals;
    hide SlotOf;
    if k < last {
      ArgumentInSlot(vs[..last], k);
      SlotsGrow(vs, k, last);
    }
  }

  /** and nothing in any other slot. */
  lemma {:induction false} NoOtherSlot(vs: seq<Value>, n: nat)
    requires n in EntryLocals(vs)
    ensures exists k :: 0 <= k < |vs| && n == SlotOf(vs, k)
    decreases |vs|
  {
    if vs != [] {
      var last := |vs| - 1;
      EntryStep(vs, last);
      if n in EntryLocals(vs[..last]) {
        NoOtherSlot(vs[..last], n);
        var k :| 0 <= k < last && n == SlotOf(vs[..last], k);
        EntryStep(vs, k);
      }
    }
  }

  function EntryFrame(vs: seq<Value>, heap: Heap, trace: seq<Event>): Frame {
    Frame(Empty, EntryLocals(vs), heap, trace)
  }

  // Calls of instrumented methods are not answered by the environment: the thread makes them.
  function Outside(env: Env, p: Program): Env {
    Deaf(env, p.dispatch, |p.codes|)
  }

  function Deaf(env: Env, dispatch: (MethodRef, seq<Value>, Heap) -> nat, n: nat): Env {
    env.(invoke := (m: MethodRef, vs: seq<Value>, h: Heap) =>
      if dispatch(m, vs, h) < n then Returned(if m.ret.None? then Some(Null) else None, h) else env.invoke(m, vs, h))
  }

  function Answering(env: Env, answer: CallEffect): Env {
    env.(invoke := (m: MethodRef, vs: seq<Value>, h: Heap) => answer)
  }

  // What an activation that has ended answers to its caller.
  function AnswerOf(s: State): CallEffect
    requires s.Finished? || s.Uncaught?
  {
    match s
    case Finished(r, h, _) => Returned(r, h)
    case Uncaught(x, h, _) => Threw(x, h)
  }

  predicate Ended(s: State) {
    s.Finished? || s.Uncaught?
  }

  predicate Enters(p: Program, w: Thread)
    requires Located(p, w)
  {
    w.state.At? && w.state.pc < |p.codes[w.id].body.code|
    && Entered(p, p.codes[w.id].body.code[w.state.pc], w.state.frame).Some?
  }

  predicate Resumes(w: Thread) {
    Ended(w.state) && w.callers != []
  }

  // The state in which the last caller waits, with the trace as it is now.
  function Waiting(w: Thread): State
    requires Resumes(w)
  {
    var c := w.callers[|w.callers| - 1];
    At(c.pc, c.frame.(trace := w.state.trace))
  }

  function Tick(env: Env, p: Program, w: Thread): (r: Thread)
    requires Located(p, w)
    ensures Located(p, r)
  {
    if Enters(p, w) then
      var f := w.state.frame;
      var e := Entered(p, p.codes[w.id].body.code[w.state.pc], f).value;
      Thread(w.callers + [Caller(w.id, w.state.pc, f.(trace := []))], e.id, At(0, EntryFrame(e.args, f.heap, f.trace)))
    else if Resumes(w) then
      var n := |w.callers| - 1;
      var id := w.callers[n].id;
      Thread(w.callers[..n], id, Step(Answering(env, AnswerOf(w.state)), p.codes[id].body, Waiting(w)))
    else
      w.(state := Step(Outside(env, p), p.codes[w.id].body, w.state))
  }

  function Ticks(env: Env, p: Program, n: nat, w: Thread): (r: Thread)
    requires Located(p, w)
    ensures Located(p, r)
  {
    if n == 0 then w else Ticks(env, p, n - 1, Tick(env, p, w))
  }

  lemma {:induction false} TicksAdd(env: Env, p: Program, a: nat, b: nat, w: Thread)
    requires Located(p, w)
    ensures Ticks(env, p, a + b, w) == Ticks(env, p, b, Ticks(env, p, a, w))
  {
    hide Tick;
    if a != 0 {
      TicksAdd(env, p, a - 1, b, Tick(env, p, w));
    }
  }

  // ---------------------------------------------------------------- the rewritten program

  function Rewritten(p: Program): (r: Program)
    ensures |r.codes| == |p.codes| && r.dispatch == p.dispatch
  {
    Program(seq(|p.codes|, k requires 0 <= k < |p.codes| => Code(TransformMethod(p.codes[k].cfg, p.codes[k].body), p.codes[k].cfg)),
            p.dispatch)
  }

  ghost predicate OriginalProgram(p: Program) {
    forall k :: 0 <= k < |p.codes| ==> OriginalMethod(p.codes[k].cfg, p.codes[k].body)
  }

  // A caller waits at a call of an instrumented method.
  predicate CallerOk(p: Program, c: Caller) {
    && c.id < |p.codes| && c.pc < |p.codes[c.id].body.code| && c.frame.trace == []
    && Entered(p, p.codes[c.id].body.code[c.pc], c.frame).Some?
  }

  predicate CallersOk(p: Program, w: Thread): (r: bool)
    ensures r ==> Located(p, w)
  {
    Located(p, w) && forall k :: 0 <= k < |w.callers| ==> CallerOk(p, w.callers[k])
  }

  lemma TickKeepsCallers(env: Env, p: Program, w: Thread)
    requires CallersOk(p, w)
    ensures CallersOk(p, Tick(env, p, w))
  {
    hide Step;
    if Enters(p, w) {
      EnteredWhatever(p, p.codes[w.id].body.code[w.state.pc], w.state.frame, []);
      hide Entered;
    } else {
      hide CallerOk;
    }
  }

  lemma EnteredWhatever(p: Program, i: Instr, f: Frame, t: seq<Event>)
    ensures Entered(p, i, f.(trace := t)) == Entered(p, i, f)
  {
  }

  // The operands of a call, above the copy that was made of the deepest one.
  function OperandsAt(cfg: Config, m: MethodRef, s: Stack): Stack {
    match PopArgs(OperandKinds(m), s)
    case None => s
    case Some((vs, r)) => if CopiesOperand(cfg, m) && vs != [] then Onto(vs, Push(vs[0], r)) else s
  }

  function CallerImage(p: Program, c: Caller): Caller
    requires CallerOk(p, c)
  {
    var code := p.codes[c.id];
    Caller(c.id, LabelPos(code.cfg, code.body.code, c.pc),
           c.frame.(stack := OperandsAt(code.cfg, code.body.code[c.pc].callee, c.frame.stack)))
  }

  function CallerImages(p: Program, cs: seq<Caller>): (r: seq<Caller>)
    requires forall k :: 0 <= k < |cs| ==> CallerOk(p, cs[k])
    ensures |r| == |cs|
  {
    seq(|cs|, k requires 0 <= k < |cs| => CallerImage(p, cs[k]))
  }

  // The thread of the rewritten program that corresponds to w, with trace t.
  function ThreadImage(p: Program, w: Thread, t: seq<Event>): (r: Thread)
    requires CallersOk(p, w)
    ensures Located(Rewritten(p), r)
  {
    Thread(CallerImages(p, w.callers), w.id, Image(p.codes[w.id].cfg, p.codes[w.id].body, w.state, t))
  }

  // ---------------------------------------------------------------- what a step reports and costs

  // What must hold for the step to be observed safely.
  ghost predicate TickSafe(env: Env, p: Program, w: Thread)
    requires Located(p, w)
  {
    if Enters(p, w) then true
    else if Resumes(w) then
      var code := p.codes[w.callers[|w.callers| - 1].id];
      SafeAt(Answering(env, AnswerOf(w.state)), code.cfg, code.body, Waiting(w))
    else SafeAt(Outside(env, p), p.codes[w.id].cfg, p.codes[w.id].body, w.state)
  }

  function EntryEvents(cfg: Config): seq<Event> {
    if cfg.depth.Some? then [DepthIncreased] else []
  }

  // The events of a step that is safe to observe.
  ghost function TickEvents(env: Env, p: Program, w: Thread): seq<Event>
    requires Located(p, w)
  {
    if !TickSafe(env, p, w) then []
    else if Enters(p, w) then
      EntryEvents(p.codes[Entered(p, p.codes[w.id].body.code[w.state.pc], w.state.frame).value.id].cfg)
    else if Resumes(w) then
      var code := p.codes[w.callers[|w.callers| - 1].id];
      StepEvents(Answering(env, AnswerOf(w.state)), code.cfg, code.body, Waiting(w))
    else StepEvents(Outside(env, p), p.codes[w.id].cfg, p.codes[w.id].body, w.state)
  }

  function BeforeAt(code: Code, pc: nat): seq<Instr>
    requires pc < |code.body.code|
  {
    Before(code.cfg, ContextAfter(code.body.code[..pc]), code.body.code[pc])
  }

  // How many steps the rewritten program takes.
  function TickCost(env: Env, p: Program, w: Thread): int
    requires CallersOk(p, w)
  {
    if Enters(p, w) then
      var callee := p.codes[Entered(p, p.codes[w.id].body.code[w.state.pc], w.state.frame).value.id];
      |BeforeAt(p.codes[w.id], w.state.pc)| + 1 + |Prologue(callee.cfg)|
    else if Resumes(w) then
      var c := w.callers[|w.callers| - 1];
      var code := p.codes[c.id];
      Cost(Answering(env, AnswerOf(w.state)), code.cfg, code.body, Waiting(w)) - |BeforeAt(code, c.pc)|
    else Cost(Outside(env, p), p.codes[w.id].cfg, p.codes[w.id].body, w.state)
  }

  // ---------------------------------------------------------------- runs within one activation

  lemma OutsideIsDeaf(env: Env, p: Program, i: Instr, f: Frame)
    requires Entered(p, i, f).Some?
    ensures Exec(Outside(env, p), i, f) == Stuck
  {
    hide PopArgs;
  }

  // As long as no instrumented method is entered the thread runs its method.
  lemma {:induction false} RunsWithin(env: Env, p: Program, k: nat, w: Thread)
    requires Located(p, w) && !Resumes(w)
    requires var m := p.codes[w.id].body;
             Run(Outside(env, p), m, k, w.state) != Wrong && (k > 0 ==> Run(Outside(env, p), m, k - 1, w.state).At?)
    ensures Ticks(env, p, k, w) == w.(state := Run(Outside(env, p), p.codes[w.id].body, k, w.state))
    decreases k
  {
    if k > 0 {
      var out, m := Outside(env, p), p.codes[w.id].body;
      FirstWithin(env, p, k, w);
      var next := Step(out, m, w.state);
      hide *;
      if k > 1 {
        RunsWithin(env, p, k - 1, w.(state := next));
      } else {
        RunZero(out, m, next);
      }
      TicksStep(env, p, k - 1, w);
      if k == 1 { NoTicks(env, p, w.(state := next)); }
    } else {
      NoTicks(env, p, w);
    }
  }

  // The first of several steps within the activation.
  lemma FirstWithin(env: Env, p: Program, k: nat, w: Thread)
    requires Located(p, w) && !Resumes(w) && k > 0
    requires var m := p.codes[w.id].body;
             Run(Outside(env, p), m, k, w.state) != Wrong && Run(Outside(env, p), m, k - 1, w.state).At?
    ensures var next := w.(state := Step(Outside(env, p), p.codes[w.id].body, w.state));
            Located(p, next) && (k > 1 ==> !Resumes(next))
    ensures var out, m := Outside(env, p), p.codes[w.id].body;
            var next := Step(out, m, w.state);
            && Run(out, m, k, w.state) == Run(out, m, k - 1, next) && Tick(env, p, w) == w.(state := next)
            && (k > 1 ==> Run(out, m, k - 2, next).At?)
  {
    var out, m := Outside(env, p), p.codes[w.id].body;
    StillRunning(out, m, k - 1, w.state);
    var next := Step(out, m, w.state);
    if next == Wrong { RunStops(out, m, k - 1, Wrong); }
    if Enters(p, w) { EnteringSticks(env, p, w); }
    hide Enters;
    hide Step;
    hide Outside;
    if k > 1 { StillRunning(out, m, k - 2, next); }
  }

  lemma EnteringSticks(env: Env, p: Program, w: Thread)
    requires Located(p, w) && Enters(p, w)
    ensures Step(Outside(env, p), p.codes[w.id].body, w.state) == Wrong
  {
    OutsideIsDeaf(env, p, p.codes[w.id].body.code[w.state.pc], w.state.frame);
    hide Exec;
    hide Entered;
  }

  lemma StillRunning(env: Env, m: Method, k: nat, s: State)
    requires Run(env, m, k, s).At?
    ensures s.At?
  {
    if !s.At? { RunStops(env, m, k, s); }
  }

  // ---------------------------------------------------------------- a step within the activation

  // What a rewritten step does last it does in the activation.
  lemma LastStepWithin(env: Env, cfg: Config, m: Method, s: State, t: seq<Event>)
    requires OriginalMethod(cfg, m) && SafeAt(env, cfg, m, s) && s.At? && Step(env, m, s) != Wrong
    ensures Cost(env, cfg, m, s) > 0
    ensures Run(env, TransformMethod(cfg, m), Cost(env, cfg, m, s) - 1, Image(cfg, m, s, t)).At?
  {
    var m', k := TransformMethod(cfg, m), Cost(env, cfg, m, s) - 1;
    hide Exec;
    hide Before;
    hide Transform;
    hide ContextAfter;
    hide FindLabel;
    hide FindHandler;
    hide Run;
    if Step(env, m, s).At? {
      StepCostsSomething(env, cfg, m, s);
      StepSimulates(env, cfg, m, s, t);
      assert Step(env, m, s).pc <= |m.code| by { StepStaysInside(env, m, s); }
      OneMore(env, m', k, Image(cfg, m, s, t));
    } else {
      var ctx, i := ContextAfter(m.code[..s.pc]), m.code[s.pc];
      BlockIsFaithful(env, cfg, ctx, i, s.frame, t);
      BeforeSimulates(env, cfg, m, s.pc, s.frame.(trace := t));
    }
  }

  lemma StepCostsSomething(env: Env, cfg: Config, m: Method, s: State)
    requires OriginalMethod(cfg, m)
    ensures Cost(env, cfg, m, s) > 0
  {
    hide Exec;
    hide Before;
    hide After;
    if s.At? && s.pc < |m.code| {
      OriginalKept(cfg, m.code[s.pc]);
    }
  }

  lemma StepStaysInside(env: Env, m: Method, s: State)
    requires s.At?
    ensures Step(env, m, s).At? ==> Step(env, m, s).pc <= |m.code|
  {
    hide Exec;
    hide FindHandler;
  }

  lemma OneMore(env: Env, m: Method, k: nat, s: State)
    ensures Run(env, m, k + 1, s) == Step(env, m, Run(env, m, k, s))
    ensures Run(env, m, k + 1, s).At? ==> Run(env, m, k, s).At?
  {
    RunAdds(env, m, k, 1, s);
    var e := Run(env, m, k, s);
    assert Run(env, m, 1, e) == Run(env, m, 0, Step(env, m, e));
  }

  lemma ImageKind(cfg: Config, m: Method, s: State, t: seq<Event>)
    requires s != Wrong && (s.At? ==> s.pc <= |m.code|)
    ensures Image(cfg, m, s, t) != Wrong
    ensures Image(cfg, m, s, t).At? <==> s.At?
  {
  }

  lemma OneTick(env: Env, p: Program, w: Thread)
    requires Located(p, w) && !Enters(p, w) && !Resumes(w)
    ensures Ticks(env, p, 1, w) == w.(state := Run(Outside(env, p), p.codes[w.id].body, 1, w.state))
  {
    hide Step;
    hide Enters;
    var next := Tick(env, p, w);
    assert Ticks(env, p, 1, w) == Ticks(env, p, 0, next);
    assert Run(Outside(env, p), p.codes[w.id].body, 1, w.state) == Run(Outside(env, p), p.codes[w.id].body, 0, next.state);
  }

  // The block of a step within the activation runs there.
  lemma PlainRuns(out: Env, code: Code, s: State, t: seq<Event>)
    requires OriginalMethod(code.cfg, code.body) && SafeAt(out, code.cfg, code.body, s) && s.At? && Step(out, code.body, s) != Wrong
    ensures var m', k, s0 := TransformMethod(code.cfg, code.body), Cost(out, code.cfg, code.body, s), Image(code.cfg, code.body, s, t);
            && Run(out, m', k, s0) == Image(code.cfg, code.body, Step(out, code.body, s), t + StepEvents(out, code.cfg, code.body, s))
            && Run(out, m', k, s0) != Wrong && k > 0 && Run(out, m', k - 1, s0).At? && s0.At?
  {
    StepStaysInside(out, code.body, s);
    assert s.pc < |code.body.code|;
    ImageKind(code.cfg, code.body, Step(out, code.body, s), t + StepEvents(out, code.cfg, code.body, s));
    ImageKind(code.cfg, code.body, s, t);
    hide *;
    StepSimulates(out, code.cfg, code.body, s, t);
    LastStepWithin(out, code.cfg, code.body, s, t);
  }

  // The parts of a step within the activation.
  lemma PlainParts(env: Env, p: Program, w: Thread, t: seq<Event>)
    requires CallersOk(p, w) && !Enters(p, w) && !Resumes(w) && TickSafe(env, p, w)
    ensures var out, code, p', w' := Outside(env, p), p.codes[w.id], Rewritten(p), ThreadImage(p, w, t);
            && p'.codes[w.id].body == TransformMethod(code.cfg, code.body) && Outside(env, p') == out
            && w'.state == Image(code.cfg, code.body, w.state, t) && w'.id == w.id && (w'.callers == [] <==> w.callers == [])
            && Tick(env, p, w).state == Step(out, code.body, w.state)
            && SafeAt(out, code.cfg, code.body, w.state)
            && TickCost(env, p, w) == Cost(out, code.cfg, code.body, w.state)
            && TickEvents(env, p, w) == StepEvents(out, code.cfg, code.body, w.state)
    ensures CallersOk(p, Tick(env, p, w)) && w.id < |p.codes| && (w.state.At? || w.callers == [] || w.state == Wrong)
    ensures w.state == Wrong ==> Tick(env, p, w).state == Wrong
    ensures OriginalProgram(p) ==> OriginalMethod(p.codes[w.id].cfg, p.codes[w.id].body)
    ensures forall x, t1 :: x == Image(p.codes[w.id].cfg, p.codes[w.id].body, Tick(env, p, w).state, t1) ==>
              ThreadImage(p, w, t).(state := x) == ThreadImage(p, Tick(env, p, w), t1)
  {
    assert Outside(env, Rewritten(p)) == Outside(env, p);
    assert w.state == Wrong ==> Tick(env, p, w).state == Wrong;
    hide Outside;
    hide Step;
    hide Image;
    hide Cost;
    hide StepEvents;
    hide SafeAt;
    hide CallerImages;
    hide Enters;
    TickKeepsCallers(env, p, w);
  }

  lemma PlainTick(env: Env, p: Program, w: Thread, t: seq<Event>)
    requires OriginalProgram(p) && CallersOk(p, w) && !Enters(p, w) && !Resumes(w)
    requires TickSafe(env, p, w) && Tick(env, p, w).state != Wrong
    ensures CallersOk(p, Tick(env, p, w)) && TickCost(env, p, w) >= 0
    ensures Ticks(env, Rewritten(p), TickCost(env, p, w), ThreadImage(p, w, t))
            == ThreadImage(p, Tick(env, p, w), t + TickEvents(env, p, w))
  {
    hide *;
    PlainParts(env, p, w, t);
    var out, code := Outside(env, p), p.codes[w.id];
    var w', k := ThreadImage(p, w, t), Cost(out, code.cfg, code.body, w.state);
    ResumesNot(w');
    if w.state.At? {
      PlainRuns(out, code, w.state, t);
      RunsWithin(env, Rewritten(p), k, w');
    } else {
      EndedStays(out, code, w.state, t);
      EntersNot(Rewritten(p), w');
      OneTick(env, Rewritten(p), w');
    }
  }

  lemma ResumesNot(w: Thread)
    ensures w.state.At? || w.callers == [] ==> !Resumes(w)
  {
  }

  lemma EntersNot(p: Program, w: Thread)
    requires Located(p, w) && !w.state.At?
    ensures !Enters(p, w)
  {
  }

  lemma EndedStays(out: Env, code: Code, s: State, t: seq<Event>)
    requires OriginalMethod(code.cfg, code.body) && SafeAt(out, code.cfg, code.body, s) && !s.At? && s != Wrong
    ensures Cost(out, code.cfg, code.body, s) == 1 && !Image(code.cfg, code.body, s, t).At?
    ensures Run(out, TransformMethod(code.cfg, code.body), 1, Image(code.cfg, code.body, s, t))
            == Image(code.cfg, code.body, Step(out, code.body, s), t + StepEvents(out, code.cfg, code.body, s))
    ensures Ended(s) && Ended(Image(code.cfg, code.body, s, t))
  {
    StepSimulates(out, code.cfg, code.body, s, t);
    hide Run;
  }

  // ---------------------------------------------------------------- a call

  // Before a call its deepest operand is copied below the others, if it is to be reported.
  lemma BeforeCall(env: Env, cfg: Config, ctx: Context, m: MethodRef, f: Frame)
    requires AdmittedCall(cfg, m) && PopArgs(OperandKinds(m), f.stack).Some?
    ensures RunList(env, Before(cfg, ctx, Invoke(m)), f) == Fall(f.(stack := OperandsAt(cfg, m, f.stack)))
  {
    var kinds := OperandKinds(m);
    var (vs, r) := PopArgs(kinds, f.stack).value;
    PopArgsTakesTop(kinds, f.stack, r);
    if CopiesOperand(cfg, m) {
      CopiedCallShape(cfg, ctx, m);
      PopArgsTakesTop(kinds, f.stack, Push(vs[0], r));
      hide PopArgs;
      hide RunList;
      hide Before;
      hide CopyOf;
      hide Onto;
      hide OperandKinds;
      hide CopiesOperand;
      CopyRuns(env, vs, r, f);
    } else {
      UncopiedCall(cfg, ctx, m);
      RunNone(env, f);
    }
  }

  lemma UncopiedCall(cfg: Config, ctx: Context, m: MethodRef)
    requires AdmittedCall(cfg, m) && !CopiesOperand(cfg, m)
    ensures Before(cfg, ctx, Invoke(m)) == []
  {
  }

  lemma EnteredCopied(p: Program, cfg: Config, m: MethodRef, f: Frame, t: seq<Event>)
    requires AdmittedCall(cfg, m) && Entered(p, Invoke(m), f).Some?
    ensures PopArgs(OperandKinds(m), f.stack).Some?
    ensures Entered(Rewritten(p), Invoke(m), f.(stack := OperandsAt(cfg, m, f.stack), trace := t)) == Entered(p, Invoke(m), f)
  {
    hide PopArgs;
    hide OperandKinds;
    hide OperandsAt;
    hide AdmittedCall;
    hide RunList;
    hide Before;
    OperandsStay(cfg, m, f.stack);
  }

  // The copy lies below the operands.
  lemma OperandsStay(cfg: Config, m: MethodRef, s: Stack)
    requires PopArgs(OperandKinds(m), s).Some?
    ensures PopArgs(OperandKinds(m), OperandsAt(cfg, m, s)).Some?
    ensures PopArgs(OperandKinds(m), OperandsAt(cfg, m, s)).value.0 == PopArgs(OperandKinds(m), s).value.0
  {
    var (vs, r) := PopArgs(OperandKinds(m), s).value;
    hide CopiesOperand;
    hide OperandKinds;
    if CopiesOperand(cfg, m) && vs != [] {
      PopArgsTakesTop(OperandKinds(m), s, Push(vs[0], r));
    }
  }

  // The rewritten thread right before the call, with the operands copied.
  function AtCall(p: Program, w: Thread, t: seq<Event>): (r: Thread)
    requires CallersOk(p, w) && Enters(p, w)
    ensures Located(Rewritten(p), r)
  {
    var code := p.codes[w.id];
    var f := w.state.frame;
    Thread(CallerImages(p, w.callers), w.id,
           At(LabelPos(code.cfg, code.body.code, w.state.pc),
              f.(stack := OperandsAt(code.cfg, code.body.code[w.state.pc].callee, f.stack), trace := t)))
  }

  // And in the method entered.
  function AtEntry(p: Program, w: Thread, t: seq<Event>): (r: Thread)
    requires CallersOk(p, w) && Enters(p, w)
    ensures Located(Rewritten(p), r)
  {
    var f := w.state.frame;
    var e := Entered(p, p.codes[w.id].body.code[w.state.pc], f).value;
    Thread(CallerImages(p, w.callers) + [CallerImage(p, Caller(w.id, w.state.pc, f.(trace := [])))], e.id,
           At(0, EntryFrame(e.args, f.heap, t)))
  }

  lemma CallShape(code: Code, pc: nat)
    requires OriginalMethod(code.cfg, code.body) && pc < |code.body.code| && code.body.code[pc].Invoke?
    ensures var i := code.body.code[pc];
            && Original(code.cfg, i) && AdmittedCall(code.cfg, i.callee) && i == Invoke(i.callee)
            && BeforeAt(code, pc) == Before(code.cfg, ContextAfter(code.body.code[..pc]), i)
            && TransformMethod(code.cfg, code.body).code == Transform(code.cfg, code.body.code)
  {
    assert Original(code.cfg, code.body.code[pc]);
    hide AdmittedCall;
    hide Before;
    hide Transform;
  }

  // The rewritten method arrives at the call with the operands copied.
  lemma ReachCall(env: Env, code: Code, pc: nat, f: Frame)
    requires OriginalMethod(code.cfg, code.body) && pc < |code.body.code| && code.body.code[pc].Invoke?
    requires PopArgs(OperandKinds(code.body.code[pc].callee), f.stack).Some?
    ensures var m', k := TransformMethod(code.cfg, code.body), |BeforeAt(code, pc)|;
            var at, s0 := LabelPos(code.cfg, code.body.code, pc), At(Pos(code.cfg, code.body.code, pc), f);
            && at < |m'.code| && m'.code[at] == code.body.code[pc]
            && Run(env, m', k, s0) == At(at, f.(stack := OperandsAt(code.cfg, code.body.code[pc].callee, f.stack)))
            && (k > 0 ==> Run(env, m', k - 1, s0).At?)
  {
    hide *;
    CallShape(code, pc);
    var i, k := code.body.code[pc], |BeforeAt(code, pc)|;
    BeforeCall(env, code.cfg, ContextAfter(code.body.code[..pc]), i.callee, f);
    BeforeSimulates(env, code.cfg, code.body, pc, f);
    if k > 0 {
      OneMore(env, TransformMethod(code.cfg, code.body), k - 1, At(Pos(code.cfg, code.body.code, pc), f));
    }
  }

  lemma CallReached(env: Env, p: Program, w: Thread, t: seq<Event>)
    requires OriginalProgram(p) && CallersOk(p, w) && Enters(p, w)
    ensures Ticks(env, Rewritten(p), |BeforeAt(p.codes[w.id], w.state.pc)|, ThreadImage(p, w, t)) == AtCall(p, w, t)
    ensures var m' := Rewritten(p).codes[w.id].body;
            AtCall(p, w, t).state.pc < |m'.code| && m'.code[AtCall(p, w, t).state.pc] == p.codes[w.id].body.code[w.state.pc]
  {
    hide *;
    CallParts(env, p, w);
    AtCallParts(env, p, w, t);
    ReachCall(Outside(env, p), p.codes[w.id], w.state.pc, w.state.frame.(trace := t));
    RunsWithin(env, Rewritten(p), |BeforeAt(p.codes[w.id], w.state.pc)|, ThreadImage(p, w, t));
  }

  lemma AtCallParts(env: Env, p: Program, w: Thread, t: seq<Event>)
    requires OriginalProgram(p) && CallersOk(p, w) && Enters(p, w)
    ensures var code, f, w' := p.codes[w.id], w.state.frame, ThreadImage(p, w, t);
            && Rewritten(p).codes[w.id].body == TransformMethod(code.cfg, code.body) && Outside(env, Rewritten(p)) == Outside(env, p)
            && w'.state == At(Pos(code.cfg, code.body.code, w.state.pc), f.(trace := t)) && w'.id == w.id && !Resumes(w')
            && AtCall(p, w, t) == w'.(state := At(LabelPos(code.cfg, code.body.code, w.state.pc),
                 f.(stack := OperandsAt(code.cfg, code.body.code[w.state.pc].callee, f.stack), trace := t)))
            && OriginalMethod(code.cfg, code.body) && code.body.code[w.state.pc].Invoke?
            && PopArgs(OperandKinds(code.body.code[w.state.pc].callee), f.stack).Some?
  {
    hide PopArgs;
    hide OperandKinds;
    hide OperandsAt;
    hide Transform;
    hide CallerImages;
  }

  lemma CallEntered(env: Env, p: Program, w: Thread, t: seq<Event>)
    requires OriginalProgram(p) && CallersOk(p, w) && Enters(p, w)
    ensures Tick(env, Rewritten(p), AtCall(p, w, t)) == AtEntry(p, w, t)
  {
    var code, f := p.codes[w.id], w.state.frame;
    var i := code.body.code[w.state.pc];
    assert Original(code.cfg, i);
    CallReached(env, p, w, t);
    EnteredCopied(p, code.cfg, i.callee, f, t);
    hide OperandsAt;
    hide Transform;
    hide LabelPos;
    hide Entered;
    hide Original;
    hide Ticks;
    assert Enters(Rewritten(p), AtCall(p, w, t));
    EnteredWhatever(p, i, f, []);
    assert CallerImage(p, Caller(w.id, w.state.pc, f.(trace := []))) ==
           Caller(w.id, AtCall(p, w, t).state.pc, AtCall(p, w, t).state.frame.(trace := []));
  }

  lemma EntryReached(env: Env, p: Program, w: Thread, t: seq<Event>)
    requires OriginalProgram(p) && CallersOk(p, w) && Enters(p, w)
    ensures CallersOk(p, Tick(env, p, w))
    ensures var callee := p.codes[EnteredId(p, w)];
            Ticks(env, Rewritten(p), |Prologue(callee.cfg)|, AtEntry(p, w, t))
            == ThreadImage(p, Tick(env, p, w), t + EntryEvents(callee.cfg))
  {
    var out, p', w2 := Outside(env, p), Rewritten(p), AtEntry(p, w, t);
    var callee := p.codes[w2.id];
    var k, m' := |Prologue(callee.cfg)|, TransformMethod(callee.cfg, callee.body);
    assert p'.codes[w2.id].body == m' && Outside(env, p') == out;
    TickKeepsCallers(env, p, w);
    EntryImages(env, p, w, t);
    Equivalence.EntrySimulates(out, callee.cfg, callee.body, w2.state.frame);
    hide Transform;
    hide Outside;
    hide Entered;
    hide OperandsAt;
    hide Tick;
    hide CallerImages;
    if k > 0 {
      OneMore(out, m', k - 1, w2.state);
    }
    hide Run;
    RunsWithin(env, p', k, w2);
  }

  lemma EntryImages(env: Env, p: Program, w: Thread, t: seq<Event>)
    requires CallersOk(p, w) && Enters(p, w) && CallersOk(p, Tick(env, p, w))
    ensures CallerImages(p, Tick(env, p, w).callers) == AtEntry(p, w, t).callers
    ensures Tick(env, p, w).id == AtEntry(p, w, t).id && Tick(env, p, w).state.At? && Tick(env, p, w).state.pc == 0
    ensures Tick(env, p, w).state.frame.(trace := t) == AtEntry(p, w, t).state.frame
  {
    hide Entered;
    hide OperandsAt;
    hide LabelPos;
  }

  lemma CallTick(env: Env, p: Program, w: Thread, t: seq<Event>)
    requires OriginalProgram(p) && CallersOk(p, w) && Enters(p, w)
    ensures CallersOk(p, Tick(env, p, w)) && TickCost(env, p, w) >= 0
    ensures Ticks(env, Rewritten(p), TickCost(env, p, w), ThreadImage(p, w, t))
            == ThreadImage(p, Tick(env, p, w), t + TickEvents(env, p, w))
  {
    hide *;
    CallParts(env, p, w);
    var p', w' := Rewritten(p), ThreadImage(p, w, t);
    var a, b := |BeforeAt(p.codes[w.id], w.state.pc)|, |Prologue(p.codes[EnteredId(p, w)].cfg)|;
    CallReached(env, p, w, t);
    CallEntered(env, p, w, t);
    EntryReached(env, p, w, t);
    TicksStep(env, p', b, AtCall(p, w, t));
    TicksAdd(env, p', a, 1 + b, w');
  }

  function EnteredId(p: Program, w: Thread): (id: nat)
    requires Located(p, w) && Enters(p, w)
    ensures id < |p.codes|
  {
    Entered(p, p.codes[w.id].body.code[w.state.pc], w.state.frame).value.id
  }

  lemma CallParts(env: Env, p: Program, w: Thread)
    requires CallersOk(p, w) && Enters(p, w)
    ensures Located(p, w) && w.id < |p.codes| && w.state.At? && w.state.pc < |p.codes[w.id].body.code|
    ensures TickCost(env, p, w) == |BeforeAt(p.codes[w.id], w.state.pc)| + (1 + |Prologue(p.codes[EnteredId(p, w)].cfg)|)
    ensures TickSafe(env, p, w) && TickEvents(env, p, w) == EntryEvents(p.codes[EnteredId(p, w)].cfg)
  {
    hide Entered;
    hide Prologue;
    hide Before;
  }

  lemma TicksStep(env: Env, p: Program, n: nat, w: Thread)
    requires Located(p, w)
    ensures Ticks(env, p, 1 + n, w) == Ticks(env, p, n, Tick(env, p, w))
  {
  }

  // ---------------------------------------------------------------- a return

  // Instructions that mean the same whatever calls answer.
  predicate Local(i: Instr) {
    i.CallHook? || (i.Insn? && IsShuffle(i.op))
  }

  lemma AfterCallIsLocal(cfg: Config, ctx: Context, m: MethodRef)
    ensures forall k :: 0 <= k < |After(cfg, ctx, Invoke(m))| ==> Local(After(cfg, ctx, Invoke(m))[k])
  {
    hide CollectionPlanOf;
    hide MapCall;
  }

  lemma LocalAnywhere(a: Env, b: Env, i: Instr, f: Frame)
    requires Local(i)
    ensures Exec(a, i, f) == Exec(b, i, f)
  {
  }

  lemma {:induction false} LocalRunsAnywhere(a: Env, b: Env, code: seq<Instr>, f: Frame)
    requires forall k :: 0 <= k < |code| ==> Local(code[k])
    ensures RunList(a, code, f) == RunList(b, code, f)
    decreases |code|
  {
    hide Exec;
    hide Local;
    if code != [] {
      LocalAnywhere(a, b, code[0], f);
      match Exec(a, code[0], f)
      case Fall(g) => LocalRunsAnywhere(a, b, code[1..], g);
      case _ =>
    }
  }

  // What follows the call in its block.
  lemma RestOfBlock(env: Env, cfg: Config, ctx: Context, i: Instr, f: Frame, f1: Frame, g: Frame)
    requires RunList(env, Before(cfg, ctx, i), f) == Fall(f1) && !Dropped(cfg, i)
    requires RunList(env, Block(cfg, ctx, i), f) == Fall(g)
    ensures Exec(env, i, f1).Fall? && RunList(env, After(cfg, ctx, i), Exec(env, i, f1).frame) == Fall(g)
  {
    hide RunList;
    hide Exec;
    hide Before;
    hide After;
    hide Dropped;
    assert Before(cfg, ctx, i) + [i] + After(cfg, ctx, i) == Before(cfg, ctx, i) + ([i] + After(cfg, ctx, i));
    RunListAppends(env, Before(cfg, ctx, i), [i] + After(cfg, ctx, i), f);
    RunCons(env, i, After(cfg, ctx, i), f1);
  }

  // The rewritten caller at the call, with trace t.
  function AtReturn(code: Code, pc: nat, f: Frame, t: seq<Event>): State
    requires pc < |code.body.code| && code.body.code[pc].Invoke?
  {
    At(LabelPos(code.cfg, code.body.code, pc), f.(stack := OperandsAt(code.cfg, code.body.code[pc].callee, f.stack), trace := t))
  }

  // The block of a call that returns, behind the call.
  lemma BlockBehindCall(env: Env, out: Env, code: Code, pc: nat, f: Frame, t: seq<Event>)
    requires OriginalMethod(code.cfg, code.body) && pc < |code.body.code| && code.body.code[pc].Invoke?
    requires PopArgs(OperandKinds(code.body.code[pc].callee), f.stack).Some?
    requires SafeAt(env, code.cfg, code.body, At(pc, f)) && Exec(env, code.body.code[pc], f).Fall?
    ensures var ctx, i := ContextAfter(code.body.code[..pc]), code.body.code[pc];
            var e' := Exec(env, i, f.(stack := OperandsAt(code.cfg, i.callee, f.stack), trace := t));
            && !Dropped(code.cfg, i) && e'.Fall?
            && RunList(out, After(code.cfg, ctx, i), e'.frame)
               == Fall(Exec(env, i, f).frame.(trace := t + StepEvents(env, code.cfg, code.body, At(pc, f))))
  {
    var ctx, i, f0 := ContextAfter(code.body.code[..pc]), code.body.code[pc], f.(trace := t);
    var f1 := f0.(stack := OperandsAt(code.cfg, i.callee, f.stack));
    assert Original(code.cfg, i);
    OriginalKept(code.cfg, i);
    BeforeCall(env, code.cfg, ctx, i.callee, f0);
    BlockIsFaithful(env, code.cfg, ctx, i, f, t);
    var t1 := t + Events(env, code.cfg, ctx, i, f);
    assert t1 == t + StepEvents(env, code.cfg, code.body, At(pc, f));
    var g := Exec(env, i, f).frame.(trace := t1);
    assert RunList(env, Block(code.cfg, ctx, i), f0) == Fall(g);
    hide *;
    RestOfBlock(env, code.cfg, ctx, i, f0, f1, g);
    AfterCallIsLocal(code.cfg, ctx, i.callee);
    LocalRunsAnywhere(env, out, After(code.cfg, ctx, i), Exec(env, i, f1).frame);
  }

  // The rest of a block runs.
  lemma AfterRuns(out: Env, code: Code, pc: nat, g1: Frame, g: Frame, t: seq<Event>)
    requires pc < |code.body.code| && !Dropped(code.cfg, code.body.code[pc])
    requires RunList(out, After(code.cfg, ContextAfter(code.body.code[..pc]), code.body.code[pc]), g1) == Fall(g.(trace := t))
    ensures Run(out, TransformMethod(code.cfg, code.body), |After(code.cfg, ContextAfter(code.body.code[..pc]), code.body.code[pc])|,
                At(LabelPos(code.cfg, code.body.code, pc) + 1, g1))
            == Image(code.cfg, code.body, At(pc + 1, g), t)
  {
    AfterPosition(code, pc);
    hide RunList;
    hide After;
    hide Before;
    hide ContextAfter;
    hide Transform;
    hide Run;
    RunEmbedded(out, TransformMethod(code.cfg, code.body), LabelPos(code.cfg, code.body.code, pc) + 1,
                After(code.cfg, ContextAfter(code.body.code[..pc]), code.body.code[pc]), g1);
  }

  // A call that returns: the rest of its block runs.
  lemma ReturnRuns(env: Env, out: Env, code: Code, pc: nat, f: Frame, t: seq<Event>)
    requires OriginalMethod(code.cfg, code.body) && pc < |code.body.code| && code.body.code[pc].Invoke?
    requires PopArgs(OperandKinds(code.body.code[pc].callee), f.stack).Some?
    requires SafeAt(env, code.cfg, code.body, At(pc, f)) && Exec(env, code.body.code[pc], f).Fall?
    ensures var ctx, i, m' := ContextAfter(code.body.code[..pc]), code.body.code[pc], TransformMethod(code.cfg, code.body);
            var x1 := Step(env, m', AtReturn(code, pc, f, t));
            && x1.At? && Step(env, code.body, At(pc, f)).At?
            && Run(out, m', |After(code.cfg, ctx, i)|, x1)
               == Image(code.cfg, code.body, Step(env, code.body, At(pc, f)), t + StepEvents(env, code.cfg, code.body, At(pc, f)))
  {
    var i := code.body.code[pc];
    var f1 := f.(stack := OperandsAt(code.cfg, i.callee, f.stack), trace := t);
    assert AtReturn(code, pc, f, t) == At(LabelPos(code.cfg, code.body.code, pc), f1);
    hide *;
    BlockBehindCall(env, out, code, pc, f, t);
    ReachCall(env, code, pc, f);
    StepFalls(env, code.body, pc, f);
    StepFalls(env, TransformMethod(code.cfg, code.body), LabelPos(code.cfg, code.body.code, pc), f1);
    AfterRuns(out, code, pc, Exec(env, i, f1).frame, Exec(env, i, f).frame, t + StepEvents(env, code.cfg, code.body, At(pc, f)));
  }

  lemma StepFalls(env: Env, m: Method, pc: nat, f: Frame)
    requires pc < |m.code| && Exec(env, m.code[pc], f).Fall?
    ensures Step(env, m, At(pc, f)) == At(pc + 1, Exec(env, m.code[pc], f).frame)
  {
    hide Exec;
  }

  lemma AfterPosition(code: Code, pc: nat)
    requires pc < |code.body.code| && !Dropped(code.cfg, code.body.code[pc])
    ensures var after := After(code.cfg, ContextAfter(code.body.code[..pc]), code.body.code[pc]);
            var at := LabelPos(code.cfg, code.body.code, pc) + 1;
            && at + |after| == Pos(code.cfg, code.body.code, pc + 1)
            && at + |after| <= |Transform(code.cfg, code.body.code)|
            && Transform(code.cfg, code.body.code)[at..at + |after|] == after
  {
    hide Before;
    hide After;
    hide Transform;
    hide ContextAfter;
    BlockPosition(code.cfg, code.body.code, pc);
    var b := Block(code.cfg, ContextAfter(code.body.code[..pc]), code.body.code[pc]);
    var k := |BeforeAt(code, pc)| + 1;
    assert b[k..] == After(code.cfg, ContextAfter(code.body.code[..pc]), code.body.code[pc]);
  }

  // A call that throws: the exception is caught here, or passed on.
  lemma ThrowRuns(env: Env, out: Env, code: Code, pc: nat, f: Frame, t: seq<Event>)
    requires OriginalMethod(code.cfg, code.body) && pc < |code.body.code| && code.body.code[pc].Invoke?
    requires PopArgs(OperandKinds(code.body.code[pc].callee), f.stack).Some?
    requires SafeAt(env, code.cfg, code.body, At(pc, f)) && Exec(env, code.body.code[pc], f).Raise?
    requires Step(env, code.body, At(pc, f)) != Wrong
    ensures var e := Exec(env, code.body.code[pc], f);
            var l, m' := Landing(env, code.body, pc, e), TransformMethod(code.cfg, code.body);
            var x1 := Step(env, m', AtReturn(code, pc, f, t));
            && Run(out, m', (if l.Some? then |AfterLabel(code.cfg, l.value)| else 0), x1)
               == Image(code.cfg, code.body, Step(env, code.body, At(pc, f)), t + StepEvents(env, code.cfg, code.body, At(pc, f)))
            && (l.Some? <==> Step(env, code.body, At(pc, f)).At?) && (l.None? <==> Step(env, code.body, At(pc, f)).Uncaught?)
            && (l.Some? ==> x1.At?)
  {
    var m' := TransformMethod(code.cfg, code.body);
    var e := Exec(env, code.body.code[pc], f);
    var x, g := e.exc, e.frame;
    var x1 := Step(env, m', AtReturn(code, pc, f, t));
    var l := FindHandler(env, code.body.code, code.body.handlers, pc, x, g.heap);
    assert l == Landing(env, code.body, pc, e);
    ThrowLands(env, code, pc, f, t);
    ThrownAlike(env, code, pc, f, t);
    if l.Some? {
      StepThrown(env, code, pc, f, t);
      hide *;
      LandingSimulates(out, code.cfg, code.body, l.value, g.(stack := Push(x, Empty)), t);
    } else {
      StepThrown(env, code, pc, f, t);
      RunZero(out, m', x1);
      hide *;
    }
  }

  // Where the exception goes, in the original method.
  lemma StepThrown(env: Env, code: Code, pc: nat, f: Frame, t: seq<Event>)
    requires pc < |code.body.code| && Exec(env, code.body.code[pc], f).Raise? && Step(env, code.body, At(pc, f)) != Wrong
    requires SafeAt(env, code.cfg, code.body, At(pc, f))
    requires Events(env, code.cfg, ContextAfter(code.body.code[..pc]), code.body.code[pc], f) == []
    ensures var e := Exec(env, code.body.code[pc], f);
            match FindHandler(env, code.body.code, code.body.handlers, pc, e.exc, e.frame.heap)
            case Some(l) =>
              && FindLabel(code.body.code, l).Some?
              && Step(env, code.body, At(pc, f)) == Land(code.body.code, l, e.frame.(stack := Push(e.exc, Empty)))
              && Step(env, code.body, At(pc, f)).At?
              && t + StepEvents(env, code.cfg, code.body, At(pc, f)) == t + LandEvents(code.cfg, l)
            case None =>
              && Step(env, code.body, At(pc, f)).Uncaught?
              && t + StepEvents(env, code.cfg, code.body, At(pc, f)) == t
              && Image(code.cfg, code.body, Step(env, code.body, At(pc, f)), t) == Uncaught(e.exc, e.frame.heap, t)
  {
    hide Exec;
    hide Events;
    hide FindHandler;
    hide FindLabel;
    hide LandEvents;
    hide SafeAt;
    var e := Exec(env, code.body.code[pc], f);
    match FindHandler(env, code.body.code, code.body.handlers, pc, e.exc, e.frame.heap)
    case Some(l) => assert [] + LandEvents(code.cfg, l) == LandEvents(code.cfg, l);
    case None => assert t + ([] + []) == t;
  }

  // And in the rewritten one.
  lemma ThrowLands(env: Env, code: Code, pc: nat, f: Frame, t: seq<Event>)
    requires OriginalMethod(code.cfg, code.body) && pc < |code.body.code| && code.body.code[pc].Invoke?
    requires PopArgs(OperandKinds(code.body.code[pc].callee), f.stack).Some?
    requires SafeAt(env, code.cfg, code.body, At(pc, f)) && Exec(env, code.body.code[pc], f).Raise?
    ensures var e, m' := Exec(env, code.body.code[pc], f), TransformMethod(code.cfg, code.body);
            var x1 := Step(env, m', AtReturn(code, pc, f, t));
            match FindHandler(env, code.body.code, code.body.handlers, pc, e.exc, e.frame.heap)
            case Some(l) =>
              && x1 == Land(Transform(code.cfg, code.body.code), l, e.frame.(stack := Push(e.exc, Empty), trace := t))
              && (FindLabel(code.body.code, l).Some? ==> x1.At?)
            case None => x1 == Uncaught(e.exc, e.frame.heap, t)
  {
    var e := Exec(env, code.body.code[pc], f);
    ReachCall(env, code, pc, f);
    ThrownAlike(env, code, pc, f, t);
    HandlersStay(env, code.cfg, code.body, code.body.handlers, pc, e.exc, e.frame.heap);
    match FindHandler(env, code.body.code, code.body.handlers, pc, e.exc, e.frame.heap)
    case Some(l) => LabelsStay(code.cfg, code.body.code, l);
    case None =>
    hide Exec;
    hide OperandsAt;
    hide OperandKinds;
    hide PopArgs;
    hide Transform;
    hide FindLabel;
    hide FindHandler;
    hide Run;
    hide Events;
  }

  lemma RunZero(env: Env, m: Method, s: State)
    ensures Run(env, m, 0, s) == s
  {
  }

  lemma ThrownAlike(env: Env, code: Code, pc: nat, f: Frame, t: seq<Event>)
    requires OriginalMethod(code.cfg, code.body) && pc < |code.body.code| && code.body.code[pc].Invoke?
    requires PopArgs(OperandKinds(code.body.code[pc].callee), f.stack).Some?
    requires SafeAt(env, code.cfg, code.body, At(pc, f)) && Exec(env, code.body.code[pc], f).Raise?
    ensures var e := Exec(env, code.body.code[pc], f);
            SameOutcome(e, Exec(env, code.body.code[pc], f.(stack := OperandsAt(code.cfg, code.body.code[pc].callee, f.stack), trace := t)), t)
    ensures Events(env, code.cfg, ContextAfter(code.body.code[..pc]), code.body.code[pc], f) == []
  {
    var ctx, i := ContextAfter(code.body.code[..pc]), code.body.code[pc];
    assert Original(code.cfg, i);
    BeforeCall(env, code.cfg, ctx, i.callee, f.(trace := t));
    BlockIsFaithful(env, code.cfg, ctx, i, f, t);
    assert t + [] == t;
    hide Exec;
    hide RunList;
    hide Before;
    hide After;
    hide OperandsAt;
  }

  lemma CallOutcomes(env: Env, m: MethodRef, f: Frame)
    ensures Exec(env, Invoke(m), f).Fall? || Exec(env, Invoke(m), f).Raise? || Exec(env, Invoke(m), f).Stuck?
  {
  }

  lemma ReturnCost(env: Env, code: Code, pc: nat, f: Frame)
    requires pc < |code.body.code| && !Dropped(code.cfg, code.body.code[pc])
    ensures var e, i, ctx := Exec(env, code.body.code[pc], f), code.body.code[pc], ContextAfter(code.body.code[..pc]);
            Cost(env, code.cfg, code.body, At(pc, f)) == |BeforeAt(code, pc)| + 1
              + (if e.Fall? then |After(code.cfg, ctx, i)|
                 else match Landing(env, code.body, pc, e) case Some(l) => |AfterLabel(code.cfg, l)| case None => 0)
  {
    hide Exec;
    hide Before;
    hide After;
    hide AfterLabel;
    hide Landing;
  }

  // What the rewritten caller does behind the call, whatever was answered.
  lemma ResumeRuns(env: Env, out: Env, code: Code, pc: nat, f: Frame, t: seq<Event>)
    requires OriginalMethod(code.cfg, code.body) && pc < |code.body.code| && code.body.code[pc].Invoke?
    requires PopArgs(OperandKinds(code.body.code[pc].callee), f.stack).Some?
    requires SafeAt(env, code.cfg, code.body, At(pc, f)) && Step(env, code.body, At(pc, f)) != Wrong
    ensures var m', k := TransformMethod(code.cfg, code.body), Cost(env, code.cfg, code.body, At(pc, f)) - |BeforeAt(code, pc)| - 1;
            var x1 := Step(env, m', AtReturn(code, pc, f, t));
            && k >= 0 && (k > 0 ==> x1.At? && Run(out, m', k - 1, x1).At?)
            && Run(out, m', k, x1)
               == Image(code.cfg, code.body, Step(env, code.body, At(pc, f)), t + StepEvents(env, code.cfg, code.body, At(pc, f)))
            && Run(out, m', k, x1) != Wrong
  {
    hide *;
    ResumeKinds(env, code, pc, f, t);
    ReturnCost(env, code, pc, f);
    if Exec(env, code.body.code[pc], f).Fall? {
      ReturnRuns(env, out, code, pc, f, t);
    } else {
      ThrowRuns(env, out, code, pc, f, t);
    }
    var x1 := Step(env, TransformMethod(code.cfg, code.body), AtReturn(code, pc, f, t));
    var k := Cost(env, code.cfg, code.body, At(pc, f)) - |BeforeAt(code, pc)| - 1;
    if k > 0 { OneMore(out, TransformMethod(code.cfg, code.body), k - 1, x1); }
  }

  lemma ResumeKinds(env: Env, code: Code, pc: nat, f: Frame, t: seq<Event>)
    requires OriginalMethod(code.cfg, code.body) && pc < |code.body.code| && code.body.code[pc].Invoke?
    requires SafeAt(env, code.cfg, code.body, At(pc, f)) && Step(env, code.body, At(pc, f)) != Wrong
    ensures !Dropped(code.cfg, code.body.code[pc])
    ensures Exec(env, code.body.code[pc], f).Fall? || Exec(env, code.body.code[pc], f).Raise?
    ensures var next, t1 := Step(env, code.body, At(pc, f)), t + StepEvents(env, code.cfg, code.body, At(pc, f));
            Image(code.cfg, code.body, next, t1) != Wrong && (Image(code.cfg, code.body, next, t1).At? <==> next.At?)
  {
    var next := Step(env, code.body, At(pc, f));
    assert Original(code.cfg, code.body.code[pc]);
    OriginalKept(code.cfg, code.body.code[pc]);
    CallOutcomes(env, code.body.code[pc].callee, f);
    StepStaysInside(env, code.body, At(pc, f));
    assert Exec(env, code.body.code[pc], f) != Stuck;
    ImageKind(code.cfg, code.body, next, t + StepEvents(env, code.cfg, code.body, At(pc, f)));
    hide *;
  }

  // The parts of a return to the last caller.
  lemma ResumeParts(env: Env, p: Program, w: Thread)
    requires OriginalProgram(p) && CallersOk(p, w) && Resumes(w) && TickSafe(env, p, w)
    ensures Located(p, w) && w.callers != [] && (w.state.Finished? || w.state.Uncaught?)
    ensures CallersOk(p, Tick(env, p, w))
    ensures Tick(env, p, w).id < |p.codes|
    ensures var n := |w.callers| - 1;
            var c, answer := w.callers[n], Answering(env, AnswerOf(w.state));
            && c.id < |p.codes| && c.pc < |p.codes[c.id].body.code|
            && var code, f := p.codes[c.id], c.frame.(trace := w.state.trace);
            && OriginalMethod(code.cfg, code.body) && code.body.code[c.pc].Invoke?
            && PopArgs(OperandKinds(code.body.code[c.pc].callee), f.stack).Some?
            && SafeAt(answer, code.cfg, code.body, At(c.pc, f))
            && Tick(env, p, w).state == Step(answer, code.body, At(c.pc, f)) && Tick(env, p, w).id == c.id
            && Tick(env, p, w).callers == w.callers[..n]
            && TickCost(env, p, w) == Cost(answer, code.cfg, code.body, At(c.pc, f)) - |BeforeAt(code, c.pc)|
            && TickEvents(env, p, w) == StepEvents(answer, code.cfg, code.body, At(c.pc, f))
  {
    TickKeepsCallers(env, p, w);
    var c := w.callers[|w.callers| - 1];
    assert CallerOk(p, c);
    hide Outside;
    hide Step;
    hide PopArgs;
    hide OperandKinds;
    hide Cost;
    hide StepEvents;
    hide SafeAt;
    hide Before;
  }

  // The rewritten thread returns to the same caller.
  lemma ResumesAlike(env: Env, p: Program, w: Thread, t: seq<Event>)
    requires CallersOk(p, w) && w.callers != [] && (w.state.Finished? || w.state.Uncaught?)
    ensures var n := |w.callers| - 1;
            var c, answer, w', p' := w.callers[n], Answering(env, AnswerOf(w.state)), ThreadImage(p, w, t), Rewritten(p);
            && c.id < |p.codes| && c.pc < |p.codes[c.id].body.code| && p.codes[c.id].body.code[c.pc].Invoke?
            && Located(p', w') && p'.codes[c.id].body == TransformMethod(p.codes[c.id].cfg, p.codes[c.id].body)
            && Tick(env, p', w') == Thread(w'.callers[..n], c.id,
                 Step(answer, p'.codes[c.id].body, AtReturn(p.codes[c.id], c.pc, c.frame.(trace := w.state.trace), t)))
  {
    hide *;
    LastCaller(p, w, t);
    ResumesTo(env, Rewritten(p), ThreadImage(p, w, t));
  }

  lemma ResumesTo(env: Env, p: Program, w: Thread)
    requires Located(p, w) && w.callers != [] && (w.state.Finished? || w.state.Uncaught?)
    ensures var n := |w.callers| - 1;
            w.callers[n].id < |p.codes|
            && Tick(env, p, w) == Thread(w.callers[..n], w.callers[n].id,
                 Step(Answering(env, AnswerOf(w.state)), p.codes[w.callers[n].id].body,
                      At(w.callers[n].pc, w.callers[n].frame.(trace := w.state.trace))))
  {
    hide Step;
  }

  lemma LastCaller(p: Program, w: Thread, t: seq<Event>)
    requires Located(p, w) && CallersOk(p, w) && w.callers != [] && (w.state.Finished? || w.state.Uncaught?)
    ensures var n := |w.callers| - 1;
            var c, w', p' := w.callers[n], ThreadImage(p, w, t), Rewritten(p);
            && c.id < |p.codes| && c.pc < |p.codes[c.id].body.code| && p.codes[c.id].body.code[c.pc].Invoke?
            && Located(p', w') && p'.codes[c.id].body == TransformMethod(p.codes[c.id].cfg, p.codes[c.id].body)
            && |w'.callers| == |w.callers| && w'.callers[n].id == c.id
            && (w'.state.Finished? || w'.state.Uncaught?) && AnswerOf(w'.state) == AnswerOf(w.state) && w'.state.trace == t
            && At(w'.callers[n].pc, w'.callers[n].frame.(trace := t)) == AtReturn(p.codes[c.id], c.pc, c.frame.(trace := w.state.trace), t)
  {
    var c := w.callers[|w.callers| - 1];
    assert CallerOk(p, c);
    hide Entered;
    hide OperandsAt;
    hide Transform;
    hide LabelPos;
    CallerAtReturn(p, c, w.state.trace, t);
    LastImage(p, w, t);
    hide CallerImages;
    hide CallerImage;
    hide CallerOk;
  }

  lemma LastImage(p: Program, w: Thread, t: seq<Event>)
    requires CallersOk(p, w) && w.callers != []
    ensures CallerOk(p, w.callers[|w.callers| - 1])
    ensures ThreadImage(p, w, t).callers[|w.callers| - 1] == CallerImage(p, w.callers[|w.callers| - 1])
  {
    hide CallerOk;
    hide CallerImage;
    hide Image;
  }

  lemma CallerAtReturn(p: Program, c: Caller, t0: seq<Event>, t: seq<Event>)
    requires CallerOk(p, c)
    ensures p.codes[c.id].body.code[c.pc].Invoke?
    ensures At(CallerImage(p, c).pc, CallerImage(p, c).frame.(trace := t)) == AtReturn(p.codes[c.id], c.pc, c.frame.(trace := t0), t)
  {
    hide PopArgs;
    hide OperandKinds;
    hide OperandsAt;
    hide LabelPos;
  }

  lemma ImagesOfPrefix(p: Program, w: Thread, next: Thread, t: seq<Event>)
    requires CallersOk(p, w) && CallersOk(p, next) && w.callers != [] && next.callers == w.callers[..|w.callers| - 1]
    ensures ThreadImage(p, next, []).callers == ThreadImage(p, w, t).callers[..|w.callers| - 1]
  {
    hide CallerImage;
    hide CallerOk;
    hide Image;
  }

  lemma ResumeTick(env: Env, p: Program, w: Thread, t: seq<Event>)
    requires OriginalProgram(p) && CallersOk(p, w) && Resumes(w)
    requires TickSafe(env, p, w) && Tick(env, p, w).state != Wrong
    ensures CallersOk(p, Tick(env, p, w)) && TickCost(env, p, w) >= 0
    ensures Ticks(env, Rewritten(p), TickCost(env, p, w), ThreadImage(p, w, t))
            == ThreadImage(p, Tick(env, p, w), t + TickEvents(env, p, w))
  {
    hide *;
    ResumeParts(env, p, w);
    ResumesAlike(env, p, w, t);
    ImagesOfPrefix(p, w, Tick(env, p, w), t);
    var c, answer := w.callers[|w.callers| - 1], Answering(env, AnswerOf(w.state));
    var p', w' := Rewritten(p), ThreadImage(p, w, t);
    var code, f := p.codes[c.id], c.frame.(trace := w.state.trace);
    var x, next := Tick(env, p', w'), Tick(env, p, w);
    ResumeRuns(answer, Outside(env, p), code, c.pc, f, t);
    var k := TickCost(env, p, w) - 1;
    TicksStep(env, p', k, w');
    GoesOn(env, p, k, x);
    ResumedImage(p, next, x, t + TickEvents(env, p, w));
  }

  lemma GoesOn(env: Env, p: Program, k: nat, x: Thread)
    requires Located(Rewritten(p), x) && x.id < |p.codes|
    requires var out, m := Outside(env, p), Rewritten(p).codes[x.id].body;
             Run(out, m, k, x.state) != Wrong && (k > 0 ==> x.state.At? && Run(out, m, k - 1, x.state).At?)
    ensures Ticks(env, Rewritten(p), k, x) == x.(state := Run(Outside(env, p), Rewritten(p).codes[x.id].body, k, x.state))
  {
    assert Outside(env, Rewritten(p)) == Outside(env, p);
    hide *;
    if k > 0 {
      ResumesNot(x);
      RunsWithin(env, Rewritten(p), k, x);
    } else {
      NoTicks(env, Rewritten(p), x);
      RunZero(Outside(env, p), Rewritten(p).codes[x.id].body, x.state);
    }
  }

  lemma NoTicks(env: Env, p: Program, w: Thread)
    requires Located(p, w)
    ensures Ticks(env, p, 0, w) == w
  {
  }

  lemma ResumedImage(p: Program, next: Thread, x: Thread, t: seq<Event>)
    requires CallersOk(p, next) && x.id == next.id && x.callers == ThreadImage(p, next, []).callers
    ensures x.(state := Image(p.codes[next.id].cfg, p.codes[next.id].body, next.state, t)) == ThreadImage(p, next, t)
  {
    hide Image;
  }

  // ---------------------------------------------------------------- runs

  lemma TickSimulates(env: Env, p: Program, w: Thread, t: seq<Event>)
    requires OriginalProgram(p) && CallersOk(p, w) && TickSafe(env, p, w) && Tick(env, p, w).state != Wrong
    ensures CallersOk(p, Tick(env, p, w)) && TickCost(env, p, w) >= 0
    ensures Ticks(env, Rewritten(p), TickCost(env, p, w), ThreadImage(p, w, t))
            == ThreadImage(p, Tick(env, p, w), t + TickEvents(env, p, w))
  {
    hide *;
    if Enters(p, w) {
      CallTick(env, p, w, t);
    } else if Resumes(w) {
      ResumeTick(env, p, w, t);
    } else {
      PlainTick(env, p, w, t);
    }
  }

  // Every step of the first n is safe to observe.
  ghost predicate SafeThread(env: Env, p: Program, n: nat, w: Thread)
    requires Located(p, w)
  {
    n == 0 || (TickSafe(env, p, w) && SafeThread(env, p, n - 1, Tick(env, p, w)))
  }

  // What n steps of the original thread give rise to: the events of all its activations, as
  // they call and return.
  ghost function ThreadEvents(env: Env, p: Program, n: nat, w: Thread): seq<Event>
    requires Located(p, w)
  {
    if n == 0 then [] else TickEvents(env, p, w) + ThreadEvents(env, p, n - 1, Tick(env, p, w))
  }

  function Steps(k: int): nat {
    if k < 0 then 0 else k
  }

  function ThreadCosts(env: Env, p: Program, n: nat, w: Thread): nat
    requires CallersOk(p, w)
  {
    if n == 0 then 0
    else
      TickKeepsCallers(env, p, w);
      Steps(TickCost(env, p, w)) + ThreadCosts(env, p, n - 1, Tick(env, p, w))
  }

  lemma {:induction false} WrongForever(env: Env, p: Program, n: nat, w: Thread)
    requires Located(p, w) && w.state == Wrong
    ensures Ticks(env, p, n, w).state == Wrong
  {
    if n > 0 {
      WrongForever(env, p, n - 1, Tick(env, p, w));
    }
  }

  lemma {:induction false} CallersStayOk(env: Env, p: Program, n: nat, w: Thread)
    requires CallersOk(p, w)
    ensures CallersOk(p, Ticks(env, p, n, w))
  {
    hide Tick;
    hide CallersOk;
    if n > 0 {
      TickKeepsCallers(env, p, w);
      CallersStayOk(env, p, n - 1, Tick(env, p, w));
    }
  }

  /** Whole programs: a thread of the rewritten program makes every call, return and throw of
      the original thread, of any length and any depth of calls, with the same stacks, locals
      and heap in every activation; the traces of the activations interleave as they run. */
  lemma {:induction false} ThreadSimulates(env: Env, p: Program, n: nat, w: Thread, t: seq<Event>)
    requires OriginalProgram(p) && CallersOk(p, w) && SafeThread(env, p, n, w) && Ticks(env, p, n, w).state != Wrong
    ensures CallersOk(p, Ticks(env, p, n, w))
    ensures Ticks(env, Rewritten(p), ThreadCosts(env, p, n, w), ThreadImage(p, w, t))
            == ThreadImage(p, Ticks(env, p, n, w), t + ThreadEvents(env, p, n, w))
    decreases n
  {
    hide *;
    CallersStayOk(env, p, n, w);
    if n == 0 {
      NoSteps(env, p, w, t);
    } else {
      var next := Tick(env, p, w);
      FirstStep(env, p, n, w, next);
      FirstEvents(env, p, n, w, next, t);
      TickSimulates(env, p, w, t);
      ThreadSimulates(env, p, n - 1, next, t + TickEvents(env, p, w));
      TicksAdd(env, Rewritten(p), TickCost(env, p, w), ThreadCosts(env, p, n - 1, next), ThreadImage(p, w, t));
    }
  }

  lemma NoSteps(env: Env, p: Program, w: Thread, t: seq<Event>)
    requires CallersOk(p, w)
    ensures Ticks(env, p, 0, w) == w && ThreadCosts(env, p, 0, w) == 0 && t + ThreadEvents(env, p, 0, w) == t
    ensures Ticks(env, Rewritten(p), 0, ThreadImage(p, w, t)) == ThreadImage(p, w, t)
  {
    hide ThreadImage;
    hide Rewritten;
    hide CallersOk;
    assert t + [] == t;
  }

  lemma FirstStep(env: Env, p: Program, n: nat, w: Thread, next: Thread)
    requires n > 0 && CallersOk(p, w) && SafeThread(env, p, n, w) && Located(p, next) && next == Tick(env, p, w)
    requires Ticks(env, p, n, w).state != Wrong
    ensures CallersOk(p, next)
    ensures TickSafe(env, p, w) && SafeThread(env, p, n - 1, next)
    ensures Ticks(env, p, n, w) == Ticks(env, p, n - 1, next) && next.state != Wrong
    ensures ThreadCosts(env, p, n, w) == Steps(TickCost(env, p, w)) + ThreadCosts(env, p, n - 1, next)
    ensures TickCost(env, p, w) >= 0 ==> Steps(TickCost(env, p, w)) == TickCost(env, p, w)
  {
    hide Tick;
    hide TickCost;
    hide TickEvents;
    hide TickSafe;
    TickKeepsCallers(env, p, w);
    hide CallersOk;
    if next.state == Wrong { WrongForever(env, p, n - 1, next); }
  }

  lemma FirstEvents(env: Env, p: Program, n: nat, w: Thread, next: Thread, t: seq<Event>)
    requires n > 0 && Located(p, w) && Located(p, next) && next == Tick(env, p, w)
    ensures t + ThreadEvents(env, p, n, w) == t + TickEvents(env, p, w) + ThreadEvents(env, p, n - 1, next)
  {
    hide Tick;
    hide TickEvents;
  }

  /** And from its very beginning: the outermost method is entered through its own prologue. */
  lemma ThreadStarts(env: Env, p: Program, id: nat, f: Frame)
    requires id < |p.codes| && f.trace == []
    ensures CallersOk(p, Thread([], id, At(0, f)))
    ensures Ticks(env, Rewritten(p), |Prologue(p.codes[id].cfg)|, Thread([], id, At(0, f)))
            == ThreadImage(p, Thread([], id, At(0, f)), EntryEvents(p.codes[id].cfg))
  {
    var out, code, k := Outside(env, p), p.codes[id], |Prologue(p.codes[id].cfg)|;
    var m', w' := TransformMethod(code.cfg, code.body), Thread([], id, At(0, f));
    assert Rewritten(p).codes[id].body == m' && Outside(env, Rewritten(p)) == out;
    Equivalence.EntrySimulates(out, code.cfg, code.body, f);
    assert f.trace + EntryEvents(code.cfg) == EntryEvents(code.cfg);
    ImageKind(code.cfg, code.body, At(0, f), EntryEvents(code.cfg));
    var image := Image(code.cfg, code.body, At(0, f), EntryEvents(code.cfg));
    assert ThreadImage(p, w', EntryEvents(code.cfg)) == Thread([], id, image);
    assert Run(out, m', k, At(0, f)) == image;
    assert !Resumes(w') && Located(Rewritten(p), w');
    hide *;
    if k > 0 { OneMore(out, m', k - 1, At(0, f)); }
    RunsWithin(env, Rewritten(p), k, w');
  }
}
