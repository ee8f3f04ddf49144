/**
 One rewritten instruction does what the original instruction does, and adds to the
 trace exactly the events that the original execution gives rise to.
 */
module BlockProofs {
  import opened Wrappers
  import opened Jvm
  import opened Instrumentation

  // ---------------------------------------------------------------- what has to be reported

  predicate Readable(slots: map<nat, Kind>, locals: Locals) {
    forall n :: n in slots ==> n in locals && KindOf(locals[n]) == slots[n]
  }

  // One event for each slot, with the value the slot holds.
  function SlotEvents(slots: map<nat, Kind>, locals: Locals): seq<Event>
    requires Readable(slots, locals)
  {
    if slots == map[] then []
    else
      var n := MinKey(slots.Keys);
      [VariableModified(n, locals[n])] + SlotEvents(slots - {n}, locals)
  }

  // The calls whose rewriting is sound: the copied value is a reference, the result is not
  // a two-slot value, and the owner's name does not read as a two-slot type.
  predicate AdmittedPlan(plan: CallPlan, m: MethodRef) {
    match plan
    case Untouched => true
    case Lost => false
    case CopySecond(w) =>
      !w && (m.ret.Some? ==> !Wide(m.ret.value)) && (m.isStatic ==> |m.args| == 2 && m.args[0].RefKind?)
    case CopyTop => (m.ret.Some? ==> !Wide(m.ret.value)) && |m.args| == 1 && m.args[0].RefKind?
    case CopyThird => m.ret.Some? ==> !Wide(m.ret.value)
    case CopyResult => m.ret.Some? ==> m.isStatic && m.ret.value.RefKind?
  }

  predicate AdmittedCall(cfg: Config, m: MethodRef) {
    && AdmittedPlan(CollectionPlanOf(cfg, m), m)
    && (MapCall(cfg, m) ==> CollectionPlanOf(cfg, m).Untouched? && (m.ret.Some? ==> !Wide(m.ret.value)))
  }

  // Instructions that may occur in a method body before rewriting.
  predicate Original(cfg: Config, i: Instr) {
    !i.CallHook? && (i.Invoke? ==> AdmittedCall(cfg, i.callee))
  }

  // What must hold where the instruction is executed: the slots to be captured hold values
  // of the kinds they are loaded with, and an observed constructor call leaves a reference.
  predicate Safe(env: Env, cfg: Config, ctx: Context, i: Instr, f: Frame) {
    && Readable(Captured(cfg, ctx, i), f.locals)
    && (i.Invoke? && CollectionPlanOf(cfg, i.callee).CopyResult? && Exec(env, i, f).Fall?
        ==> Exec(env, i, f).frame.stack.Push? && KindOf(Exec(env, i, f).frame.stack.top).RefKind?)
  }

  // The value under k others.
  function Under(s: Stack, k: nat): Value {
    match s
    case Empty => Null
    case Push(a, r) => if k == 0 then a else Under(r, k - 1)
  }

  function CallEvents(cfg: Config, m: MethodRef, before: Stack, after: Stack): seq<Event> {
    var plan := CollectionPlanOf(cfg, m);
    (match plan
     case CopyTop => [CollectionModified(Under(before, 0))]
     case CopySecond(_) => [CollectionModified(Under(before, 1))]
     case CopyThird => [CollectionModified(Under(before, 2))]
     case CopyResult => [CollectionModified(Under(after, 0))]
     case _ => [])
    + (if MapCall(cfg, m) then [MapModified(Under(before, 2))] else [])
  }

  function FieldContent(heap: Heap, obj: Value, field: FieldRef): Value {
    if obj.Ref? && obj.id in heap && heap[obj.id].Object? && field in heap[obj.id].fields
    then heap[obj.id].fields[field] else Null
  }

  function LandEvents(cfg: Config, l: Label): seq<Event> {
    if cfg.depth == Some(Some(l)) then [DepthFetched] else []
  }

  // The events of one instruction, in terms of the original execution only.
  function Events(env: Env, cfg: Config, ctx: Context, i: Instr, f: Frame): seq<Event>
    requires Readable(Captured(cfg, ctx, i), f.locals)
  {
    var e := Exec(env, i, f);
    match i
    case Insn(op) =>
      if IsArrayStore(op) && cfg.arrays then
        if e.Fall? then [ArrayModified(Under(f.stack, 2))] else []
      else if IsExit(op) then
        (if cfg.flow.Some? then [LeftoversDumped] else []) + (if cfg.depth.Some? then [DepthDecreased] else [])
      else []
    case PutField(field) =>
      if TrackedField(cfg, field) && e.Fall?
      then [FieldModified(Under(f.stack, 1), field.name, FieldContent(e.frame.heap, Under(f.stack, 1), field))]
      else []
    case Invoke(m) => if e.Fall? then CallEvents(cfg, m, f.stack, e.frame.stack) else []
    case LabelMark(l) => SlotEvents(Captured(cfg, ctx, i), f.locals) + LandEvents(cfg, l)
    case Jump(_, _) => SlotEvents(Captured(cfg, ctx, i), f.locals)
    case LineMark(line, start) =>
      (if cfg.flow.Some?
       then [LineExecuted(ToShort(cfg.flow.value.classIndex), ToShort(cfg.flow.value.methodIndex), ToShort(line),
                          ToShort(LabelNumber(ctx, start)))]
       else [])
      + SlotEvents(Captured(cfg, ctx, i), f.locals)
    case _ => []
  }

  // ---------------------------------------------------------------- straight-line pieces

  lemma {:induction false} RunCons(env: Env, i: Instr, rest: seq<Instr>, f: Frame)
    ensures RunList(env, [i] + rest, f) ==
            match Exec(env, i, f) case Fall(g) => RunList(env, rest, g) case e => e
  {
    assert ([i] + rest)[1..] == rest;
  }

  lemma RunNone(env: Env, f: Frame)
    ensures RunList(env, [], f) == Fall(f)
    ensures CaptureCode(map[]) == []
  {
  }

  lemma {:induction false} RunOne(env: Env, i: Instr, f: Frame)
    ensures RunList(env, [i], f) == Exec(env, i, f)
  {
    assert [i][1..] == [];
  }

  function Insns(ops: seq<Opcode>): seq<Instr> {
    seq(|ops|, k requires 0 <= k < |ops| => Insn(ops[k]))
  }

  // A series of stack instructions, given the stacks between them.
  lemma {:induction false} RunShuffles(env: Env, ops: seq<Opcode>, stacks: seq<Stack>, f: Frame)
    requires |stacks| == |ops| + 1 && stacks[0] == f.stack
    requires forall k :: 0 <= k < |ops| ==> IsShuffle(ops[k]) && Shuffle(ops[k], stacks[k]) == Some(stacks[k + 1])
    ensures RunList(env, Insns(ops), f) == Fall(f.(stack := stacks[|ops|]))
    decreases |ops|
  {
    if ops != [] {
      assert Insns(ops)[1..] == Insns(ops[1..]);
      RunShuffles(env, ops[1..], stacks[1..], f.(stack := stacks[1]));
    }
  }

  // o, v  becomes  o, o, v  for a value v of either size.
  lemma DuplicateSecondCopies(env: Env, f: Frame)
    requires f.stack.Push? && f.stack.rest.Push? && One(f.stack.rest.top)
    ensures RunList(env, DuplicateSecond(Two(f.stack.top)), f) ==
            Fall(f.(stack := Push(f.stack.top, Push(f.stack.rest.top, f.stack.rest))))
  {
    var v, o, r := f.stack.top, f.stack.rest.top, f.stack.rest.rest;
    var ops := if Two(v) then [Dup2X1, Pop2, DupX2, DupX2, Pop] else [DupX1, Pop, DupX1, DupX1, Pop];
    assert DuplicateSecond(Two(v)) == Insns(ops);
    RunShuffles(env, ops,
                [f.stack, Push(v, Push(o, Push(v, r))), Push(o, Push(v, r)), Push(o, Push(v, Push(o, r))),
                 Push(o, Push(v, Push(o, Push(o, r)))), Push(v, Push(o, Push(o, r)))], f);
  }

  // o, b, a  becomes  o, o, b, a  for one-slot values.
  lemma DuplicateThirdCopies(env: Env, f: Frame)
    requires f.stack.Push? && f.stack.rest.Push? && f.stack.rest.rest.Push?
    requires One(f.stack.top) && One(f.stack.rest.top) && One(f.stack.rest.rest.top)
    ensures RunList(env, DuplicateThird(), f) ==
            Fall(f.(stack := Push(f.stack.top, Push(f.stack.rest.top, Push(f.stack.rest.rest.top, f.stack.rest.rest)))))
  {
    var a, b, o, r := f.stack.top, f.stack.rest.top, f.stack.rest.rest.top, f.stack.rest.rest.rest;
    var ops := [DupX2, Pop, Swap, Dup, Dup2X2, Pop, Pop, Swap];
    assert DuplicateThird() == Insns(ops);
    var q := Push(b, Push(a, Push(o, Push(o, r))));
    RunShuffles(env, ops,
                [f.stack, Push(a, Push(b, Push(o, Push(a, r)))), Push(b, Push(o, Push(a, r))), Push(o, Push(b, Push(a, r))),
                 Push(o, Push(o, Push(b, Push(a, r)))), Push(o, Push(o, q)), Push(o, q), q,
                 Push(a, Push(b, Push(o, Push(o, r))))], f);
  }

  // arr, at, v  becomes  arr, at, arr, at, v  for a two-slot value v.
  lemma DuplicateWideArrayCopies(env: Env, f: Frame)
    requires f.stack.Push? && f.stack.rest.Push? && f.stack.rest.rest.Push?
    requires Two(f.stack.top) && One(f.stack.rest.top) && One(f.stack.rest.rest.top)
    ensures RunList(env, DuplicateWideArray(), f) ==
            Fall(f.(stack := Push(f.stack.top, Push(f.stack.rest.top, Push(f.stack.rest.rest.top, f.stack.rest)))))
  {
    var v, at, arr, r := f.stack.top, f.stack.rest.top, f.stack.rest.rest.top, f.stack.rest.rest.rest;
    var ops := [Dup2X2, Pop2, Dup2X2, Dup2X2, Pop, Pop];
    assert DuplicateWideArray() == Insns(ops);
    var q := Push(v, Push(at, Push(arr, Push(at, Push(arr, r)))));
    RunShuffles(env, ops,
                [f.stack, Push(v, Push(at, Push(arr, Push(v, r)))), Push(at, Push(arr, Push(v, r))),
                 Push(at, Push(arr, Push(v, Push(at, Push(arr, r))))), Push(at, Push(arr, q)), Push(arr, q), q], f);
  }

  // The first slot: either it is reported, or its load does not get through.
  lemma {:induction false} CaptureFirst(env: Env, slots: map<nat, Kind>, f: Frame)
    requires slots != map[]
    ensures var n := MinKey(slots.Keys);
            RunList(env, CaptureCode(slots), f) ==
            if n in f.locals && KindOf(f.locals[n]) == slots[n]
            then RunList(env, CaptureCode(slots - {n}), f.(trace := f.trace + [VariableModified(n, f.locals[n])]))
            else Stuck
  {
    var n := MinKey(slots.Keys);
    var k := slots[n];
    var rest := CaptureCode(slots - {n});
    assert CaptureCode(slots) == [Load(k, n)] + ([LdcInt(n)] + ([CallHook(VariableHook(k))] + rest));
    RunCons(env, Load(k, n), [LdcInt(n)] + ([CallHook(VariableHook(k))] + rest), f);
    if n in f.locals && KindOf(f.locals[n]) == k {
      var v := f.locals[n];
      RunCons(env, LdcInt(n), [CallHook(VariableHook(k))] + rest, f.(stack := Push(v, f.stack)));
      RunCons(env, CallHook(VariableHook(k)), rest, f.(stack := Push(Int(n), Push(v, f.stack))));
    }
  }

  lemma {:induction false} CaptureCodeReports(env: Env, slots: map<nat, Kind>, f: Frame)
    requires Readable(slots, f.locals)
    ensures RunList(env, CaptureCode(slots), f) == Fall(f.(trace := f.trace + SlotEvents(slots, f.locals)))
    decreases |slots|
  {
    hide CaptureCode;
    hide RunList;
    if slots == map[] {
      RunNone(env, f);
      assert f.trace + [] == f.trace;
    } else {
      var n := MinKey(slots.Keys);
      var e := VariableModified(n, f.locals[n]);
      CaptureFirst(env, slots, f);
      CaptureCodeReports(env, slots - {n}, f.(trace := f.trace + [e]));
      assert f.trace + [e] + SlotEvents(slots - {n}, f.locals) == f.trace + ([e] + SlotEvents(slots - {n}, f.locals));
    }
  }

  // Code that reads an unusable slot, or a slot of another kind, does not get through.
  lemma {:induction false} CaptureCodeSticks(env: Env, slots: map<nat, Kind>, f: Frame)
    requires !Readable(slots, f.locals)
    ensures RunList(env, CaptureCode(slots), f) == Stuck
    decreases |slots|
  {
    hide CaptureCode;
    hide RunList;
    var n := MinKey(slots.Keys);
    CaptureFirst(env, slots, f);
    if n in f.locals && KindOf(f.locals[n]) == slots[n] {
      CaptureCodeSticks(env, slots - {n}, f.(trace := f.trace + [VariableModified(n, f.locals[n])]));
    }
  }

  lemma LineCodeReports(env: Env, flow: FlowTable, line: int, number: nat, f: Frame)
    ensures RunList(env, LineCode(flow, line, number), f) ==
            Fall(f.(trace := f.trace + [LineExecuted(ToShort(flow.classIndex), ToShort(flow.methodIndex), ToShort(line),
                                                     ToShort(number))]))
  {
    var code := LineCode(flow, line, number);
    var s1 := Push(Int(ToShort(flow.classIndex)), f.stack);
    var s2 := Push(Int(ToShort(flow.methodIndex)), s1);
    var s3 := Push(Int(ToShort(line)), s2);
    assert code == [code[0]] + ([code[1]] + ([code[2]] + ([code[3]] + [code[4]])));
    RunCons(env, code[0], [code[1]] + ([code[2]] + ([code[3]] + [code[4]])), f);
    RunCons(env, code[1], [code[2]] + ([code[3]] + [code[4]]), f.(stack := s1));
    RunCons(env, code[2], [code[3]] + [code[4]], f.(stack := s2));
    RunCons(env, code[3], [code[4]], f.(stack := s3));
    RunOne(env, code[4], f.(stack := Push(Int(ToShort(number)), s3)));
  }

  // ---------------------------------------------------------------- whole blocks

  // The same outcome with trace t; control transfers that clear the stack may leave other values on it.
  predicate SameOutcome(e: Effect, e': Effect, t: seq<Event>) {
    match e
    case Fall(g) => e' == Fall(g.(trace := t))
    case Goto(l, g) => e' == Goto(l, g.(trace := t))
    case Exit(r, g) => e'.Exit? && e'.result == r && e'.frame.heap == g.heap && e'.frame.trace == t
    case Raise(x, g) =>
      e'.Raise? && e'.exc == x && e'.frame.heap == g.heap && e'.frame.locals == g.locals && e'.frame.trace == t
    case Stuck => false
  }

  // The block runs up to and including the instruction itself; if that falls through, the
  // block ends where the instruction alone ends.
  ghost predicate Faithful(env: Env, cfg: Config, ctx: Context, i: Instr, f: Frame, t: seq<Event>)
    requires Readable(Captured(cfg, ctx, i), f.locals)
  {
    var e := Exec(env, i, f);
    var t' := t + Events(env, cfg, ctx, i, f);
    var b := RunList(env, Before(cfg, ctx, i), f.(trace := t));
    && b.Fall?
    && (if e.Fall? then RunList(env, Block(cfg, ctx, i), f.(trace := t)) == Fall(e.frame.(trace := t'))
        else !Dropped(cfg, i) && SameOutcome(e, Exec(env, i, b.frame), t'))
  }

  lemma {:induction false} Compose(env: Env, before: seq<Instr>, i: Instr, after: seq<Instr>,
                                   f: Frame, f1: Frame, g1: Frame, g: Frame)
    requires RunList(env, before, f) == Fall(f1)
    requires Exec(env, i, f1) == Fall(g1)
    requires RunList(env, after, g1) == Fall(g)
    ensures RunList(env, before + [i] + after, f) == Fall(g)
  {
    hide Exec;
    assert before + [i] + after == before + ([i] + after);
    RunListAppends(env, before, [i] + after, f);
    RunCons(env, i, after, f1);
  }

  // The three parts of a block that falls through.
  lemma FaithfulFall(env: Env, cfg: Config, ctx: Context, i: Instr, f: Frame, t: seq<Event>, f1: Frame, g1: Frame)
    requires Readable(Captured(cfg, ctx, i), f.locals) && !Dropped(cfg, i)
    requires RunList(env, Before(cfg, ctx, i), f.(trace := t)) == Fall(f1)
    requires Exec(env, i, f).Fall? && Exec(env, i, f1) == Fall(g1)
    requires RunList(env, After(cfg, ctx, i), g1) ==
             Fall(Exec(env, i, f).frame.(trace := t + Events(env, cfg, ctx, i, f)))
    ensures Faithful(env, cfg, ctx, i, f, t)
  {
    hide Exec;
    hide RunList;
    hide Before;
    hide After;
    hide Events;
    Compose(env, Before(cfg, ctx, i), i, After(cfg, ctx, i), f.(trace := t), f1, g1,
            Exec(env, i, f).frame.(trace := t + Events(env, cfg, ctx, i, f)));
  }

  // A block that transfers control elsewhere.
  lemma FaithfulTransfer(env: Env, cfg: Config, ctx: Context, i: Instr, f: Frame, t: seq<Event>, f1: Frame)
    requires Readable(Captured(cfg, ctx, i), f.locals) && !Dropped(cfg, i) && !Exec(env, i, f).Fall?
    requires RunList(env, Before(cfg, ctx, i), f.(trace := t)) == Fall(f1)
    requires SameOutcome(Exec(env, i, f), Exec(env, i, f1), t + Events(env, cfg, ctx, i, f))
    ensures Faithful(env, cfg, ctx, i, f, t)
  {
  }

  lemma ExecIgnoresTrace(env: Env, i: Instr, f: Frame, t: seq<Event>)
    requires !i.CallHook? && Exec(env, i, f) != Stuck
    ensures SameOutcome(Exec(env, i, f), Exec(env, i, f.(trace := t)), t)
  {
    hide PopArgs;
    hide OperandKinds;
    hide Shuffle;
    hide ElementKind;
    hide NarrowElement;
    hide NarrowField;
    hide StoreLocal;
    hide ToInt;
    hide ToShort;
    hide ExecHook;
  }

  lemma PlainBlock(env: Env, cfg: Config, ctx: Context, i: Instr, f: Frame, t: seq<Event>)
    requires Original(cfg, i) && Exec(env, i, f) != Stuck && Readable(Captured(cfg, ctx, i), f.locals)
    requires Before(cfg, ctx, i) == [] && After(cfg, ctx, i) == [] && Events(env, cfg, ctx, i, f) == []
    ensures Faithful(env, cfg, ctx, i, f, t)
  {
    ExecIgnoresTrace(env, i, f, t);
    assert Block(cfg, ctx, i) == [i];
    RunOne(env, i, f.(trace := t));
    assert t + [] == t;
  }

  // The store looks at the three topmost values only.
  lemma ArrayStoreAbove(env: Env, op: Opcode, f: Frame, extra: Stack, t: seq<Event>)
    requires IsArrayStore(op) && Exec(env, Insn(op), f) != Stuck
    ensures f.stack.Push? && f.stack.rest.Push? && f.stack.rest.rest.Push?
    ensures KindOf(f.stack.top) == ElementKind(op) && One(f.stack.rest.top) && KindOf(f.stack.rest.rest.top).RefKind?
    ensures var f1 := Frame(Push(f.stack.top, Push(f.stack.rest.top, Push(f.stack.rest.rest.top, extra))), f.locals, f.heap, t);
            var e := Exec(env, Insn(op), f);
            (e.Fall? && e.frame.stack == f.stack.rest.rest.rest
             && Exec(env, Insn(op), f1) == Fall(e.frame.(stack := extra, trace := t)))
            || (e.Raise? && SameOutcome(e, Exec(env, Insn(op), f1), t))
  {
  }

  lemma PopToArray(env: Env, op: Opcode, at: Value, arr: Value, r: Stack, g: Frame)
    requires IsArrayStore(op) && One(at) && KindOf(arr).RefKind?
    requires g.stack == if Wide(ElementKind(op)) then Push(at, Push(arr, r)) else Push(arr, r)
    ensures RunList(env, (if Wide(ElementKind(op)) then [Insn(Pop)] else []) + [CallHook(ArrayHook)], g) ==
            Fall(g.(stack := r, trace := g.trace + [ArrayModified(arr)]))
  {
    var h := CallHook(ArrayHook);
    RunOne(env, h, g.(stack := Push(arr, r)));
    if Wide(ElementKind(op)) {
      RunCons(env, Insn(Pop), [h], g);
    } else {
      assert [] + [h] == [h];
    }
  }

  lemma ArrayBlock(env: Env, cfg: Config, ctx: Context, op: Opcode, f: Frame, t: seq<Event>)
    requires IsArrayStore(op) && cfg.arrays && Exec(env, Insn(op), f) != Stuck
    requires Readable(Captured(cfg, ctx, Insn(op)), f.locals)
    ensures Faithful(env, cfg, ctx, Insn(op), f, t)
  {
    hide ExecArrayStore;
    hide Captured;
    hide RunList;
    var i := Insn(op);
    var f0 := f.(trace := t);
    ArrayStoreAbove(env, op, f, Empty, t);
    var v, at, arr, r := f.stack.top, f.stack.rest.top, f.stack.rest.rest.top, f.stack.rest.rest.rest;
    var extra := if Wide(ElementKind(op)) then Push(at, Push(arr, r)) else Push(arr, r);
    ArrayStoreAbove(env, op, f, extra, t);
    var f1 := f0.(stack := Push(v, Push(at, Push(arr, extra))));
    assert RunList(env, Before(cfg, ctx, i), f0) == Fall(f1) by {
      if Wide(ElementKind(op)) {
        DuplicateWideArrayCopies(env, f0);
      } else {
        DuplicateThirdCopies(env, f0);
      }
    }
    var e := Exec(env, i, f);
    if e.Fall? {
      assert Under(f.stack, 2) == Under(f.stack.rest, 1) == arr;
      var g1 := e.frame.(stack := extra, trace := t);
      PopToArray(env, op, at, arr, r, g1);
      FaithfulFall(env, cfg, ctx, i, f, t, f1, g1);
    } else {
      assert t + [] == t;
      FaithfulTransfer(env, cfg, ctx, i, f, t, f1);
    }
  }

  // The instructions that leave the method or throw are known by what they do.
  lemma ExitsExactly(env: Env, op: Opcode, f: Frame)
    requires Exec(env, Insn(op), f) != Stuck
    ensures IsExit(op) <==> Exec(env, Insn(op), f).Exit? || (op == Athrow && Exec(env, Insn(op), f).Raise?)
    ensures IsExit(op) <==> op in {Ireturn, Lreturn, Freturn, Dreturn, Areturn, Return, Athrow}
  {
    hide Shuffle;
  }

  /** Where an instruction leaves the method, or throws what it finds, the hooks come first: the
      variables are dumped, and then the depth decreases. */
  lemma ExitBlock(env: Env, cfg: Config, ctx: Context, op: Opcode, f: Frame, t: seq<Event>)
    requires Exec(env, Insn(op), f).Exit? || (op == Athrow && Exec(env, Insn(op), f).Raise?)
    requires Readable(Captured(cfg, ctx, Insn(op)), f.locals)
    ensures Faithful(env, cfg, ctx, Insn(op), f, t)
    ensures Events(env, cfg, ctx, Insn(op), f)
            == (if cfg.flow.Some? then [LeftoversDumped] else []) + (if cfg.depth.Some? then [DepthDecreased] else [])
    ensures Block(cfg, ctx, Insn(op))
            == (if cfg.flow.Some? then [CallHook(DumpHook)] else []) + (if cfg.depth.Some? then [CallHook(DecreaseHook)] else []) + [Insn(op)]
  {
    ExitsExactly(env, op, f);
    ExitShape(env, cfg, ctx, op, f);
    hide Exec;
    hide Before;
    hide Events;
    hide Block;
    hide Dropped;
    hide RunList;
    hide Captured;
    hide IsExit;
    var events := (if cfg.flow.Some? then [LeftoversDumped] else []) + (if cfg.depth.Some? then [DepthDecreased] else []);
    ExitHooksRun(env, cfg, f.(trace := t));
    ExecIgnoresTrace(env, Insn(op), f, t + events);
    FaithfulTransfer(env, cfg, ctx, Insn(op), f, t, f.(trace := t + events));
  }

  // What is written around an exit, and what it reports.
  lemma ExitShape(env: Env, cfg: Config, ctx: Context, op: Opcode, f: Frame)
    requires IsExit(op) && Readable(Captured(cfg, ctx, Insn(op)), f.locals)
    ensures Before(cfg, ctx, Insn(op)) == (if cfg.flow.Some? then [CallHook(DumpHook)] else []) + (if cfg.depth.Some? then [CallHook(DecreaseHook)] else [])
    ensures Block(cfg, ctx, Insn(op)) == Before(cfg, ctx, Insn(op)) + [Insn(op)] && !Dropped(cfg, Insn(op))
    ensures Events(env, cfg, ctx, Insn(op), f)
            == (if cfg.flow.Some? then [LeftoversDumped] else []) + (if cfg.depth.Some? then [DepthDecreased] else [])
  {
    hide Exec;
    hide Captured;
  }

  lemma ExitHooksRun(env: Env, cfg: Config, f: Frame)
    ensures RunList(env, (if cfg.flow.Some? then [CallHook(DumpHook)] else []) + (if cfg.depth.Some? then [CallHook(DecreaseHook)] else []), f)
            == Fall(f.(trace := f.trace + ((if cfg.flow.Some? then [LeftoversDumped] else []) + (if cfg.depth.Some? then [DepthDecreased] else []))))
  {
    hide RunList;
    var a := if cfg.flow.Some? then [CallHook(DumpHook)] else [];
    var b := if cfg.depth.Some? then [CallHook(DecreaseHook)] else [];
    var ea := if cfg.flow.Some? then [LeftoversDumped] else [];
    var eb := if cfg.depth.Some? then [DepthDecreased] else [];
    if cfg.flow.Some? { RunOne(env, CallHook(DumpHook), f); } else { RunNone(env, f); assert f.trace + ea == f.trace; }
    var fa := f.(trace := f.trace + ea);
    if cfg.depth.Some? { RunOne(env, CallHook(DecreaseHook), fa); } else { RunNone(env, fa); assert fa.trace + eb == fa.trace; }
    RunListAppends(env, a, b, f);
    assert f.trace + ea + eb == f.trace + (ea + eb);
  }

  lemma PutFieldAbove(env: Env, field: FieldRef, f: Frame, extra: Stack, t: seq<Event>)
    requires Exec(env, PutField(field), f) != Stuck
    ensures f.stack.Push? && f.stack.rest.Push?
    ensures KindOf(f.stack.top) == FieldKind(field.desc) && KindOf(f.stack.rest.top).RefKind?
    ensures var f1 := Frame(Push(f.stack.top, Push(f.stack.rest.top, extra)), f.locals, f.heap, t);
            var e := Exec(env, PutField(field), f);
            (e.Fall? && e.frame.stack == f.stack.rest.rest
             && Exec(env, PutField(field), f1) == Fall(e.frame.(stack := extra, trace := t)))
            || (e.Raise? && SameOutcome(e, Exec(env, PutField(field), f1), t))
    ensures var e, obj := Exec(env, PutField(field), f), f.stack.rest.top;
            e.Fall? ==> obj.Ref? && obj.id in e.frame.heap && e.frame.heap[obj.id].Object?
                        && field in e.frame.heap[obj.id].fields
                        && e.frame.heap[obj.id].fields[field] == NarrowField(field.desc, f.stack.top)
  {
  }

  lemma FieldBlock(env: Env, cfg: Config, ctx: Context, field: FieldRef, f: Frame, t: seq<Event>)
    requires TrackedField(cfg, field) && Exec(env, PutField(field), f) != Stuck
    requires Readable(Captured(cfg, ctx, PutField(field)), f.locals)
    ensures Faithful(env, cfg, ctx, PutField(field), f, t)
  {
    var i := PutField(field);
    var f0 := f.(trace := t);
    PutFieldAbove(env, field, f, Empty, t);
    var v, obj, r := f.stack.top, f.stack.rest.top, f.stack.rest.rest;
    PutFieldAbove(env, field, f, Push(obj, r), t);
    DuplicateSecondCopies(env, f0);
    var f1 := f0.(stack := Push(v, Push(obj, Push(obj, r))));
    var e := Exec(env, i, f);
    if e.Fall? {
      assert Under(f.stack, 1) == Under(f.stack.rest, 0) == obj;
      var g1 := e.frame.(stack := Push(obj, r), trace := t);
      var stored := e.frame.heap[obj.id].fields[field];
      assert FieldContent(e.frame.heap, obj, field) == stored;
      FieldReport(env, field, obj, r, g1);
      FaithfulFall(env, cfg, ctx, i, f, t, f1, g1);
    } else {
      assert t + [] == t;
      FaithfulTransfer(env, cfg, ctx, i, f, t, f1);
    }
  }

  lemma FieldReport(env: Env, field: FieldRef, obj: Value, r: Stack, g: Frame)
    requires g.stack == Push(obj, r) && obj.Ref? && obj.id in g.heap && g.heap[obj.id].Object?
    requires field in g.heap[obj.id].fields && KindOf(g.heap[obj.id].fields[field]) == FieldKind(field.desc)
    ensures RunList(env, [Insn(Dup), LdcText(field.name), Insn(Swap), GetField(field), CallHook(FieldHook(FieldKind(field.desc)))], g)
            == Fall(g.(stack := r, trace := g.trace + [FieldModified(obj, field.name, g.heap[obj.id].fields[field])]))
  {
    hide RunList;
    var c := [Insn(Dup), LdcText(field.name), Insn(Swap), GetField(field), CallHook(FieldHook(FieldKind(field.desc)))];
    assert c == [c[0]] + ([c[1]] + ([c[2]] + ([c[3]] + [c[4]])));
    var s1 := Push(obj, Push(obj, r));
    var s2 := Push(Text(field.name), s1);
    var s3 := Push(obj, Push(Text(field.name), Push(obj, r)));
    var s4 := Push(g.heap[obj.id].fields[field], Push(Text(field.name), Push(obj, r)));
    RunCons(env, c[0], [c[1]] + ([c[2]] + ([c[3]] + [c[4]])), g);
    RunCons(env, c[1], [c[2]] + ([c[3]] + [c[4]]), g.(stack := s1));
    RunCons(env, c[2], [c[3]] + [c[4]], g.(stack := s2));
    RunCons(env, c[3], [c[4]], g.(stack := s3));
    RunOne(env, c[4], g.(stack := s4));
  }

  lemma LineBlock(env: Env, cfg: Config, ctx: Context, i: Instr, f: Frame, t: seq<Event>)
    requires i.LineMark? && Readable(Captured(cfg, ctx, i), f.locals)
    ensures Faithful(env, cfg, ctx, i, f, t)
  {
    hide Captured;
    hide CaptureCode;
    hide SlotEvents;
    hide LineCode;
    hide LabelNumber;
    hide RunList;
    hide Readable;
    var slots := Captured(cfg, ctx, i);
    var f0 := f.(trace := t);
    var lineEvents :=
      if cfg.flow.Some?
      then [LineExecuted(ToShort(cfg.flow.value.classIndex), ToShort(cfg.flow.value.methodIndex), ToShort(i.line),
                         ToShort(LabelNumber(ctx, i.start)))]
      else [];
    var f1 := f0.(trace := t + lineEvents);
    if cfg.flow.Some? {
      LineCodeReports(env, cfg.flow.value, i.line, LabelNumber(ctx, i.start), f0);
    } else {
      RunNone(env, f0);
      assert t + lineEvents == t;
    }
    CaptureCodeReports(env, slots, f1);
    var events := lineEvents + SlotEvents(slots, f.locals);
    assert t + lineEvents + SlotEvents(slots, f.locals) == t + events;
    FaithfulFall(env, cfg, ctx, i, f, t, f1, f1);
  }

  lemma LabelBlock(env: Env, cfg: Config, ctx: Context, i: Instr, f: Frame, t: seq<Event>)
    requires i.LabelMark? && Readable(Captured(cfg, ctx, i), f.locals)
    ensures Faithful(env, cfg, ctx, i, f, t)
  {
    hide Captured;
    hide CaptureCode;
    hide SlotEvents;
    hide AfterLabel;
    hide LandEvents;
    hide RunList;
    hide Readable;
    var slots := Captured(cfg, ctx, i);
    var f0 := f.(trace := t);
    CaptureCodeReports(env, slots, f0);
    var f1 := f0.(trace := t + SlotEvents(slots, f.locals));
    LandingRuns(env, cfg, i.mark, f1);
    var events := SlotEvents(slots, f.locals) + LandEvents(cfg, i.mark);
    assert t + SlotEvents(slots, f.locals) + LandEvents(cfg, i.mark) == t + events;
    FaithfulFall(env, cfg, ctx, i, f, t, f1, f1);
  }

  lemma JumpBlock(env: Env, cfg: Config, ctx: Context, i: Instr, f: Frame, t: seq<Event>)
    requires i.Jump? && Exec(env, i, f) != Stuck && Readable(Captured(cfg, ctx, i), f.locals)
    ensures Faithful(env, cfg, ctx, i, f, t)
  {
    hide Captured;
    hide CaptureCode;
    hide SlotEvents;
    hide RunList;
    hide Readable;
    var slots := Captured(cfg, ctx, i);
    var f0 := f.(trace := t);
    CaptureCodeReports(env, slots, f0);
    var f1 := f0.(trace := t + SlotEvents(slots, f.locals));
    if Exec(env, i, f).Fall? {
      var g := Exec(env, i, f1).frame;
      RunNone(env, g);
      FaithfulFall(env, cfg, ctx, i, f, t, f1, g);
    } else {
      FaithfulTransfer(env, cfg, ctx, i, f, t, f1);
    }
  }

  lemma LandingRuns(env: Env, cfg: Config, l: Label, f: Frame)
    ensures RunList(env, AfterLabel(cfg, l), f) == Fall(f.(trace := f.trace + LandEvents(cfg, l)))
  {
    if cfg.depth == Some(Some(l)) {
      RunOne(env, CallHook(FetchHook), f);
    } else {
      assert f.trace + [] == f.trace;
    }
  }

  // ---------------------------------------------------------------- calls

  function Onto(vs: seq<Value>, s: Stack): Stack {
    if vs == [] then s else Push(vs[|vs| - 1], Onto(vs[..|vs| - 1], s))
  }

  // The last of the values is on top.
  lemma {:induction false} UnderOthers(vs: seq<Value>, s: Stack, k: nat)
    requires k < |vs|
    ensures Under(Onto(vs, s), k) == vs[|vs| - 1 - k]
    decreases |vs|
  {
    if k > 0 { UnderOthers(vs[..|vs| - 1], s, k - 1); }
  }

  lemma {:induction false} PopArgsTakesTop(kinds: seq<Kind>, s: Stack, q: Stack)
    requires PopArgs(kinds, s).Some?
    ensures var (vs, r) := PopArgs(kinds, s).value;
            && |vs| == |kinds|
            && (forall k :: 0 <= k < |vs| ==> KindOf(vs[k]) == kinds[k])
            && s == Onto(vs, r)
            && PopArgs(kinds, Onto(vs, q)) == Some((vs, q))
  {
    if kinds != [] {
      var n := |kinds| - 1;
      PopArgsTakesTop(kinds[..n], s.rest, q);
      var (vs, r) := PopArgs(kinds, s).value;
      assert vs[..n] == PopArgs(kinds[..n], s.rest).value.0;
      assert vs == vs[..n] + [s.top];
    }
  }

  lemma {:induction false} PopArgsFinds(kinds: seq<Kind>, vs: seq<Value>, s: Stack)
    requires |vs| == |kinds| && forall k :: 0 <= k < |vs| ==> KindOf(vs[k]) == kinds[k]
    ensures PopArgs(kinds, Onto(vs, s)) == Some((vs, s))
    decreases |kinds|
  {
    if kinds != [] {
      var n := |kinds| - 1;
      PopArgsFinds(kinds[..n], vs[..n], s);
      assert vs[..n] + [vs[n]] == vs;
    }
  }

  // A call works on its operands and leaves the stack below them alone.
  lemma InvokeAbove(env: Env, m: MethodRef, f: Frame, below: Stack, t: seq<Event>)
    requires Exec(env, Invoke(m), f) != Stuck
    ensures PopArgs(OperandKinds(m), f.stack).Some?
    ensures var (vs, r) := PopArgs(OperandKinds(m), f.stack).value;
            var e := Exec(env, Invoke(m), f);
            var f1 := Frame(Onto(vs, below), f.locals, f.heap, t);
            (e.Fall? && (m.ret.None? ==> e.frame.stack == r)
             && (m.ret.Some? ==> e.frame.stack.Push? && e.frame.stack.rest == r && KindOf(e.frame.stack.top) == m.ret.value)
             && Exec(env, Invoke(m), f1) ==
                Fall(e.frame.(stack := if m.ret.None? then below else Push(e.frame.stack.top, below), trace := t)))
            || (e.Raise? && SameOutcome(e, Exec(env, Invoke(m), f1), t))
  {
    hide PopArgs;
    hide Onto;
    hide OperandKinds;
    PopArgsTakesTop(OperandKinds(m), f.stack, below);
  }

  // The copy made for a call with one, two or three one-slot operands.
  function CopyOf(n: nat): seq<Instr> {
    if n == 1 then [Insn(Dup)] else if n == 2 then DuplicateSecond(false) else DuplicateThird()
  }

  lemma CopyRuns(env: Env, vs: seq<Value>, r: Stack, f: Frame)
    requires 1 <= |vs| <= 3 && (forall k :: 0 <= k < |vs| ==> One(vs[k])) && f.stack == Onto(vs, r)
    ensures RunList(env, CopyOf(|vs|), f) == Fall(f.(stack := Onto(vs, Push(vs[0], r))))
    ensures Under(f.stack, |vs| - 1) == vs[0]
  {
    var q := Push(vs[0], r);
    assert forall s :: Onto(vs[..1], s) == Push(vs[0], Onto(vs[..1][..0], s)) == Push(vs[0], s);
    if |vs| == 1 {
      assert vs[..1] == vs;
      RunOne(env, Insn(Dup), f);
    } else if |vs| == 2 {
      assert Under(f.stack, 1) == Under(f.stack.rest, 0);
      DuplicateSecondCopies(env, f);
    } else {
      assert vs[..2][..1] == vs[..1];
      assert forall s :: Onto(vs[..2], s) == Push(vs[1], Onto(vs[..1], s));
      assert Under(f.stack, 2) == Under(f.stack.rest, 1);
      assert Under(f.stack.rest, 1) == Under(f.stack.rest.rest, 0);
      DuplicateThirdCopies(env, f);
    }
  }

  // result?, copy  on the stack: the copy is reported and the result stays.
  lemma ReportCopy(env: Env, m: MethodRef, viaSwap: bool, hook: Hook, copy: Value, r: Stack, g: Frame)
    requires KindOf(copy).RefKind? && (hook == CollectionHook || hook == MapHook)
    requires m.ret.None? ==> g.stack == Push(copy, r)
    requires m.ret.Some? ==> g.stack.Push? && One(g.stack.top) && g.stack.rest == Push(copy, r)
    ensures RunList(env, (if m.ret.Some? then if viaSwap then [Insn(Swap)] else [Insn(DupX1), Insn(Pop)] else []) + [CallHook(hook)], g)
            == Fall(g.(stack := if m.ret.None? then r else Push(g.stack.top, r),
                       trace := g.trace + [if hook == MapHook then MapModified(copy) else CollectionModified(copy)]))
  {
    var h := CallHook(hook);
    if m.ret.None? {
      assert [] + [h] == [h];
      RunOne(env, h, g);
    } else {
      var v := g.stack.top;
      RunOne(env, h, g.(stack := Push(copy, Push(v, r))));
      if viaSwap {
        RunCons(env, Insn(Swap), [h], g);
      } else {
        assert [Insn(DupX1), Insn(Pop)] + [h] == [Insn(DupX1)] + ([Insn(Pop)] + [h]);
        RunCons(env, Insn(DupX1), [Insn(Pop)] + [h], g);
        RunCons(env, Insn(Pop), [h], g.(stack := Push(v, Push(copy, Push(v, r)))));
      }
    }
  }

  predicate CopiesOperand(cfg: Config, m: MethodRef) {
    var plan := CollectionPlanOf(cfg, m);
    MapCall(cfg, m) || plan.CopyTop? || plan.CopySecond? || plan.CopyThird?
  }

  function CallReport(cfg: Config, m: MethodRef, copy: Value): Event {
    if MapCall(cfg, m) then MapModified(copy) else CollectionModified(copy)
  }

  function CallReportCode(cfg: Config, m: MethodRef): seq<Instr> {
    (if m.ret.Some? then if !MapCall(cfg, m) then [Insn(Swap)] else [Insn(DupX1), Insn(Pop)] else [])
    + [CallHook(if MapCall(cfg, m) then MapHook else CollectionHook)]
  }

  lemma CopiedCallShape(cfg: Config, ctx: Context, m: MethodRef)
    requires AdmittedCall(cfg, m) && CopiesOperand(cfg, m)
    ensures var kinds := OperandKinds(m);
            && 1 <= |kinds| <= 3 && kinds[0].RefKind? && (forall k :: 0 <= k < |kinds| ==> !Wide(kinds[k]))
            && (m.ret.Some? ==> !Wide(m.ret.value))
            && Before(cfg, ctx, Invoke(m)) == CopyOf(|kinds|)
            && After(cfg, ctx, Invoke(m)) == CallReportCode(cfg, m)
            && !Dropped(cfg, Invoke(m))
    ensures forall s, s' :: CallEvents(cfg, m, s, s') == [CallReport(cfg, m, Under(s, |OperandKinds(m)| - 1))]
  {
    var plan := CollectionPlanOf(cfg, m);
    if MapCall(cfg, m) {
      assert |OperandKinds(m)| == 3;
    } else {
      match plan
      case CopyTop => assert |OperandKinds(m)| == 1;
      case CopySecond(_) => assert |OperandKinds(m)| == 2;
      case CopyThird => assert |OperandKinds(m)| == 3;
    }
  }

  // Calls whose deepest operand is copied beforehand and reported afterwards.
  lemma CopiedCallBlock(env: Env, cfg: Config, ctx: Context, m: MethodRef, f: Frame, t: seq<Event>)
    requires Original(cfg, Invoke(m)) && Exec(env, Invoke(m), f) != Stuck
    requires Readable(Captured(cfg, ctx, Invoke(m)), f.locals)
    requires CopiesOperand(cfg, m)
    ensures Faithful(env, cfg, ctx, Invoke(m), f, t)
  {
    hide CollectionPlanOf;
    hide MapCall;
    hide Captured;
    hide Before;
    hide After;
    hide RunList;
    hide AdmittedPlan;
    hide ExecInvoke;
    hide CopyOf;
    hide Onto;
    hide PopArgs;
    hide OperandKinds;
    hide Under;
    hide CallEvents;
    hide AdmittedCall;
    hide Readable;
    var i := Invoke(m);
    var f0 := f.(trace := t);
    CopiedCallShape(cfg, ctx, m);
    InvokeAbove(env, m, f, Empty, t);
    var (vs, r) := PopArgs(OperandKinds(m), f.stack).value;
    PopArgsTakesTop(OperandKinds(m), f.stack, r);
    var copy := vs[0];
    InvokeAbove(env, m, f, Push(copy, r), t);
    CopyRuns(env, vs, r, f0);
    var f1 := f0.(stack := Onto(vs, Push(copy, r)));
    var e := Exec(env, i, f);
    if e.Fall? {
      var g1 := Exec(env, i, f1).frame;
      var event := CallReport(cfg, m, copy);
      ReportCopy(env, m, !MapCall(cfg, m), if MapCall(cfg, m) then MapHook else CollectionHook, copy, r, g1);
      assert Events(env, cfg, ctx, i, f) == [event];
      FaithfulFall(env, cfg, ctx, i, f, t, f1, g1);
    } else {
      assert t + [] == t;
      FaithfulTransfer(env, cfg, ctx, i, f, t, f1);
    }
  }

  // Constructor calls and Arrays.asList, whose result is copied.
  lemma ResultCallBlock(env: Env, cfg: Config, ctx: Context, m: MethodRef, f: Frame, t: seq<Event>)
    requires Original(cfg, Invoke(m)) && Exec(env, Invoke(m), f) != Stuck
    requires Safe(env, cfg, ctx, Invoke(m), f) && CollectionPlanOf(cfg, m).CopyResult?
    ensures Faithful(env, cfg, ctx, Invoke(m), f, t)
  {
    hide RunList;
    hide ExecInvoke;
    hide ExecArrayStore;
    hide ExecExit;
    hide ExecPutField;
    hide ExecGetField;
    hide PopArgs;
    hide OperandKinds;
    hide CollectionPlan;
    hide MapCall;
    hide Captured;
    var i := Invoke(m);
    var f0 := f.(trace := t);
    ExecIgnoresTrace(env, i, f, t);
    assert Before(cfg, ctx, i) == [];
    var e := Exec(env, i, f);
    if e.Fall? {
      var g1 := e.frame.(trace := t);
      var v, r := g1.stack.top, g1.stack.rest;
      var g2 := g1.(stack := Push(v, Push(v, r)));
      var h := CallHook(CollectionHook);
      assert Events(env, cfg, ctx, i, f) == [CollectionModified(v)];
      RunOne(env, h, g2);
      if m.ret.Some? {
        assert After(cfg, ctx, i) == [Insn(Dup)] + ([Insn(Swap)] + [h]);
        RunCons(env, Insn(Dup), [Insn(Swap)] + [h], g1);
        RunCons(env, Insn(Swap), [h], g2);
      } else {
        assert After(cfg, ctx, i) == [Insn(Dup)] + [h];
        RunCons(env, Insn(Dup), [h], g1);
      }
      RunNone(env, f0);
      FaithfulFall(env, cfg, ctx, i, f, t, f0, g1);
    } else {
      assert t + [] == t;
      RunNone(env, f0);
      FaithfulTransfer(env, cfg, ctx, i, f, t, f0);
    }
  }

  // Every rewritten instruction is faithful.
  lemma BlockIsFaithful(env: Env, cfg: Config, ctx: Context, i: Instr, f: Frame, t: seq<Event>)
    requires Original(cfg, i) && Exec(env, i, f) != Stuck && Safe(env, cfg, ctx, i, f)
    ensures Faithful(env, cfg, ctx, i, f, t)
  {
    match i
    case Insn(op) =>
      ExitsExactly(env, op, f);
      if IsExit(op) {
        ExitBlock(env, cfg, ctx, op, f, t);
      } else if IsArrayStore(op) && cfg.arrays {
        ArrayBlock(env, cfg, ctx, op, f, t);
      } else {
        PlainBlock(env, cfg, ctx, i, f, t);
      }
    case PutField(field) =>
      if TrackedField(cfg, field) {
        FieldBlock(env, cfg, ctx, field, f, t);
      } else {
        PlainBlock(env, cfg, ctx, i, f, t);
      }
    case Invoke(m) =>
      var plan := CollectionPlanOf(cfg, m);
      if plan.CopyResult? {
        ResultCallBlock(env, cfg, ctx, m, f, t);
      } else if MapCall(cfg, m) || !plan.Untouched? {
        CopiedCallBlock(env, cfg, ctx, m, f, t);
      } else {
        PlainBlock(env, cfg, ctx, i, f, t);
      }
    case LabelMark(_) => LabelBlock(env, cfg, ctx, i, f, t);
    case Jump(_, _) => JumpBlock(env, cfg, ctx, i, f, t);
    case LineMark(_, _) => LineBlock(env, cfg, ctx, i, f, t);
    case _ => PlainBlock(env, cfg, ctx, i, f, t);
  }
}
