/**
 Which local variable slots are reported at a capture point (a label that is fallen into,
 a line mark, a jump), and exactly when the inserted loads are valid.
 */
module PendingSlots {
  import opened Wrappers
  import opened Jvm
  import opened Instrumentation
  import opened BlockProofs
  import opened Simulation
  import opened Equivalence

  predicate CapturePoint(i: Instr) {
    i.LabelMark? || i.LineMark? || i.Jump?
  }

  function StoredSlot(i: Instr): Option<(nat, Kind)> {
    match i
    case Store(k, n) => Some((n, k))
    case Iinc(n, _) => Some((n, IntKind))
    case _ => None
  }

  // Instruction j is the last store to slot n, and no capture point follows it.
  ghost predicate LastStore(code: seq<Instr>, j: nat, n: nat, k: Kind) {
    && j < |code| && StoredSlot(code[j]) == Some((n, k))
    && forall q :: j < q < |code| ==> !CapturePoint(code[q]) && (StoredSlot(code[q]).Some? ==> StoredSlot(code[q]).value.0 != n)
  }

  /** The pending map holds exactly the slots stored since the last capture point, each with
      the kind of its last store. */
  lemma {:induction false} PendingIsLastStore(code: seq<Instr>, n: nat, k: Kind)
    ensures (n in ContextAfter(code).pending && ContextAfter(code).pending[n] == k) <==> exists j: nat :: LastStore(code, j, n, k)
    decreases |code|
  {
    if code != [] {
      var last := |code| - 1;
      var before, i := code[..last], code[last];
      PendingIsLastStore(before, n, k);
      if StoredSlot(i) == Some((n, k)) {
        assert LastStore(code, last, n, k);
      } else if !CapturePoint(i) && (StoredSlot(i).Some? ==> StoredSlot(i).value.0 != n) {
        forall j: nat
          ensures LastStore(code, j, n, k) <==> LastStore(before, j, n, k)
        {
          if LastStore(before, j, n, k) {
            assert forall q :: j < q < |code| ==> q == last || code[q] == before[q];
          }
          if LastStore(code, j, n, k) {
            assert forall q :: j < q < last ==> code[q] == before[q];
          }
        }
      } else {
        assert forall j: nat :: j < last ==> !LastStore(code, j, n, k);
      }
    }
  }

  lemma NothingPendingAfterCapture(code: seq<Instr>)
    requires code != [] && CapturePoint(code[|code| - 1])
    ensures ContextAfter(code).pending == map[]
  {
  }

  // ---------------------------------------------------------------- one event for each slot

  // Each slot is reported once, with the value it holds, and nothing else is reported.
  lemma {:induction false} SlotEventsExact(slots: map<nat, Kind>, locals: Locals, e: Event)
    requires Readable(slots, locals)
    ensures multiset(SlotEvents(slots, locals))[e] ==
            if e.VariableModified? && e.slot >= 0 && e.slot in slots && locals[e.slot] == e.held then 1 else 0
    decreases |slots|
  {
    if slots != map[] {
      var n := MinKey(slots.Keys);
      SlotEventsExact(slots - {n}, locals, e);
      assert SlotEvents(slots, locals) == [VariableModified(n, locals[n])] + SlotEvents(slots - {n}, locals);
    }
  }

  /** What is reported when a capture point is passed: every slot stored since the previous
      one or declared to start here, except slot 0 of a constructor, with its current value. */
  lemma CapturePointReports(cfg: Config, table: VariableTable, code: seq<Instr>, pc: nat, locals: Locals, n: nat, v: Value)
    requires cfg.variables == Some(table) && pc < |code| && CapturePoint(code[pc])
    requires Readable(Captured(cfg, ContextAfter(code[..pc]), code[pc]), locals)
    ensures multiset(SlotEvents(Captured(cfg, ContextAfter(code[..pc]), code[pc]), locals))[VariableModified(n, v)] ==
            if (n in DeclaredHere(table, code, pc) || exists j: nat, k :: LastStore(code[..pc], j, n, k))
               && !(table.inConstructor && n == 0) && n in locals && locals[n] == v
            then 1 else 0
  {
    hide ContextAfter;
    hide SlotEvents;
    hide LastStore;
    var ctx := ContextAfter(code[..pc]);
    CapturedSlots(cfg, table, code, pc, n);
    SlotEventsExact(Captured(cfg, ctx, code[pc]), locals, VariableModified(n, v));
    assert n in ctx.pending <==> exists j: nat, k :: LastStore(code[..pc], j, n, k) by {
      if n in ctx.pending {
        PendingIsLastStore(code[..pc], n, ctx.pending[n]);
      }
      if j: nat, k :| LastStore(code[..pc], j, n, k) {
        PendingIsLastStore(code[..pc], n, k);
      }
    }
  }

  // The definitions starting at a label; none at other capture points.
  function DeclaredHere(table: VariableTable, code: seq<Instr>, pc: nat): map<nat, Kind>
    requires pc < |code|
  {
    if code[pc].LabelMark? then Declared(table, |ContextAfter(code[..pc]).numbers|) else map[]
  }

  // ---------------------------------------------------------------- stores that overlap

  // The pending slots a store to slot n makes unusable.
  function Hit(pending: map<nat, Kind>, n: nat, k: Kind): set<nat> {
    (if Wide(k) && n + 1 in pending then {n + 1} else {})
    + (if n > 0 && n - 1 in pending && Wide(pending[n - 1]) then {n - 1} else {})
  }

  // The pending slots whose value an overlapping store has destroyed since.
  function Dead(code: seq<Instr>): set<nat> {
    if code == [] then {}
    else
      var before := code[..|code| - 1];
      match code[|code| - 1]
      case Store(k, n) => Dead(before) + Hit(ContextAfter(before).pending, n, k) - {n}
      case Iinc(n, _) => Dead(before) - {n}
      case LabelMark(_) => {}
      case LineMark(_, _) => {}
      case Jump(_, _) => {}
      case _ => Dead(before)
  }

  lemma {:induction false} DeadIsPending(code: seq<Instr>)
    ensures Dead(code) <= ContextAfter(code).pending.Keys
    decreases |code|
  {
    if code != [] {
      DeadIsPending(code[..|code| - 1]);
    }
  }

  // Pending slots hold values of their kinds, except the dead ones, which hold nothing.
  ghost predicate LocalsAgree(code: seq<Instr>, locals: Locals) {
    forall n :: n in ContextAfter(code).pending ==>
      if n in Dead(code) then n !in locals else n in locals && KindOf(locals[n]) == ContextAfter(code).pending[n]
  }

  lemma AgreeAfter(env: Env, code: seq<Instr>, pc: nat, f: Frame)
    requires pc < |code| && LocalsAgree(code[..pc], f.locals) && Exec(env, code[pc], f).Fall?
    ensures LocalsAgree(code[..pc + 1], Exec(env, code[pc], f).frame.locals)
  {
    hide Shuffle;
    hide PopArgs;
    var next := code[..pc + 1];
    assert next[..|next| - 1] == code[..pc];
    if !code[pc].Store? && !code[pc].Iinc? {
      KeepsLocals(env, code[pc], f);
    }
  }

  lemma KeepsLocals(env: Env, i: Instr, f: Frame)
    requires Exec(env, i, f).Fall? && !i.Store? && !i.Iinc?
    ensures Exec(env, i, f).frame.locals == f.locals
  {
    hide Shuffle;
    hide PopArgs;
  }

  lemma LandingAgrees(code: seq<Instr>, l: Label, locals: Locals)
    requires FindLabel(code, l).Some?
    ensures LocalsAgree(code[..FindLabel(code, l).value + 1], locals)
  {
    var p := FindLabel(code, l).value;
    NothingPendingAfterCapture(code[..p + 1]);
  }

  ghost predicate StateAgrees(m: Method, s: State) {
    s.At? && s.pc <= |m.code| ==> LocalsAgree(m.code[..s.pc], s.frame.locals)
  }

  lemma StepAgrees(env: Env, m: Method, s: State)
    requires StateAgrees(m, s)
    ensures StateAgrees(m, Step(env, m, s))
  {
    hide Exec;
    hide LocalsAgree;
    if s.At? && s.pc < |m.code| {
      var e := Exec(env, m.code[s.pc], s.frame);
      if e.Fall? {
        AgreeAfter(env, m.code, s.pc, s.frame);
      } else {
        var l := Landing(env, m, s.pc, e);
        if l.Some? && FindLabel(m.code, l.value).Some? {
          LandingAgrees(m.code, l.value, e.frame.locals);
        }
      }
    }
  }

  lemma {:induction false} RunAgrees(env: Env, m: Method, n: nat, s: State)
    requires StateAgrees(m, s)
    ensures StateAgrees(m, Run(env, m, n, s))
  {
    hide StateAgrees;
    hide Step;
    if n > 0 {
      StepAgrees(env, m, s);
      RunAgrees(env, m, n - 1, Step(env, m, s));
    }
  }

  // No captured slot has been destroyed by an overlapping store.
  predicate NoOverlap(table: VariableTable, code: seq<Instr>, pc: nat)
    requires pc < |code|
  {
    Dead(code[..pc]) <= DeclaredHere(table, code, pc).Keys + (if table.inConstructor then {0} else {})
  }

  // The slots whose definitions start here hold values of the declared kinds.
  predicate DeclaredHold(table: VariableTable, code: seq<Instr>, pc: nat, locals: Locals)
    requires pc < |code|
  {
    var d := DeclaredHere(table, code, pc);
    Readable(if table.inConstructor then d - {0} else d, locals)
  }

  lemma CapturedSlots(cfg: Config, table: VariableTable, code: seq<Instr>, pc: nat, n: nat)
    requires cfg.variables == Some(table) && pc < |code| && CapturePoint(code[pc])
    ensures var ctx, d := ContextAfter(code[..pc]), DeclaredHere(table, code, pc);
            var slots := Captured(cfg, ctx, code[pc]);
            && (n in slots <==> (n in ctx.pending || n in d) && !(table.inConstructor && n == 0))
            && (n in slots ==> slots[n] == if n in d then d[n] else ctx.pending[n])
  {
    hide ContextAfter;
  }

  lemma ReadableExactly(cfg: Config, table: VariableTable, code: seq<Instr>, pc: nat, locals: Locals)
    requires cfg.variables == Some(table) && pc < |code| && CapturePoint(code[pc]) && LocalsAgree(code[..pc], locals)
    ensures Readable(Captured(cfg, ContextAfter(code[..pc]), code[pc]), locals)
            <==> NoOverlap(table, code, pc) && DeclaredHold(table, code, pc, locals)
  {
    hide ContextAfter;
    hide Captured;
    hide DeclaredHere;
    hide Dead;
    DeadIsPending(code[..pc]);
    var ctx := ContextAfter(code[..pc]);
    var slots := Captured(cfg, ctx, code[pc]);
    var d := DeclaredHere(table, code, pc);
    forall n: nat
      ensures n in slots <==> (n in ctx.pending || n in d) && !(table.inConstructor && n == 0)
      ensures n in slots ==> slots[n] == if n in d then d[n] else ctx.pending[n]
    {
      CapturedSlots(cfg, table, code, pc, n);
    }
    if Readable(slots, locals) {
      forall n | n in Dead(code[..pc])
        ensures n in d.Keys + (if table.inConstructor then {0} else {})
      {
        assert n in ctx.pending;
      }
    }
  }

  /** With variables captured and calls left alone, the rewritten method stops working
      exactly when the original reaches a capture point at which a pending slot has been
      overlapped by a later store, or a declared slot does not hold its declared kind. */
  lemma VariableCaptureExactly(env: Env, cfg: Config, table: VariableTable, m: Method, s: State, t: seq<Event>)
    requires cfg.variables == Some(table) && cfg.collections.None?
    requires OriginalMethod(cfg, m) && s.At? && s.pc == 0 && NeverWrong(env, m, s)
    ensures NeverWrong(env, TransformMethod(cfg, m), Image(cfg, m, s, t)) <==> CapturesValid(env, table, m, s)
  {
    hide Run;
    hide CaptureValid;
    hide SafeAt;
    WorksExactlyWhenSafe(env, cfg, m, s, t);
    assert m.code[..0] == [];
    assert StateAgrees(m, s);
    forall n: nat
      ensures SafeAt(env, cfg, m, Run(env, m, n, s)) <==> CaptureValid(table, m, Run(env, m, n, s))
    {
      RunAgrees(env, m, n, s);
      SafeExactly(env, cfg, table, m, Run(env, m, n, s));
    }
  }

  ghost predicate CapturesValid(env: Env, table: VariableTable, m: Method, s: State) {
    forall n: nat :: CaptureValid(table, m, Run(env, m, n, s))
  }

  ghost predicate CaptureValid(table: VariableTable, m: Method, s: State) {
    s.At? && s.pc < |m.code| && CapturePoint(m.code[s.pc]) ==>
      NoOverlap(table, m.code, s.pc) && DeclaredHold(table, m.code, s.pc, s.frame.locals)
  }

  lemma SafeExactly(env: Env, cfg: Config, table: VariableTable, m: Method, s: State)
    requires cfg.variables == Some(table) && cfg.collections.None? && StateAgrees(m, s)
    ensures SafeAt(env, cfg, m, s) <==> CaptureValid(table, m, s)
  {
    hide Exec;
    hide LocalsAgree;
    hide NoOverlap;
    hide DeclaredHold;
    if s.At? && s.pc < |m.code| {
      if CapturePoint(m.code[s.pc]) {
        ReadableExactly(cfg, table, m.code, s.pc, s.frame.locals);
      } else {
        assert Captured(cfg, ContextAfter(m.code[..s.pc]), m.code[s.pc]) == map[];
      }
    }
  }

  // Every slot declared to start here was stored with its declared kind since the last
  // capture point, and not overlapped since.
  predicate DeclaredStored(table: VariableTable, code: seq<Instr>, pc: nat)
    requires pc < |code|
  {
    var ctx, d := ContextAfter(code[..pc]), DeclaredHere(table, code, pc);
    forall n :: n in d ==>
      (table.inConstructor && n == 0) || (n in ctx.pending && ctx.pending[n] == d[n] && n !in Dead(code[..pc]))
  }

  // The first instruction is executed on entry only: a jump continues behind a label.
  lemma {:induction false} EnteredOnce(env: Env, m: Method, n: nat, s: State)
    requires n > 0 || (s.At? ==> s.pc > 0)
    ensures Run(env, m, n, s).At? ==> Run(env, m, n, s).pc > 0
    decreases n
  {
    hide Exec;
    hide FindHandler;
    if n > 0 {
      EnteredOnce(env, m, n - 1, Step(env, m, s));
    }
  }

  lemma StoredHolds(table: VariableTable, code: seq<Instr>, pc: nat, locals: Locals)
    requires pc < |code| && DeclaredStored(table, code, pc) && LocalsAgree(code[..pc], locals)
    ensures DeclaredHold(table, code, pc, locals)
  {
    hide ContextAfter;
    hide Dead;
    hide DeclaredHere;
  }

  /** A check on the code alone: a body is captured soundly when every slot declared behind
      its first instruction was just stored with its declared kind, those declared at the
      first instruction, the parameters, hold theirs on entry, and no pending slot is overlapped. */
  lemma WithoutOverlapsSound(env: Env, cfg: Config, table: VariableTable, m: Method, s: State, t: seq<Event>)
    requires cfg.variables == Some(table) && cfg.collections.None?
    requires OriginalMethod(cfg, m) && s.At? && s.pc == 0 && NeverWrong(env, m, s)
    requires m.code != [] ==> DeclaredHold(table, m.code, 0, s.frame.locals)
    requires forall pc :: 0 < pc < |m.code| && CapturePoint(m.code[pc]) ==> DeclaredStored(table, m.code, pc)
    requires forall pc :: 0 <= pc < |m.code| && CapturePoint(m.code[pc]) ==> NoOverlap(table, m.code, pc)
    ensures NeverWrong(env, TransformMethod(cfg, m), Image(cfg, m, s, t))
  {
    hide Step;
    hide NeverWrong;
    hide NoOverlap;
    hide DeclaredStored;
    hide DeclaredHold;
    hide LocalsAgree;
    VariableCaptureExactly(env, cfg, table, m, s, t);
    EntryAgrees(m, s);
    forall n: nat
      ensures CaptureValid(table, m, Run(env, m, n, s))
    {
      var e := Run(env, m, n, s);
      RunAgrees(env, m, n, s);
      if n > 0 { EnteredOnce(env, m, n, s); }
      if e.At? && 0 < e.pc < |m.code| && CapturePoint(m.code[e.pc]) {
        StoredHolds(table, m.code, e.pc, e.frame.locals);
      }
    }
  }

  lemma EntryAgrees(m: Method, s: State)
    requires s.At? && s.pc == 0
    ensures StateAgrees(m, s)
  {
    assert m.code[..0] == [];
  }

  // A static method with a long parameter in slots 0 and 1 and an int in slot 2: the long is
  // copied to slots 3 and 4, then the int to slot 4, before the next label.
  function OverlappingCode(): seq<Instr> {
    [Load(LongKind, 0), Store(LongKind, 3), Load(IntKind, 2), Store(IntKind, 4), LabelMark(1), Insn(Return)]
  }

  function VariablesOnly(): Config {
    Config(None, None, None, false, None, Some(VariableTable(map[], false)), None)
  }

  // The states the original body goes through.
  function OverlappingState(f: Frame, a: int, b: int, n: nat): State {
    var l3 := map[0 := Long(a), 2 := Int(b), 3 := Long(a)];
    var l4 := map[0 := Long(a), 2 := Int(b), 4 := Int(b)];
    if n == 0 then At(0, f)
    else if n == 1 then At(1, f.(stack := Push(Long(a), Empty)))
    else if n == 2 then At(2, f.(locals := l3))
    else if n == 3 then At(3, f.(locals := l3, stack := Push(Int(b), Empty)))
    else if n == 4 then At(4, f.(locals := l4))
    else if n == 5 then At(5, f.(locals := l4))
    else Finished(None, f.heap, f.trace)
  }

  lemma OverlappingStep(env: Env, m: Method, f: Frame, a: int, b: int, n: nat)
    requires m.code == OverlappingCode() && f.stack == Empty && f.locals == map[0 := Long(a), 2 := Int(b)] && n < 6
    ensures Step(env, m, OverlappingState(f, a, b, n)) == OverlappingState(f, a, b, n + 1)
  {
    hide FindHandler;
    hide ExecInsn;
    if n == 1 {
      assert StoreLocal(f.locals, 3, Long(a)) == map[0 := Long(a), 2 := Int(b), 3 := Long(a)];
    } else if n == 3 {
      assert StoreLocal(map[0 := Long(a), 2 := Int(b), 3 := Long(a)], 4, Int(b)) == map[0 := Long(a), 2 := Int(b), 4 := Int(b)];
    } else if n == 5 {
      assert ExecInsn(env, Return, OverlappingState(f, a, b, 5).frame) == Exit(None, OverlappingState(f, a, b, 5).frame) by { ReturnExits(env, OverlappingState(f, a, b, 5).frame); }
    }
  }

  lemma ReturnExits(env: Env, f: Frame)
    ensures ExecInsn(env, Return, f) == Exit(None, f)
  {
  }

  lemma {:induction false} OverlappingRun(env: Env, m: Method, f: Frame, a: int, b: int, n: nat)
    requires m.code == OverlappingCode() && f.stack == Empty && f.locals == map[0 := Long(a), 2 := Int(b)] && n <= 6
    ensures Run(env, m, n, At(0, f)) == OverlappingState(f, a, b, n)
  {
    hide Step;
    if n > 0 {
      OverlappingRun(env, m, f, a, b, n - 1);
      OverlappingStep(env, m, f, a, b, n - 1);
      OneStepMore(env, m, n - 1, At(0, f));
    }
  }

  lemma OneStepMore(env: Env, m: Method, n: nat, s: State)
    ensures Run(env, m, n + 1, s) == Step(env, m, Run(env, m, n, s))
  {
    RunAdds(env, m, n, 1, s);
    var e := Run(env, m, n, s);
    assert Run(env, m, 1, e) == Run(env, m, 0, Step(env, m, e));
  }

  /** Overlapping stores do break rewriting: this method returns, its rewritten form does not work. */
  lemma OverlapBreaks(env: Env, f: Frame, a: int, b: int)
    requires f.stack == Empty && f.locals == map[0 := Long(a), 2 := Int(b)]
    ensures var m := Method(OverlappingCode(), []);
            Returns(env, m, At(0, f), None, f.heap)
            && !NeverWrong(env, TransformMethod(VariablesOnly(), m), Image(VariablesOnly(), m, At(0, f), f.trace))
  {
    var m := Method(OverlappingCode(), []);
    var s := At(0, f);
    OverlappingRun(env, m, f, a, b, 6);
    OverlappingRun(env, m, f, a, b, 4);
    var end := Run(env, m, 6, s);
    assert end.Finished? && end.result == None && end.heap == f.heap;
    hide Exec;
    hide Transform;
    hide Step;
    hide NoOverlap;
    hide Dead;
    hide ContextAfter;
    forall n: nat
      ensures Run(env, m, n, s) != Wrong
    {
      if n >= 6 { StoppedLater(env, m, 6, n, s); } else { OverlappingRun(env, m, f, a, b, n); }
    }
    var table := VariableTable(map[], false);
    VariableCaptureExactly(env, VariablesOnly(), table, m, s, f.trace);
    OverlapFound();
    assert !CaptureValid(table, m, Run(env, m, 4, s));
  }

  lemma OverlapFound()
    ensures !NoOverlap(VariableTable(map[], false), OverlappingCode(), 4)
  {
    var c := OverlappingCode();
    assert c[..4][..3] == c[..3] && c[..3][..2] == c[..2] && c[..2][..1] == c[..1] && c[..1][..0] == [];
    assert ContextAfter(c[..1]).pending == map[];
    assert ContextAfter(c[..2]).pending == map[3 := LongKind];
    assert ContextAfter(c[..3]).pending == map[3 := LongKind];
    assert 3 in Dead(c[..4]);
  }
}
