/**
 What the method visitors write for each instruction they visit. The visitors form one
 chain (map calls, collection calls, array stores, field stores, local variables, executed
 lines, stack depth); `Config` says which of them take part.
 */
module Instrumentation {
  import opened Wrappers
  import opened Jvm

  // For each label number the slots whose declared range starts there, and whether the
  // method is a constructor, whose slot 0 is never captured.
  datatype VariableTable = VariableTable(declared: map<nat, map<nat, Kind>>, inConstructor: bool)

  datatype FlowTable = FlowTable(classIndex: int, methodIndex: int)

  datatype Config = Config(
    depth: Option<Option<Label>>,
    maps: Option<set<string>>,
    collections: Option<set<string>>,
    arrays: bool,
    fields: Option<set<string>>,
    variables: Option<VariableTable>,
    flow: Option<FlowTable>)

  // What the visitors remember between instructions: the slots stored since the last
  // capture point and the numbers of the labels seen so far.
  datatype Context = Context(pending: map<nat, Kind>, numbers: map<Label, nat>)

  function Advance(ctx: Context, i: Instr): Context {
    match i
    case Store(k, n) => ctx.(pending := ctx.pending[n := k])
    case Iinc(n, _) => ctx.(pending := ctx.pending[n := IntKind])
    case LabelMark(l) => Context(map[], ctx.numbers[l := |ctx.numbers|])
    case LineMark(_, _) => ctx.(pending := map[])
    case Jump(_, _) => ctx.(pending := map[])
    case _ => ctx
  }

  function ContextAfter(code: seq<Instr>): Context {
    if code == [] then Context(map[], map[])
    else Advance(ContextAfter(code[..|code| - 1]), code[|code| - 1])
  }

  // ---------------------------------------------------------------- stack shuffles

  function DuplicateSecond(wideTop: bool): seq<Instr> {
    if wideTop then [Insn(Dup2X1), Insn(Pop2), Insn(DupX2), Insn(DupX2), Insn(Pop)]
    else [Insn(DupX1), Insn(Pop), Insn(DupX1), Insn(DupX1), Insn(Pop)]
  }

  function DuplicateThird(): seq<Instr> {
    [Insn(DupX2), Insn(Pop), Insn(Swap), Insn(Dup), Insn(Dup2X2), Insn(Pop), Insn(Pop), Insn(Swap)]
  }

  // Leaves an index above the copied array reference; it is popped after the store.
  function DuplicateWideArray(): seq<Instr> {
    [Insn(Dup2X2), Insn(Pop2), Insn(Dup2X2), Insn(Dup2X2), Insn(Pop), Insn(Pop)]
  }

  // ---------------------------------------------------------------- pending local variables

  lemma {:induction false} MinKeyExists(s: set<nat>, x: nat)
    requires x in s
    ensures exists n :: n in s && forall k :: k in s ==> n <= k
    decreases x
  {
    if y: nat :| y in s && y < x {
      MinKeyExists(s, y);
    }
  }

  function MinKey(s: set<nat>): (n: nat)
    requires s != {}
    ensures n in s && forall k :: k in s ==> n <= k
  {
    var x :| x in s;
    MinKeyExists(s, x);
    var n :| n in s && forall k :: k in s ==> n <= k;
    n
  }

  // Load, slot number and call for each slot; the order of the slots does not matter to
  // the recorder and is fixed here to ascending.
  function CaptureCode(slots: map<nat, Kind>): seq<Instr> {
    if slots == map[] then []
    else
      var n := MinKey(slots.Keys);
      [Load(slots[n], n), LdcInt(n), CallHook(VariableHook(slots[n]))] + CaptureCode(slots - {n})
  }

  function Declared(table: VariableTable, number: nat): map<nat, Kind> {
    if number in table.declared then table.declared[number] else map[]
  }

  // The slots captureState reports when instruction i is visited.
  function Captured(cfg: Config, ctx: Context, i: Instr): map<nat, Kind> {
    match cfg.variables
    case None => map[]
    case Some(table) =>
      var all :=
        match i
        case LabelMark(_) => ctx.pending + Declared(table, |ctx.numbers|)
        case LineMark(_, _) => ctx.pending
        case Jump(_, _) => ctx.pending
        case _ => map[];
      if table.inConstructor then all - {0} else all
  }

  // ---------------------------------------------------------------- calls on maps and collections

  datatype CallPlan = Untouched | CopyTop | CopySecond(wideTop: bool) | CopyThird | CopyResult | Lost

  datatype OwnerType = OneSlot | TwoSlots | Malformed

  // An internal class name read as a field descriptor: J and D are the two-slot types, and
  // a name starting with L has no closing semicolon, which makes the reader fail.
  function OwnerTypeOf(owner: string): OwnerType {
    if owner == "" then Malformed
    else if owner[0] == 'J' || owner[0] == 'D' then TwoSlots
    else if owner[0] == 'L' && ';' !in owner then Malformed
    else OneSlot
  }

  predicate OneSlotArgs(m: MethodRef, n: nat) {
    |m.args| == n && forall k :: 0 <= k < n ==> !Wide(m.args[k])
  }

  predicate StaticCollections(m: MethodRef) {
    m.isStatic && m.owner == "java/util/Collections"
    && m.name in {"addAll", "remove", "removeAll", "fill", "copy", "replaceAll", "reverse", "shuffle", "sort"}
  }

  predicate ArraysAsList(m: MethodRef) {
    m.isStatic && m.owner == "java/util/Arrays" && m.name == "asList"
  }

  function CollectionPlan(types: set<string>, m: MethodRef): CallPlan {
    if StaticCollections(m) then
      if OneSlotArgs(m, 1) then CopyTop else if OneSlotArgs(m, 2) then CopySecond(false) else Untouched
    else if ArraysAsList(m) then CopyResult
    else if m.isStatic || m.owner !in types then Untouched
    else if m.name == "<init>" then CopyResult
    else if OneSlotArgs(m, 1) then
      match OwnerTypeOf(m.owner)
      case OneSlot => CopySecond(false)
      case TwoSlots => CopySecond(true)
      case Malformed => Lost
    else if OneSlotArgs(m, 2) then CopyThird
    else Untouched
  }

  function CollectionPlanOf(cfg: Config, m: MethodRef): CallPlan {
    match cfg.collections
    case None => Untouched
    case Some(types) => CollectionPlan(types, m)
  }

  predicate MapCall(cfg: Config, m: MethodRef) {
    cfg.maps.Some? && !m.isStatic && m.owner in cfg.maps.value && OneSlotArgs(m, 2)
  }

  function CopyCode(plan: CallPlan): seq<Instr> {
    match plan
    case CopyTop => [Insn(Dup)]
    case CopySecond(w) => DuplicateSecond(w)
    case CopyThird => DuplicateThird()
    case _ => []
  }

  function CollectionAfter(plan: CallPlan, m: MethodRef): seq<Instr> {
    if plan.Untouched? || plan.Lost? then []
    else
      (if plan.CopyResult? then [Insn(Dup)] else [])
      + (if m.ret.Some? then [Insn(Swap)] else [])
      + [CallHook(CollectionHook)]
  }

  function MapAfter(cfg: Config, m: MethodRef): seq<Instr> {
    if !MapCall(cfg, m) then []
    else (if m.ret.Some? then [Insn(DupX1), Insn(Pop)] else []) + [CallHook(MapHook)]
  }

  // ---------------------------------------------------------------- the code written around an instruction

  predicate TrackedField(cfg: Config, field: FieldRef) {
    cfg.fields.Some? && field.name + ":" + field.desc !in cfg.fields.value
  }

  function LabelNumber(ctx: Context, l: Label): nat {
    if l in ctx.numbers then ctx.numbers[l] else 0
  }

  function LineCode(flow: FlowTable, line: int, number: nat): seq<Instr> {
    [Sipush(flow.classIndex), Sipush(flow.methodIndex), Sipush(line), Sipush(number), CallHook(LineHook)]
  }

  function Before(cfg: Config, ctx: Context, i: Instr): seq<Instr> {
    match i
    case Insn(op) =>
      if IsArrayStore(op) && cfg.arrays then
        if Wide(ElementKind(op)) then DuplicateWideArray() else DuplicateThird()
      else if IsExit(op) then
        (if cfg.flow.Some? then [CallHook(DumpHook)] else [])
        + (if cfg.depth.Some? then [CallHook(DecreaseHook)] else [])
      else []
    case PutField(field) => if TrackedField(cfg, field) then DuplicateSecond(Wide(FieldKind(field.desc))) else []
    case Invoke(m) => (if MapCall(cfg, m) then DuplicateThird() else []) + CopyCode(CollectionPlanOf(cfg, m))
    case LabelMark(_) => CaptureCode(Captured(cfg, ctx, i))
    case Jump(_, _) => CaptureCode(Captured(cfg, ctx, i))
    case LineMark(line, start) =>
      if cfg.flow.Some? then LineCode(cfg.flow.value, line, LabelNumber(ctx, start)) else []
    case _ => []
  }

  // What follows a label is reached by falling through it and by jumping to it alike.
  function AfterLabel(cfg: Config, l: Label): seq<Instr> {
    if cfg.depth == Some(Some(l)) then [CallHook(FetchHook)] else []
  }

  function After(cfg: Config, ctx: Context, i: Instr): seq<Instr> {
    match i
    case Insn(op) =>
      if IsArrayStore(op) && cfg.arrays then
        (if Wide(ElementKind(op)) then [Insn(Pop)] else []) + [CallHook(ArrayHook)]
      else []
    case PutField(field) =>
      if TrackedField(cfg, field)
      then [Insn(Dup), LdcText(field.name), Insn(Swap), GetField(field), CallHook(FieldHook(FieldKind(field.desc)))]
      else []
    case Invoke(m) => CollectionAfter(CollectionPlanOf(cfg, m), m) + MapAfter(cfg, m)
    case LineMark(_, _) => CaptureCode(Captured(cfg, ctx, i))
    case LabelMark(l) => AfterLabel(cfg, l)
    case _ => []
  }

  // The visitor fails on this instruction and the instruction itself is not written.
  predicate Dropped(cfg: Config, i: Instr) {
    i.Invoke? && CollectionPlanOf(cfg, i.callee).Lost?
  }

  function Block(cfg: Config, ctx: Context, i: Instr): seq<Instr> {
    Before(cfg, ctx, i) + (if Dropped(cfg, i) then [] else [i]) + After(cfg, ctx, i)
  }

  function Prologue(cfg: Config): seq<Instr> {
    if cfg.depth.Some? then [CallHook(IncreaseHook)] else []
  }

  // The rewritten method body.
  function Transform(cfg: Config, code: seq<Instr>): seq<Instr> {
    if code == [] then Prologue(cfg)
    else
      var n := |code| - 1;
      Transform(cfg, code[..n]) + Block(cfg, ContextAfter(code[..n]), code[n])
  }

  function TransformMethod(cfg: Config, m: Method): Method {
    Method(Transform(cfg, m.code), m.handlers)
  }
}
