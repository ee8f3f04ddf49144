/**
 The method visitors as objects that write instructions one after another to the next
 visitor's input, and the chain that runs them over a method body.
 */
module Visitors {
  import opened Wrappers
  import opened Jvm
  import opened Instrumentation
  import opened Fusion
  import Trace

  function NoMemory(): Context {
    Context(map[], map[])
  }

  function DepthOnly(catchBlock: Option<Label>): Config {
    Nothing().(depth := Some(catchBlock))
  }

  function MapsOnly(types: set<string>): Config {
    Nothing().(maps := Some(types))
  }

  function CollectionsOnly(types: set<string>): Config {
    Nothing().(collections := Some(types))
  }

  function ArraysOnly(): Config {
    Nothing().(arrays := true)
  }

  function FieldsOnly(synthetic: set<string>): Config {
    Nothing().(fields := Some(synthetic))
  }

  function VariablesOnly(table: VariableTable): Config {
    Nothing().(variables := Some(table))
  }

  function FlowOnly(flow: FlowTable): Config {
    Nothing().(flow := Some(flow))
  }

  // The instructions written so far.
  class CodeWriter {
    var code: seq<Instr>

    constructor ()
      ensures code == []
    {
      code := [];
    }

    method Emit(i: Instr)
      modifies this
      ensures code == old(code) + [i]
    {
      code := code + [i];
    }
  }

  // ---------------------------------------------------------------- shared stack shuffles

  method EmitDuplicateSecond(wideTop: bool, mv: CodeWriter)
    modifies mv
    ensures mv.code == old(mv.code) + DuplicateSecond(wideTop)
  {
    if wideTop {
      mv.Emit(Insn(Dup2X1));
      mv.Emit(Insn(Pop2));
      mv.Emit(Insn(DupX2));
      mv.Emit(Insn(DupX2));
      mv.Emit(Insn(Pop));
    } else {
      mv.Emit(Insn(DupX1));
      mv.Emit(Insn(Pop));
      mv.Emit(Insn(DupX1));
      mv.Emit(Insn(DupX1));
      mv.Emit(Insn(Pop));
    }
  }

  method EmitDuplicateThird(mv: CodeWriter)
    modifies mv
    ensures mv.code == old(mv.code) + DuplicateThird()
  {
    mv.Emit(Insn(DupX2));
    mv.Emit(Insn(Pop));
    mv.Emit(Insn(Swap));
    mv.Emit(Insn(Dup));
    mv.Emit(Insn(Dup2X2));
    mv.Emit(Insn(Pop));
    mv.Emit(Insn(Pop));
    mv.Emit(Insn(Swap));
  }

  method EmitDuplicateWideArray(mv: CodeWriter)
    modifies mv
    ensures mv.code == old(mv.code) + DuplicateWideArray()
  {
    mv.Emit(Insn(Dup2X2));
    mv.Emit(Insn(Pop2));
    mv.Emit(Insn(Dup2X2));
    mv.Emit(Insn(Dup2X2));
    mv.Emit(Insn(Pop));
    mv.Emit(Insn(Pop));
  }

  // ---------------------------------------------------------------- array stores

  class CaptureArrayModificationMethodVisitor {
    const mv: CodeWriter

    constructor (mv: CodeWriter)
      ensures this.mv == mv
    {
      this.mv := mv;
    }

    static predicate CategoryTwoArrayModification(op: Opcode) {
      op == Dastore || op == Lastore
    }

    static predicate CategoryOneArrayModification(op: Opcode) {
      op == Bastore || op == Iastore || op == Aastore || op == Castore || op == Fastore || op == Sastore
    }

    method VisitInsn(op: Opcode)
      modifies mv
      ensures mv.code == old(mv.code) + Block(ArraysOnly(), NoMemory(), Insn(op))
      ensures op !in {Iastore, Lastore, Fastore, Dastore, Aastore, Bastore, Castore, Sastore} ==> mv.code == old(mv.code) + [Insn(op)]
    {
      StoreBlock(op);
      hide Block;
      hide DuplicateThird;
      hide DuplicateWideArray;
      if CategoryOneArrayModification(op) {
        EmitDuplicateThird(mv);
      }
      if CategoryTwoArrayModification(op) {
        EmitDuplicateWideArray(mv);
      }
      mv.Emit(Insn(op));
      if CategoryOneArrayModification(op) || CategoryTwoArrayModification(op) {
        if CategoryTwoArrayModification(op) {
          mv.Emit(Insn(Pop));
        }
        mv.Emit(CallHook(ArrayHook));
      }
    }

    method Visit(i: Instr)
      modifies mv
      ensures mv.code == old(mv.code) + Block(ArraysOnly(), NoMemory(), i)
    {
      match i
      case Insn(op) => VisitInsn(op);
      case _ =>
        PassedOn(ArraysOnly(), NoMemory(), i);
        mv.Emit(i);
    }
  }

  lemma StoreBlock(op: Opcode)
    ensures var wide := op == Dastore || op == Lastore;
            Block(ArraysOnly(), NoMemory(), Insn(op)) ==
            if IsArrayStore(op) then
              (if wide then DuplicateWideArray() else DuplicateThird())
              + [Insn(op)] + ((if wide then [Insn(Pop)] else []) + [CallHook(ArrayHook)])
            else [Insn(op)]
  {
    hide DuplicateThird;
    hide DuplicateWideArray;
    if !IsArrayStore(op) {
      PassedOn(ArraysOnly(), NoMemory(), Insn(op));
    }
  }

  // Instructions a visitor does not override are passed on.
  lemma PassedOn(cfg: Config, ctx: Context, i: Instr)
    requires Before(cfg, ctx, i) == [] && After(cfg, ctx, i) == [] && !Dropped(cfg, i)
    ensures Block(cfg, ctx, i) == [i]
  {
    assert [] + [i] + [] == [i];
  }

  // ---------------------------------------------------------------- field stores

  class CaptureFieldAssignmentMethodVisitor {
    const mv: CodeWriter
    const syntheticFields: set<string>

    constructor (mv: CodeWriter, syntheticFields: set<string>)
      ensures this.mv == mv && this.syntheticFields == syntheticFields
    {
      this.mv := mv;
      this.syntheticFields := syntheticFields;
    }

    method VisitPutField(field: FieldRef)
      modifies mv
      ensures mv.code == old(mv.code) + Block(FieldsOnly(syntheticFields), NoMemory(), PutField(field))
    {
      var ignored := field.name + ":" + field.desc in syntheticFields;
      if !ignored {
        EmitDuplicateSecond(field.desc == "J" || field.desc == "D", mv);
      }
      mv.Emit(PutField(field));
      if !ignored {
        mv.Emit(Insn(Dup));
        mv.Emit(LdcText(field.name));
        mv.Emit(Insn(Swap));
        mv.Emit(GetField(field));
        mv.Emit(CallHook(FieldHook(FieldKind(field.desc))));
      }
    }

    method Visit(i: Instr)
      modifies mv
      ensures mv.code == old(mv.code) + Block(FieldsOnly(syntheticFields), NoMemory(), i)
    {
      match i
      case PutField(field) => VisitPutField(field);
      case _ =>
        PassedOn(FieldsOnly(syntheticFields), NoMemory(), i);
        mv.Emit(i);
    }
  }

  // ---------------------------------------------------------------- local variables

  class VariableStateCapturer {
    var modifiedVariablesByIndex: map<nat, Kind>

    constructor ()
      ensures modifiedVariablesByIndex == map[]
    {
      modifiedVariablesByIndex := map[];
    }

    method TrackOnVariableModification(index: nat, kind: Kind)
      modifies this
      ensures modifiedVariablesByIndex == old(modifiedVariablesByIndex)[index := kind]
    {
      modifiedVariablesByIndex := modifiedVariablesByIndex[index := kind];
    }

    method CaptureState(mv: CodeWriter, inConstructor: bool)
      modifies this, mv
      ensures mv.code == old(mv.code) + CaptureCode(if inConstructor then old(modifiedVariablesByIndex) - {0}
                                                    else old(modifiedVariablesByIndex))
      ensures modifiedVariablesByIndex == map[]
    {
      var entries := if inConstructor then modifiedVariablesByIndex - {0} else modifiedVariablesByIndex;
      ghost var all := CaptureCode(entries);
      while entries != map[]
        invariant old(mv.code) + all == mv.code + CaptureCode(entries)
        invariant modifiedVariablesByIndex == old(modifiedVariablesByIndex)
        decreases |entries|
      {
        var index := MinKey(entries.Keys);
        mv.Emit(Load(entries[index], index));
        mv.Emit(LdcInt(index));
        mv.Emit(CallHook(VariableHook(entries[index])));
        entries := entries - {index};
      }
      modifiedVariablesByIndex := map[];
    }
  }

  lemma MoveOver(m: map<nat, Kind>, d: map<nat, Kind>, k: nat)
    requires k in d
    ensures m[k := d[k]] + (d - {k}) == m + d
  {
  }

  // The variable types, each with the instructions that store it.
  predicate StoresType(t: Kind, i: Instr) {
    match i
    case Store(k, _) => k == t
    case Iinc(_, _) => t == IntKind
    case _ => false
  }

  method AfterVariableUsage(i: Instr, index: nat, capturer: VariableStateCapturer)
    requires i.Store? || i.Iinc?
    modifies capturer
    ensures capturer.modifiedVariablesByIndex ==
            old(capturer.modifiedVariablesByIndex)[index := if i.Store? then i.kind else IntKind]
  {
    var types := [RefKind, IntKind, FloatKind, DoubleKind, LongKind];
    var kind := if i.Store? then i.kind else IntKind;
    for t := 0 to |types|
      invariant kind in types[..t] ==>
                capturer.modifiedVariablesByIndex == old(capturer.modifiedVariablesByIndex)[index := kind]
      invariant kind !in types[..t] ==> capturer.modifiedVariablesByIndex == old(capturer.modifiedVariablesByIndex)
    {
      if StoresType(types[t], i) {
        capturer.TrackOnVariableModification(index, types[t]);
      }
    }
    assert types[..|types|] == types;
    match kind {
      case RefKind => assert types[0] == kind;
      case IntKind => assert types[1] == kind;
      case FloatKind => assert types[2] == kind;
      case DoubleKind => assert types[3] == kind;
      case LongKind => assert types[4] == kind;
    }
  }

  class CaptureVariableAssignmentMethodVisitor {
    const mv: CodeWriter
    const table: VariableTable
    const capturer: VariableStateCapturer
    var labels: map<Label, nat>

    constructor (mv: CodeWriter, table: VariableTable)
      ensures this.mv == mv && this.table == table && fresh(capturer) && Memory() == NoMemory()
    {
      this.mv := mv;
      this.table := table;
      capturer := new VariableStateCapturer();
      labels := map[];
    }

    function Memory(): Context
      reads this, capturer
    {
      Context(capturer.modifiedVariablesByIndex, labels)
    }

    method VisitIincInsn(slot: nat, amount: int)
      modifies this, capturer, mv
      ensures mv.code == old(mv.code) + Block(VariablesOnly(table), old(Memory()), Iinc(slot, amount))
      ensures Memory() == Advance(old(Memory()), Iinc(slot, amount))
    {
      PassedOn(VariablesOnly(table), Memory(), Iinc(slot, amount));
      mv.Emit(Iinc(slot, amount));
      AfterVariableUsage(Iinc(slot, amount), slot, capturer);
    }

    method VisitStoreInsn(kind: Kind, slot: nat)
      modifies this, capturer, mv
      ensures mv.code == old(mv.code) + Block(VariablesOnly(table), old(Memory()), Store(kind, slot))
      ensures Memory() == Advance(old(Memory()), Store(kind, slot))
    {
      PassedOn(VariablesOnly(table), Memory(), Store(kind, slot));
      mv.Emit(Store(kind, slot));
      AfterVariableUsage(Store(kind, slot), slot, capturer);
    }

    method VisitLabel(l: Label)
      modifies this, capturer, mv
      ensures mv.code == old(mv.code) + Block(VariablesOnly(table), old(Memory()), LabelMark(l))
      ensures Memory() == Advance(old(Memory()), LabelMark(l))
    {
      ghost var before := Memory();
      labels := labels[l := |labels|];
      CaptureFromDeclarations(l);
      capturer.CaptureState(mv, table.inConstructor);
      mv.Emit(LabelMark(l));
      assert CaptureCode(Captured(VariablesOnly(table), before, LabelMark(l))) + [LabelMark(l)] + [] ==
             CaptureCode(Captured(VariablesOnly(table), before, LabelMark(l))) + [LabelMark(l)];
    }

    method CaptureFromDeclarations(start: Label)
      requires start in labels
      modifies capturer
      ensures capturer.modifiedVariablesByIndex ==
              old(capturer.modifiedVariablesByIndex) + Declared(table, labels[start])
    {
      var definitions := Declared(table, labels[start]);
      ghost var all := capturer.modifiedVariablesByIndex + definitions;
      while definitions != map[]
        invariant capturer.modifiedVariablesByIndex + definitions == all
        decreases |definitions|
      {
        var index := MinKey(definitions.Keys);
        MoveOver(capturer.modifiedVariablesByIndex, definitions, index);
        capturer.TrackOnVariableModification(index, definitions[index]);
        definitions := definitions - {index};
      }
    }

    method VisitLineNumber(line: int, start: Label)
      modifies this, capturer, mv
      ensures mv.code == old(mv.code) + Block(VariablesOnly(table), old(Memory()), LineMark(line, start))
      ensures Memory() == Advance(old(Memory()), LineMark(line, start))
    {
      hide CaptureCode;
      mv.Emit(LineMark(line, start));
      capturer.CaptureState(mv, table.inConstructor);
    }

    method VisitJumpInsn(cond: nat, l: Label)
      modifies this, capturer, mv
      ensures mv.code == old(mv.code) + Block(VariablesOnly(table), old(Memory()), Jump(cond, l))
      ensures Memory() == Advance(old(Memory()), Jump(cond, l))
    {
      hide CaptureCode;
      capturer.CaptureState(mv, table.inConstructor);
      mv.Emit(Jump(cond, l));
    }

    method Visit(i: Instr)
      modifies this, capturer, mv
      ensures mv.code == old(mv.code) + Block(VariablesOnly(table), old(Memory()), i)
      ensures Memory() == Advance(old(Memory()), i)
    {
      match i
      case Iinc(slot, amount) => VisitIincInsn(slot, amount);
      case Store(kind, slot) => VisitStoreInsn(kind, slot);
      case LabelMark(l) => VisitLabel(l);
      case LineMark(line, start) => VisitLineNumber(line, start);
      case Jump(cond, l) => VisitJumpInsn(cond, l);
      case _ =>
        PassedOn(VariablesOnly(table), Memory(), i);
        mv.Emit(i);
    }
  }

  // ---------------------------------------------------------------- executed lines

  class CaptureFlowMethodVisitor {
    const mv: CodeWriter
    const flow: FlowTable
    var labels: map<Label, nat>

    constructor (mv: CodeWriter, flow: FlowTable)
      ensures this.mv == mv && this.flow == flow && labels == map[]
    {
      this.mv := mv;
      this.flow := flow;
      labels := map[];
    }

    method VisitInsn(op: Opcode)
      modifies mv
      ensures mv.code == old(mv.code) + Block(FlowOnly(flow), Context(map[], labels), Insn(op))
      ensures mv.code == old(mv.code)
                + (if op in {Ireturn, Lreturn, Freturn, Dreturn, Areturn, Return, Athrow} then [CallHook(DumpHook)] else []) + [Insn(op)]
    {
      match op {
        case Areturn | Dreturn | Freturn | Ireturn | Lreturn | Return | Athrow => mv.Emit(CallHook(DumpHook));
        case _ =>
      }
      mv.Emit(Insn(op));
    }

    method VisitLabel(l: Label)
      modifies this, mv
      ensures mv.code == old(mv.code) + [LabelMark(l)]
      ensures labels == old(labels)[l := |old(labels)|]
    {
      labels := labels[l := |labels|];
      mv.Emit(LabelMark(l));
    }

    // The label of a line has been visited before it.
    method VisitLineNumber(line: int, start: Label)
      requires start in labels
      modifies mv
      ensures mv.code == old(mv.code) + LineCode(flow, line, labels[start]) + [LineMark(line, start)]
    {
      mv.Emit(Sipush(flow.classIndex));
      mv.Emit(Sipush(flow.methodIndex));
      mv.Emit(Sipush(line));
      mv.Emit(Sipush(labels[start]));
      mv.Emit(CallHook(LineHook));
      mv.Emit(LineMark(line, start));
    }

    method Visit(i: Instr)
      requires i.LineMark? ==> i.start in labels
      modifies this, mv
      ensures mv.code == old(mv.code) + Block(FlowOnly(flow), Context(map[], old(labels)), i)
      ensures labels == Advance(Context(map[], old(labels)), i).numbers
    {
      ghost var ctx := Context(map[], labels);
      match i
      case Insn(op) => VisitInsn(op);
      case LabelMark(l) =>
        NothingCaptured();
        PassedOn(FlowOnly(flow), ctx, i);
        VisitLabel(l);
      case LineMark(line, start) =>
        NothingCaptured();
        assert LineCode(flow, line, labels[start]) + [i] + [] == LineCode(flow, line, labels[start]) + [i];
        VisitLineNumber(line, start);
      case _ =>
        NothingCaptured();
        PassedOn(FlowOnly(flow), ctx, i);
        mv.Emit(i);
    }
  }

  // ---------------------------------------------------------------- collection and map calls

  lemma CollectionBlock(types: set<string>, m: MethodRef)
    ensures var plan := CollectionPlan(types, m);
            Block(CollectionsOnly(types), NoMemory(), Invoke(m)) ==
            CopyCode(plan) + (if plan.Lost? then [] else [Invoke(m)]) + CollectionAfter(plan, m)
    ensures CollectionPlan(types, m).Lost? ==>
            CopyCode(CollectionPlan(types, m)) == [] && CollectionAfter(CollectionPlan(types, m), m) == []
  {
    hide CollectionPlan;
    var plan := CollectionPlan(types, m);
    assert [] + CopyCode(plan) == CopyCode(plan) && CollectionAfter(plan, m) + [] == CollectionAfter(plan, m);
  }

  // Exactly the observed calls have a plan.
  lemma PlanExactly(types: set<string>, m: MethodRef)
    ensures CollectionPlan(types, m).Untouched? <==>
            !Trace.HelperCall(m) && !Trace.AsListCall(m) && !Trace.ConstructorCall(types, m) && !Trace.InstanceCall(types, m)
  {
  }

  // A plan changes what is written.
  lemma PlanShows(plan: CallPlan, m: MethodRef, code: seq<Instr>)
    ensures code + (CopyCode(plan) + (if plan.Lost? then [] else [Invoke(m)]) + CollectionAfter(plan, m)) == code + [Invoke(m)]
            <==> plan.Untouched?
  {
    var block := CopyCode(plan) + (if plan.Lost? then [] else [Invoke(m)]) + CollectionAfter(plan, m);
    if plan.Untouched? {
      assert block == [Invoke(m)];
    } else if plan.Lost? {
      assert block == [];
    } else {
      assert |CollectionAfter(plan, m)| > 0;
      assert |code + block| > |code + [Invoke(m)]|;
    }
  }

  class CaptureCollectionModificationMethodVisitor {
    const mv: CodeWriter
    const collectionTypes: set<string>

    constructor (mv: CodeWriter, collectionTypes: set<string>)
      ensures this.mv == mv && this.collectionTypes == collectionTypes
    {
      this.mv := mv;
      this.collectionTypes := collectionTypes;
    }

    predicate DynamicCollectionCall(m: MethodRef) {
      !m.isStatic && m.owner in collectionTypes
    }

    // Copies the collection if it is an operand; fails where the owner's name cannot be read as a type.
    method CopyOperand(m: MethodRef) returns (isBeingInstrumented: bool, failed: bool)
      modifies mv
      ensures mv.code == old(mv.code) + CopyCode(CollectionPlan(collectionTypes, m))
      ensures failed == CollectionPlan(collectionTypes, m).Lost?
      ensures !failed ==> isBeingInstrumented == !(CollectionPlan(collectionTypes, m).Untouched? || CollectionPlan(collectionTypes, m).CopyResult?)
    {
      isBeingInstrumented, failed := false, false;
      if StaticCollections(m) {
        if OneSlotArgs(m, 1) {
          isBeingInstrumented := true;
          mv.Emit(Insn(Dup));
        } else if OneSlotArgs(m, 2) {
          isBeingInstrumented := true;
          EmitDuplicateSecond(Wide(m.args[0]), mv);
        }
      }
      if DynamicCollectionCall(m) && m.name != "<init>" {
        if OneSlotArgs(m, 1) {
          isBeingInstrumented := true;
          if OwnerTypeOf(m.owner).Malformed? {
            return false, true;
          }
          EmitDuplicateSecond(OwnerTypeOf(m.owner).TwoSlots?, mv);
        } else if OneSlotArgs(m, 2) {
          isBeingInstrumented := true;
          EmitDuplicateThird(mv);
        }
      }
    }

    method Report(m: MethodRef, copied: bool)
      requires copied == !(CollectionPlan(collectionTypes, m).Untouched? || CollectionPlan(collectionTypes, m).CopyResult?)
      requires !CollectionPlan(collectionTypes, m).Lost?
      modifies mv
      ensures mv.code == old(mv.code) + CollectionAfter(CollectionPlan(collectionTypes, m), m)
    {
      var isBeingInstrumented := copied;
      if ArraysAsList(m) || (DynamicCollectionCall(m) && m.name == "<init>") {
        isBeingInstrumented := true;
        mv.Emit(Insn(Dup));
      }
      if isBeingInstrumented {
        if m.ret.Some? {
          mv.Emit(Insn(Swap));
        }
        mv.Emit(CallHook(CollectionHook));
      }
    }

    // A failure to read the owner's name is swallowed, and the call is not written. Calls of
    // other methods and of other classes are written as they are.
    method VisitMethodInsn(m: MethodRef)
      modifies mv
      ensures mv.code == old(mv.code) + Block(CollectionsOnly(collectionTypes), NoMemory(), Invoke(m))
      ensures mv.code == old(mv.code) + [Invoke(m)] <==>
              !Trace.HelperCall(m) && !Trace.AsListCall(m) && !Trace.ConstructorCall(collectionTypes, m)
              && !Trace.InstanceCall(collectionTypes, m)
    {
      PlanExactly(collectionTypes, m);
      PlanShows(CollectionPlan(collectionTypes, m), m, mv.code);
      hide CollectionAfter;
      hide CollectionPlan;
      hide CopyCode;
      ghost var plan := CollectionPlan(collectionTypes, m);
      CollectionBlock(collectionTypes, m);
      hide Block;
      var copied, failed := CopyOperand(m);
      if failed {
        return;
      }
      mv.Emit(Invoke(m));
      Report(m, copied);
    }

    method Visit(i: Instr)
      modifies mv
      ensures mv.code == old(mv.code) + Block(CollectionsOnly(collectionTypes), NoMemory(), i)
    {
      match i
      case Invoke(m) => VisitMethodInsn(m);
      case _ =>
        NothingCaptured();
        PassedOn(CollectionsOnly(collectionTypes), NoMemory(), i);
        mv.Emit(i);
    }
  }

  lemma MapBlock(types: set<string>, m: MethodRef)
    ensures var block := Block(MapsOnly(types), NoMemory(), Invoke(m));
            && (Trace.MapMethodCall(types, m) <==> !m.isStatic && m.owner in types && OneSlotArgs(m, 2))
            && (block == [Invoke(m)] <==> !Trace.MapMethodCall(types, m))
            && block == (if Trace.MapMethodCall(types, m) then DuplicateThird() else []) + [Invoke(m)]
                        + (if !Trace.MapMethodCall(types, m) then []
                           else (if m.ret.Some? then [Insn(DupX1), Insn(Pop)] else []) + [CallHook(MapHook)])
  {
    var block := Block(MapsOnly(types), NoMemory(), Invoke(m));
    if Trace.MapMethodCall(types, m) {
      assert block[0] == Insn(DupX2);
    }
  }

  class CaptureMapModificationMethodVisitor {
    const mv: CodeWriter
    const mapTypes: set<string>

    constructor (mv: CodeWriter, mapTypes: set<string>)
      ensures this.mv == mv && this.mapTypes == mapTypes
    {
      this.mv := mv;
      this.mapTypes := mapTypes;
    }

    method VisitMethodInsn(m: MethodRef)
      modifies mv
      ensures mv.code == old(mv.code) + Block(MapsOnly(mapTypes), NoMemory(), Invoke(m))
      ensures !Trace.MapMethodCall(mapTypes, m) <==> mv.code == old(mv.code) + [Invoke(m)]
    {
      MapBlock(mapTypes, m);
      hide Block;
      hide DuplicateThird;
      ghost var block := Block(MapsOnly(mapTypes), NoMemory(), Invoke(m));
      assert mv.code + block == mv.code + [Invoke(m)] <==> block == [Invoke(m)];
      var shouldBeInstrumented := !m.isStatic && m.owner in mapTypes && OneSlotArgs(m, 2);
      if shouldBeInstrumented {
        EmitDuplicateThird(mv);
      }
      mv.Emit(Invoke(m));
      if shouldBeInstrumented {
        if m.ret.Some? {
          mv.Emit(Insn(DupX1));
          mv.Emit(Insn(Pop));
        }
        mv.Emit(CallHook(MapHook));
      }
    }

    method Visit(i: Instr)
      modifies mv
      ensures mv.code == old(mv.code) + Block(MapsOnly(mapTypes), NoMemory(), i)
    {
      match i
      case Invoke(m) => VisitMethodInsn(m);
      case _ =>
        NothingCaptured();
        PassedOn(MapsOnly(mapTypes), NoMemory(), i);
        mv.Emit(i);
    }
  }

  // ---------------------------------------------------------------- stack depth

  class CaptureStackTraceDepthMethodVisitor {
    const mv: CodeWriter
    var catchBlock: Option<Label>

    constructor (mv: CodeWriter)
      ensures this.mv == mv && catchBlock == None
    {
      this.mv := mv;
      catchBlock := None;
    }

    method VisitCode()
      modifies mv
      ensures mv.code == old(mv.code) + Prologue(DepthOnly(catchBlock))
    {
      mv.Emit(CallHook(IncreaseHook));
    }

    // Only the handler registered last is remembered.
    method VisitTryCatchBlock(h: Handler)
      modifies this
      ensures catchBlock == Some(h.target)
    {
      catchBlock := Some(h.target);
    }

    method VisitInsn(op: Opcode)
      modifies mv
      ensures mv.code == old(mv.code) + Block(DepthOnly(catchBlock), NoMemory(), Insn(op))
      ensures mv.code == old(mv.code)
                + (if op in {Ireturn, Lreturn, Freturn, Dreturn, Areturn, Return, Athrow} then [CallHook(DecreaseHook)] else []) + [Insn(op)]
    {
      match op {
        case Areturn | Dreturn | Freturn | Ireturn | Lreturn | Return | Athrow => mv.Emit(CallHook(DecreaseHook));
        case _ =>
      }
      mv.Emit(Insn(op));
    }

    method VisitLabel(l: Label)
      modifies mv
      ensures mv.code == old(mv.code) + Block(DepthOnly(catchBlock), NoMemory(), LabelMark(l))
      ensures mv.code == old(mv.code) + [LabelMark(l)] + (if catchBlock == Some(l) then [CallHook(FetchHook)] else [])
    {
      NothingCaptured();
      mv.Emit(LabelMark(l));
      if catchBlock == Some(l) {
        mv.Emit(CallHook(FetchHook));
      }
    }

    method Visit(i: Instr)
      modifies mv
      ensures mv.code == old(mv.code) + Block(DepthOnly(catchBlock), NoMemory(), i)
    {
      match i
      case Insn(op) => VisitInsn(op);
      case LabelMark(l) => VisitLabel(l);
      case _ =>
        NothingCaptured();
        PassedOn(DepthOnly(catchBlock), NoMemory(), i);
        mv.Emit(i);
    }
  }

  // ---------------------------------------------------------------- running the chain

  lemma BlockForgets(cfg: Config, a: Context, b: Context, i: Instr)
    requires cfg.variables.None? && (cfg.flow.None? || a.numbers == b.numbers)
    ensures Block(cfg, a, i) == Block(cfg, b, i)
  {
  }

  lemma OneMore(cfg: Config, code: seq<Instr>, n: nat)
    requires n < |code|
    ensures Transform(cfg, code[..n + 1]) == Transform(cfg, code[..n]) + Block(cfg, ContextAfter(code[..n]), code[n])
    ensures ContextAfter(code[..n + 1]) == Advance(ContextAfter(code[..n]), code[n])
  {
    assert code[..n + 1][..n] == code[..n];
  }

  lemma WholeCode(cfg: Config, code: seq<Instr>)
    ensures code[..|code|] == code && Transform(cfg, code[..0]) == Prologue(cfg)
    ensures ContextAfter(code[..0]) == NoMemory()
  {
    assert code[..|code|] == code;
  }

  method RunDepth(handlers: seq<Handler>, code: seq<Instr>) returns (out: seq<Instr>)
    ensures out == Transform(DepthOnly(if handlers == [] then None else Some(handlers[|handlers| - 1].target)), code)
  {
    hide Block;
    hide Transform;
    var mv := new CodeWriter();
    var v := new CaptureStackTraceDepthMethodVisitor(mv);
    for k := 0 to |handlers|
      invariant v.mv == mv && mv.code == []
      invariant v.catchBlock == if k == 0 then None else Some(handlers[k - 1].target)
    {
      v.VisitTryCatchBlock(handlers[k]);
    }
    ghost var cfg := DepthOnly(v.catchBlock);
    WholeCode(cfg, code);
    v.VisitCode();
    for n := 0 to |code|
      invariant v.mv == mv && cfg == DepthOnly(v.catchBlock)
      invariant mv.code == Transform(cfg, code[..n])
    {
      OneMore(cfg, code, n);
      BlockForgets(cfg, NoMemory(), ContextAfter(code[..n]), code[n]);
      v.Visit(code[n]);
    }
    out := mv.code;
  }

  method RunMaps(types: set<string>, code: seq<Instr>) returns (out: seq<Instr>)
    ensures out == Transform(MapsOnly(types), code)
  {
    hide Block;
    hide Transform;
    var mv := new CodeWriter();
    var v := new CaptureMapModificationMethodVisitor(mv, types);
    WholeCode(MapsOnly(types), code);
    for n := 0 to |code|
      invariant v.mv == mv && v.mapTypes == types && mv.code == Transform(MapsOnly(types), code[..n])
    {
      OneMore(MapsOnly(types), code, n);
      BlockForgets(MapsOnly(types), NoMemory(), ContextAfter(code[..n]), code[n]);
      v.Visit(code[n]);
    }
    out := mv.code;
  }

  method RunCollections(types: set<string>, code: seq<Instr>) returns (out: seq<Instr>)
    ensures out == Transform(CollectionsOnly(types), code)
  {
    hide Block;
    hide Transform;
    var mv := new CodeWriter();
    var v := new CaptureCollectionModificationMethodVisitor(mv, types);
    WholeCode(CollectionsOnly(types), code);
    for n := 0 to |code|
      invariant v.mv == mv && v.collectionTypes == types && mv.code == Transform(CollectionsOnly(types), code[..n])
    {
      OneMore(CollectionsOnly(types), code, n);
      BlockForgets(CollectionsOnly(types), NoMemory(), ContextAfter(code[..n]), code[n]);
      v.Visit(code[n]);
    }
    out := mv.code;
  }

  method RunArrays(code: seq<Instr>) returns (out: seq<Instr>)
    ensures out == Transform(ArraysOnly(), code)
  {
    hide Block;
    hide Transform;
    var mv := new CodeWriter();
    var v := new CaptureArrayModificationMethodVisitor(mv);
    WholeCode(ArraysOnly(), code);
    for n := 0 to |code|
      invariant v.mv == mv && mv.code == Transform(ArraysOnly(), code[..n])
    {
      OneMore(ArraysOnly(), code, n);
      BlockForgets(ArraysOnly(), NoMemory(), ContextAfter(code[..n]), code[n]);
      v.Visit(code[n]);
    }
    out := mv.code;
  }

  method RunFields(synthetic: set<string>, code: seq<Instr>) returns (out: seq<Instr>)
    ensures out == Transform(FieldsOnly(synthetic), code)
  {
    hide Block;
    hide Transform;
    var mv := new CodeWriter();
    var v := new CaptureFieldAssignmentMethodVisitor(mv, synthetic);
    WholeCode(FieldsOnly(synthetic), code);
    for n := 0 to |code|
      invariant v.mv == mv && v.syntheticFields == synthetic && mv.code == Transform(FieldsOnly(synthetic), code[..n])
    {
      OneMore(FieldsOnly(synthetic), code, n);
      BlockForgets(FieldsOnly(synthetic), NoMemory(), ContextAfter(code[..n]), code[n]);
      v.Visit(code[n]);
    }
    out := mv.code;
  }

  method RunVariables(table: VariableTable, code: seq<Instr>) returns (out: seq<Instr>)
    ensures out == Transform(VariablesOnly(table), code)
  {
    hide Block;
    hide Transform;
    hide Advance;
    var mv := new CodeWriter();
    var v := new CaptureVariableAssignmentMethodVisitor(mv, table);
    WholeCode(VariablesOnly(table), code);
    for n := 0 to |code|
      invariant v.mv == mv && v.table == table && fresh(v.capturer)
      invariant mv.code == Transform(VariablesOnly(table), code[..n]) && v.Memory() == ContextAfter(code[..n])
    {
      OneMore(VariablesOnly(table), code, n);
      v.Visit(code[n]);
    }
    out := mv.code;
  }

  // Each line mark refers to a label visited before it.
  predicate LinesFollowLabels(code: seq<Instr>) {
    forall n :: 0 <= n < |code| && code[n].LineMark? ==> code[n].start in ContextAfter(code[..n]).numbers
  }

  method RunFlow(flow: FlowTable, code: seq<Instr>) returns (out: seq<Instr>)
    requires LinesFollowLabels(code)
    ensures out == Transform(FlowOnly(flow), code)
  {
    hide Block;
    hide Transform;
    var mv := new CodeWriter();
    var v := new CaptureFlowMethodVisitor(mv, flow);
    WholeCode(FlowOnly(flow), code);
    for n := 0 to |code|
      invariant v.mv == mv && v.flow == flow && v.labels == ContextAfter(code[..n]).numbers
      invariant mv.code == Transform(FlowOnly(flow), code[..n])
    {
      OneMore(FlowOnly(flow), code, n);
      BlockForgets(FlowOnly(flow), Context(map[], v.labels), ContextAfter(code[..n]), code[n]);
      v.Visit(code[n]);
    }
    out := mv.code;
  }
}
