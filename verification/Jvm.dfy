/**
 The part of the Java virtual machine the agent's rewriting relies on: operand
 stacks of one-slot and two-slot values, local variables, a heap, labels, exception
 handlers, and the calls into the recorder ("hooks"), which append to a trace.
 Instructions no visitor looks at are left to an arbitrary deterministic environment.
 */
module Jvm {
  import opened Wrappers

  datatype Kind = IntKind | FloatKind | LongKind | DoubleKind | RefKind

  // Computational category 2 (section 2.11.1 of the Java Virtual Machine Specification).
  predicate Wide(k: Kind) {
    k.LongKind? || k.DoubleKind?
  }

  datatype Value =
    | Int(n: int)
    | Float(bits: int)
    | Long(l: int)
    | Double(bits2: int)
    | Null
    | Ref(id: nat)
    | Text(s: string)

  function KindOf(v: Value): Kind {
    match v
    case Int(_) => IntKind
    case Float(_) => FloatKind
    case Long(_) => LongKind
    case Double(_) => DoubleKind
    case Null => RefKind
    case Ref(_) => RefKind
    case Text(_) => RefKind
  }

  /** Every kind has its own values, and references are the other ones. */
  lemma KindsExactly(v: Value)
    ensures (KindOf(v) == IntKind <==> v.Int?) && (KindOf(v) == FloatKind <==> v.Float?)
    ensures (KindOf(v) == LongKind <==> v.Long?) && (KindOf(v) == DoubleKind <==> v.Double?)
    ensures KindOf(v) == RefKind <==> v.Null? || v.Ref? || v.Text?
  {
  }

  predicate One(v: Value) {
    !Wide(KindOf(v))
  }

  predicate Two(v: Value) {
    Wide(KindOf(v))
  }

  datatype Stack = Empty | Push(top: Value, rest: Stack)

  // ---------------------------------------------------------------- instructions

  datatype Opcode =
    | Dup | DupX1 | DupX2 | Dup2 | Dup2X1 | Dup2X2 | Pop | Pop2 | Swap
    | Iastore | Lastore | Fastore | Dastore | Aastore | Bastore | Castore | Sastore
    | Ireturn | Lreturn | Freturn | Dreturn | Areturn | Return | Athrow

  type Label = nat

  datatype FieldRef = FieldRef(owner: string, name: string, desc: string)

  datatype MethodRef = MethodRef(isStatic: bool, owner: string, name: string, args: seq<Kind>, ret: Option<Kind>)

  // The entry points of the recorder that rewritten code calls.
  datatype Hook =
    | ArrayHook
    | FieldHook(fieldKind: Kind)
    | VariableHook(slotKind: Kind)
    | LineHook
    | DumpHook
    | CollectionHook
    | MapHook
    | IncreaseHook
    | DecreaseHook
    | FetchHook

  datatype Instr =
    | Insn(op: Opcode)
    | Sipush(operand: int)
    | LdcInt(n: int)
    | LdcText(s: string)
    | Load(kind: Kind, slot: nat)
    | Store(kind: Kind, slot: nat)
    | Iinc(slot: nat, amount: int)
    | GetField(field: FieldRef)
    | PutField(field: FieldRef)
    | Jump(cond: nat, target: Label)
    | Switch(selector: nat, targets: seq<Label>)
    | LabelMark(mark: Label)
    | LineMark(line: int, start: Label)
    | Invoke(callee: MethodRef)
    | CallHook(hook: Hook)
    | Plain(code: nat)

  // ---------------------------------------------------------------- state

  datatype Cell =
    | Object(fields: map<FieldRef, Value>)
    | Array(storeOp: Opcode, elems: seq<Value>)

  type Heap = map<nat, Cell>
  type Locals = map<nat, Value>

  datatype Event =
    | ArrayModified(array: Value)
    | FieldModified(object: Value, name: string, value: Value)
    | VariableModified(slot: int, held: Value)
    | LineExecuted(classIndex: int, methodIndex: int, line: int, labelNumber: int)
    | LeftoversDumped
    | CollectionModified(collection: Value)
    | MapModified(map_: Value)
    | DepthIncreased
    | DepthDecreased
    | DepthFetched

  datatype Frame = Frame(stack: Stack, locals: Locals, heap: Heap, trace: seq<Event>)

  datatype Fault = NullPointer | IndexOutOfBounds | ArrayStoreMismatch

  datatype PlainEffect = PlainOk(stack: Stack, heap: Heap) | PlainThrow(exc: Value, heap: Heap) | PlainStuck
  datatype BranchEffect = Branch(taken: bool, stack: Stack) | BranchStuck
  datatype SelectEffect = Select(index: nat, stack: Stack) | SelectStuck
  datatype CallEffect = Returned(result: Option<Value>, heap: Heap) | Threw(exc: Value, heap: Heap)

  // Everything the rewriting does not depend on.
  datatype Env = Env(
    plain: (nat, Stack, Heap) -> PlainEffect,
    branch: (nat, Stack, Heap) -> BranchEffect,
    select: (nat, Stack, Heap) -> SelectEffect,
    invoke: (MethodRef, seq<Value>, Heap) -> CallEffect,
    raise: (Fault, Heap) -> (Value, Heap),
    storable: (Heap, nat, Value) -> bool,
    catches: (string, Value, Heap) -> bool)

  datatype Effect =
    | Fall(frame: Frame)
    | Goto(target: Label, frame: Frame)
    | Exit(result: Option<Value>, frame: Frame)
    | Raise(exc: Value, frame: Frame)
    | Stuck

  // ---------------------------------------------------------------- instruction semantics

  predicate IsShuffle(op: Opcode) {
    op in {Dup, DupX1, DupX2, Dup2, Dup2X1, Dup2X2, Pop, Pop2, Swap}
  }

  predicate IsArrayStore(op: Opcode) {
    op in {Iastore, Lastore, Fastore, Dastore, Aastore, Bastore, Castore, Sastore}
  }

  predicate IsExit(op: Opcode) {
    op in {Ireturn, Lreturn, Freturn, Dreturn, Areturn, Return, Athrow}
  }

  // The stack instructions of section 6.5 of the Java Virtual Machine Specification, with all their forms.
  function Shuffle(op: Opcode, s: Stack): Option<Stack> {
    match op
    case Dup => (
      match s
      case Push(a, r) => if One(a) then Some(Push(a, s)) else None
      case Empty => None)
    case DupX1 => (
      match s
      case Push(a, Push(b, r)) => if One(a) && One(b) then Some(Push(a, Push(b, Push(a, r)))) else None
      case _ => None)
    case DupX2 => (
      match s
      case Push(a, Push(b, r)) =>
        if One(a) && Two(b) then Some(Push(a, Push(b, Push(a, r))))
        else if One(a) && One(b) && r.Push? && One(r.top) then Some(Push(a, Push(b, Push(r.top, Push(a, r.rest)))))
        else None
      case _ => None)
    case Dup2 => (
      match s
      case Push(a, r) =>
        if Two(a) then Some(Push(a, s))
        else if r.Push? && One(r.top) then Some(Push(a, Push(r.top, s)))
        else None
      case Empty => None)
    case Dup2X1 => (
      match s
      case Push(a, Push(b, r)) =>
        if Two(a) && One(b) then Some(Push(a, Push(b, Push(a, r))))
        else if One(a) && One(b) && r.Push? && One(r.top)
        then Some(Push(a, Push(b, Push(r.top, Push(a, Push(b, r.rest))))))
        else None
      case _ => None)
    case Dup2X2 => (
      match s
      case Push(a, Push(b, r)) =>
        if Two(a) && Two(b) then Some(Push(a, Push(b, Push(a, r))))
        else if Two(a) && One(b) && r.Push? && One(r.top)
        then Some(Push(a, Push(b, Push(r.top, Push(a, r.rest)))))
        else if One(a) && One(b) && r.Push? && Two(r.top)
        then Some(Push(a, Push(b, Push(r.top, Push(a, Push(b, r.rest))))))
        else if One(a) && One(b) && r.Push? && One(r.top) && r.rest.Push? && One(r.rest.top)
        then Some(Push(a, Push(b, Push(r.top, Push(r.rest.top, Push(a, Push(b, r.rest.rest)))))))
        else None
      case _ => None)
    case Pop => (
      match s
      case Push(a, r) => if One(a) then Some(r) else None
      case Empty => None)
    case Pop2 => (
      match s
      case Push(a, r) =>
        if Two(a) then Some(r)
        else if r.Push? && One(r.top) then Some(r.rest)
        else None
      case Empty => None)
    case Swap => (
      match s
      case Push(a, Push(b, r)) => if One(a) && One(b) then Some(Push(b, Push(a, r))) else None
      case _ => None)
    case _ => None
  }

  // The operand of sipush is a signed 16-bit immediate.
  function ToShort(n: int): int {
    var r := n % 0x1_0000;
    if r < 0x8000 then r else r - 0x1_0000
  }

  function ToByte(n: int): int {
    var r := n % 0x100;
    if r < 0x80 then r else r - 0x100
  }

  function ToInt(n: int): int {
    var r := n % 0x1_0000_0000;
    if r < 0x8000_0000 then r else r - 0x1_0000_0000
  }

  function ElementKind(op: Opcode): Kind {
    match op
    case Lastore => LongKind
    case Dastore => DoubleKind
    case Fastore => FloatKind
    case Aastore => RefKind
    case _ => IntKind
  }

  // Stores into byte, short and char arrays and fields keep the low bits only.
  function NarrowElement(op: Opcode, v: Value): Value {
    match v
    case Int(n) => (
      match op
      case Bastore => Int(ToByte(n))
      case Sastore => Int(ToShort(n))
      case Castore => Int(n % 0x1_0000)
      case _ => v)
    case _ => v
  }

  function FieldKind(desc: string): Kind {
    if desc == "J" then LongKind
    else if desc == "D" then DoubleKind
    else if desc == "F" then FloatKind
    else if desc == "I" || desc == "Z" || desc == "B" || desc == "C" || desc == "S" then IntKind
    else RefKind
  }

  // The kinds of the types, by their descriptors (section 4.3.2 of the Java Virtual Machine
  // Specification).
  predicate IsOfKind(desc: string, k: Kind) {
    && (desc in {"I", "Z", "B", "C", "S"} ==> k == IntKind)
    && (desc == "F" ==> k == FloatKind) && (desc == "J" ==> k == LongKind) && (desc == "D" ==> k == DoubleKind)
    && (desc !in {"I", "Z", "B", "C", "S", "F", "J", "D"} ==> k == RefKind)
  }

  lemma FieldKindExactly(desc: string, k: Kind)
    ensures IsOfKind(desc, k) <==> k == FieldKind(desc)
  {
  }

  function NarrowField(desc: string, v: Value): (r: Value)
    ensures KindOf(r) == KindOf(v)
  {
    match v
    case Int(n) =>
      if desc == "B" then Int(ToByte(n))
      else if desc == "S" then Int(ToShort(n))
      else if desc == "C" then Int(n % 0x1_0000)
      else if desc == "Z" then Int(n % 2)
      else v
    case _ => v
  }

  // The number of so many values, from lo on, that differs from n by a multiple of them.
  predicate WrapsTo(n: int, r: int, lo: int, values: nat)
    requires values > 0
  {
    lo <= r < lo + values && r % values == n % values
  }

  /** Narrow stores keep the low bits, as signed or unsigned as their types are; `iinc` wraps at
      32 bits and the operand of `sipush` at 16. */
  lemma NarrowExactly(n: int)
    ensures WrapsTo(n, ToShort(n), -0x8000, 0x1_0000) && WrapsTo(n, ToInt(n), -0x8000_0000, 0x1_0000_0000)
    ensures NarrowElement(Bastore, Int(n)).Int? && WrapsTo(n, NarrowElement(Bastore, Int(n)).n, -0x80, 0x100)
    ensures NarrowElement(Sastore, Int(n)).Int? && WrapsTo(n, NarrowElement(Sastore, Int(n)).n, -0x8000, 0x1_0000)
    ensures NarrowElement(Castore, Int(n)).Int? && WrapsTo(n, NarrowElement(Castore, Int(n)).n, 0, 0x1_0000)
    ensures NarrowField("B", Int(n)).Int? && WrapsTo(n, NarrowField("B", Int(n)).n, -0x80, 0x100)
    ensures NarrowField("S", Int(n)).Int? && WrapsTo(n, NarrowField("S", Int(n)).n, -0x8000, 0x1_0000)
    ensures NarrowField("C", Int(n)).Int? && WrapsTo(n, NarrowField("C", Int(n)).n, 0, 0x1_0000)
    ensures NarrowField("Z", Int(n)).Int? && WrapsTo(n, NarrowField("Z", Int(n)).n, 0, 2)
  {
    ShortWraps(n);
    ByteWraps(n);
    IntWraps(n);
    Remainders(n);
    hide ToShort;
    hide ToByte;
    hide ToInt;
    hide WrapsTo;
  }

  lemma ShortWraps(n: int)
    ensures WrapsTo(n, ToShort(n), -0x8000, 0x1_0000)
  {
    var r := n % 0x1_0000;
    if r >= 0x8000 { assert (r - 0x1_0000) % 0x1_0000 == r; }
  }

  lemma ByteWraps(n: int)
    ensures WrapsTo(n, ToByte(n), -0x80, 0x100)
  {
    var r := n % 0x100;
    if r >= 0x80 { assert (r - 0x100) % 0x100 == r; }
  }

  lemma IntWraps(n: int)
    ensures WrapsTo(n, ToInt(n), -0x8000_0000, 0x1_0000_0000)
  {
    var r := n % 0x1_0000_0000;
    if r >= 0x8000_0000 { assert (r - 0x1_0000_0000) % 0x1_0000_0000 == r; }
  }

  lemma Remainders(n: int)
    ensures WrapsTo(n, n % 0x1_0000, 0, 0x1_0000) && WrapsTo(n, n % 2, 0, 2)
  {
  }

  /** All other stores keep the value. */
  lemma WideStoresKeep(op: Opcode, desc: string, v: Value)
    ensures op !in {Bastore, Sastore, Castore} || !v.Int? ==> NarrowElement(op, v) == v
    ensures desc !in {"B", "S", "C", "Z"} || !v.Int? ==> NarrowField(desc, v) == v
  {
  }

  // A two-slot value also occupies the next slot; a store makes every overlapping value unusable.
  function Overlapped(locals: Locals, slot: nat, kind: Kind): set<nat> {
    (if Wide(kind) then {slot + 1} else {})
    + (if slot > 0 && slot - 1 in locals && Two(locals[slot - 1]) then {slot - 1} else {})
  }

  function StoreLocal(locals: Locals, slot: nat, v: Value): Locals {
    (locals - Overlapped(locals, slot, KindOf(v)))[slot := v]
  }

  // Takes the arguments of a call off the stack; the last one is on top.
  function PopArgs(kinds: seq<Kind>, s: Stack): Option<(seq<Value>, Stack)> {
    if kinds == [] then Some(([], s))
    else
      match s
      case Empty => None
      case Push(a, r) =>
        if KindOf(a) != kinds[|kinds| - 1] then None
        else
          match PopArgs(kinds[..|kinds| - 1], r)
          case None => None
          case Some((vs, q)) => Some((vs + [a], q))
  }

  function Fail(env: Env, fault: Fault, f: Frame): Effect {
    var (x, h) := env.raise(fault, f.heap);
    Raise(x, f.(heap := h))
  }

  function ExecArrayStore(env: Env, op: Opcode, f: Frame): Effect {
    match f.stack
    case Push(v, Push(Int(at), Push(arr, r))) =>
      if KindOf(v) != ElementKind(op) then Stuck
      else if arr.Null? then Fail(env, NullPointer, f)
      else if !arr.Ref? || arr.id !in f.heap || !f.heap[arr.id].Array? || f.heap[arr.id].storeOp != op then Stuck
      else
        var elems := f.heap[arr.id].elems;
        if at < 0 || |elems| <= at then Fail(env, IndexOutOfBounds, f)
        else if op.Aastore? && !env.storable(f.heap, arr.id, v) then Fail(env, ArrayStoreMismatch, f)
        else Fall(f.(stack := r, heap := f.heap[arr.id := Array(op, elems[at := NarrowElement(op, v)])]))
    case _ => Stuck
  }

  /** Each store into an array takes values of its own type only. */
  lemma StoresTakeTheirKind(env: Env, op: Opcode, f: Frame)
    requires op in {Iastore, Lastore, Fastore, Dastore, Aastore, Bastore, Castore, Sastore}
    requires ExecArrayStore(env, op, f) != Stuck
    ensures f.stack.Push?
    ensures (op == Lastore <==> f.stack.top.Long?) && (op == Dastore <==> f.stack.top.Double?) && (op == Fastore <==> f.stack.top.Float?)
    ensures op in {Iastore, Bastore, Castore, Sastore} <==> f.stack.top.Int?
  {
    hide NarrowElement;
  }

  function ExecExit(env: Env, op: Opcode, f: Frame): Effect {
    match op
    case Return => Exit(None, f)
    case Athrow => (
      match f.stack
      case Push(v, _) =>
        if v.Null? then Fail(env, NullPointer, f)
        else if v.Ref? then Raise(v, f)
        else Stuck
      case Empty => Stuck)
    case _ =>
      match f.stack
      case Push(v, _) =>
        if KindOf(v) == (match op case Ireturn => IntKind case Lreturn => LongKind
                                  case Freturn => FloatKind case Dreturn => DoubleKind case _ => RefKind)
        then Exit(Some(v), f)
        else Stuck
      case Empty => Stuck
  }

  function ExecInsn(env: Env, op: Opcode, f: Frame): Effect {
    if IsShuffle(op) then
      match Shuffle(op, f.stack)
      case Some(s) => Fall(f.(stack := s))
      case None => Stuck
    else if IsArrayStore(op) then ExecArrayStore(env, op, f)
    else ExecExit(env, op, f)
  }

  function ExecPutField(env: Env, field: FieldRef, f: Frame): Effect {
    match f.stack
    case Push(v, Push(obj, r)) =>
      if KindOf(v) != FieldKind(field.desc) then Stuck
      else if obj.Null? then Fail(env, NullPointer, f)
      else if !obj.Ref? || obj.id !in f.heap || !f.heap[obj.id].Object? then Stuck
      else
        var fields := f.heap[obj.id].fields[field := NarrowField(field.desc, v)];
        Fall(f.(stack := r, heap := f.heap[obj.id := Object(fields)]))
    case _ => Stuck
  }

  function ExecGetField(env: Env, field: FieldRef, f: Frame): Effect {
    match f.stack
    case Push(obj, r) =>
      if obj.Null? then Fail(env, NullPointer, f)
      else if !obj.Ref? || obj.id !in f.heap || !f.heap[obj.id].Object? || field !in f.heap[obj.id].fields then Stuck
      else Fall(f.(stack := Push(f.heap[obj.id].fields[field], r)))
    case Empty => Stuck
  }

  // The receiver, if any, lies under the arguments.
  function OperandKinds(m: MethodRef): seq<Kind> {
    (if m.isStatic then [] else [RefKind]) + m.args
  }

  function ExecInvoke(env: Env, m: MethodRef, f: Frame): Effect {
    match PopArgs(OperandKinds(m), f.stack)
    case None => Stuck
    case Some((args, s)) =>
      if !m.isStatic && args != [] && args[0].Null? then Fail(env, NullPointer, f)
      else FinishInvoke(env, m, args, s, f)
  }

  function FinishInvoke(env: Env, m: MethodRef, args: seq<Value>, s: Stack, f: Frame): Effect {
    match env.invoke(m, args, f.heap)
    case Threw(x, h) => Raise(x, f.(heap := h))
    case Returned(result, h) =>
      if m.ret.None? && result.None? then Fall(f.(stack := s, heap := h))
      else if m.ret.Some? && result.Some? && KindOf(result.value) == m.ret.value
      then Fall(f.(stack := Push(result.value, s), heap := h))
      else Stuck
  }

  // A hook takes its arguments off the stack and adds one event to the trace.
  function ExecHook(hook: Hook, f: Frame): Effect {
    match hook
    case ArrayHook => (
      match f.stack
      case Push(a, r) => if KindOf(a).RefKind? then Log(f, r, ArrayModified(a)) else Stuck
      case Empty => Stuck)
    case FieldHook(k) => (
      match f.stack
      case Push(v, Push(Text(name), Push(obj, r))) =>
        if KindOf(v) == k && KindOf(obj).RefKind? then Log(f, r, FieldModified(obj, name, v)) else Stuck
      case _ => Stuck)
    case VariableHook(k) => (
      match f.stack
      case Push(Int(slot), Push(v, r)) => if KindOf(v) == k then Log(f, r, VariableModified(slot, v)) else Stuck
      case _ => Stuck)
    case LineHook => (
      match f.stack
      case Push(Int(at), Push(Int(line), Push(Int(m), Push(Int(c), r)))) => Log(f, r, LineExecuted(c, m, line, at))
      case _ => Stuck)
    case CollectionHook => (
      match f.stack
      case Push(a, r) => if KindOf(a).RefKind? then Log(f, r, CollectionModified(a)) else Stuck
      case Empty => Stuck)
    case MapHook => (
      match f.stack
      case Push(a, r) => if KindOf(a).RefKind? then Log(f, r, MapModified(a)) else Stuck
      case Empty => Stuck)
    case DumpHook => Log(f, f.stack, LeftoversDumped)
    case IncreaseHook => Log(f, f.stack, DepthIncreased)
    case DecreaseHook => Log(f, f.stack, DepthDecreased)
    case FetchHook => Log(f, f.stack, DepthFetched)
  }

  function Log(f: Frame, s: Stack, e: Event): Effect {
    Fall(f.(stack := s, trace := f.trace + [e]))
  }

  function Exec(env: Env, i: Instr, f: Frame): Effect {
    match i
    case Insn(op) => ExecInsn(env, op, f)
    case Sipush(n) => Fall(f.(stack := Push(Int(ToShort(n)), f.stack)))
    case LdcInt(n) => Fall(f.(stack := Push(Int(n), f.stack)))
    case LdcText(s) => Fall(f.(stack := Push(Text(s), f.stack)))
    case Load(k, n) =>
      if n in f.locals && KindOf(f.locals[n]) == k then Fall(f.(stack := Push(f.locals[n], f.stack))) else Stuck
    case Store(k, n) => (
      match f.stack
      case Push(v, r) => if KindOf(v) == k then Fall(f.(stack := r, locals := StoreLocal(f.locals, n, v))) else Stuck
      case Empty => Stuck)
    case Iinc(n, amount) =>
      if n in f.locals && f.locals[n].Int? then Fall(f.(locals := f.locals[n := Int(ToInt(f.locals[n].n + amount))])) else Stuck
    case GetField(field) => ExecGetField(env, field, f)
    case PutField(field) => ExecPutField(env, field, f)
    case Jump(cond, l) => (
      match env.branch(cond, f.stack, f.heap)
      case Branch(taken, s) => if taken then Goto(l, f.(stack := s)) else Fall(f.(stack := s))
      case BranchStuck => Stuck)
    case Switch(sel, ls) => (
      match env.select(sel, f.stack, f.heap)
      case Select(k, s) => if k < |ls| then Goto(ls[k], f.(stack := s)) else Stuck
      case SelectStuck => Stuck)
    case LabelMark(_) => Fall(f)
    case LineMark(_, _) => Fall(f)
    case Invoke(m) => ExecInvoke(env, m, f)
    case CallHook(h) => ExecHook(h, f)
    case Plain(code) =>
      match env.plain(code, f.stack, f.heap)
      case PlainOk(s, h) => Fall(f.(stack := s, heap := h))
      case PlainThrow(x, h) => Raise(x, f.(heap := h))
      case PlainStuck => Stuck
  }

  // ---------------------------------------------------------------- methods and runs

  datatype Handler = Handler(start: Label, end: Label, target: Label, caught: string)
  datatype Method = Method(code: seq<Instr>, handlers: seq<Handler>)

  datatype State =
    | At(pc: nat, frame: Frame)
    | Finished(result: Option<Value>, heap: Heap, trace: seq<Event>)
    | Uncaught(exc: Value, heap: Heap, trace: seq<Event>)
    | Wrong

  // Where a label is marked; a jump continues right behind the mark.
  function FindLabel(code: seq<Instr>, l: Label): (r: Option<nat>)
    ensures r.Some? ==> r.value < |code| && code[r.value] == LabelMark(l)
  {
    if code == [] then None
    else
      var n := |code| - 1;
      match FindLabel(code[..n], l)
      case Some(p) => Some(p)
      case None => if code[n] == LabelMark(l) then Some(n) else None
  }

  predicate Covers(code: seq<Instr>, h: Handler, pc: nat) {
    var a := FindLabel(code, h.start);
    var b := FindLabel(code, h.end);
    a.Some? && b.Some? && a.value < pc < b.value
  }

  function FindHandler(env: Env, code: seq<Instr>, hs: seq<Handler>, pc: nat, x: Value, heap: Heap): Option<Label> {
    if hs == [] then None
    else if Covers(code, hs[0], pc) && env.catches(hs[0].caught, x, heap) then Some(hs[0].target)
    else FindHandler(env, code, hs[1..], pc, x, heap)
  }

  function Land(code: seq<Instr>, l: Label, f: Frame): State {
    match FindLabel(code, l)
    case Some(p) => At(p + 1, f)
    case None => Wrong
  }

  function Continue(env: Env, m: Method, pc: nat, e: Effect): State {
    match e
    case Fall(g) => At(pc + 1, g)
    case Goto(l, g) => Land(m.code, l, g)
    case Exit(r, g) => Finished(r, g.heap, g.trace)
    case Raise(x, g) => (
      match FindHandler(env, m.code, m.handlers, pc, x, g.heap)
      case Some(l) => Land(m.code, l, g.(stack := Push(x, Empty)))
      case None => Uncaught(x, g.heap, g.trace))
    case Stuck => Wrong
  }

  function Step(env: Env, m: Method, s: State): State {
    match s
    case At(pc, f) => if pc < |m.code| then Continue(env, m, pc, Exec(env, m.code[pc], f)) else Wrong
    case _ => s
  }

  function Run(env: Env, m: Method, n: nat, s: State): State {
    if n == 0 then s else Run(env, m, n - 1, Step(env, m, s))
  }

  // Runs a piece of straight-line code up to the first instruction that does not fall through.
  function RunList(env: Env, code: seq<Instr>, f: Frame): Effect {
    if code == [] then Fall(f)
    else
      match Exec(env, code[0], f)
      case Fall(g) => RunList(env, code[1..], g)
      case e => e
  }

  lemma {:induction false} RunAdds(env: Env, m: Method, a: nat, b: nat, s: State)
    ensures Run(env, m, a + b, s) == Run(env, m, b, Run(env, m, a, s))
  {
    if a != 0 {
      RunAdds(env, m, a - 1, b, Step(env, m, s));
    }
  }

  lemma {:induction false} RunStops(env: Env, m: Method, n: nat, s: State)
    requires !s.At?
    ensures Run(env, m, n, s) == s
  {
    if n != 0 {
      RunStops(env, m, n - 1, s);
    }
  }

  lemma {:induction false} RunListAppends(env: Env, a: seq<Instr>, b: seq<Instr>, f: Frame)
    ensures RunList(env, a + b, f) ==
            match RunList(env, a, f) case Fall(g) => RunList(env, b, g) case e => e
  {
    if a == [] {
      assert a + b == b;
    } else {
      assert (a + b)[1..] == a[1..] + b;
      match Exec(env, a[0], f)
      case Fall(g) => RunListAppends(env, a[1..], b, g);
      case _ =>
    }
  }

  // Straight-line code embedded in a method runs there as it does on its own.
  lemma {:induction false} RunEmbedded(env: Env, m: Method, p: nat, code: seq<Instr>, f: Frame)
    requires p + |code| <= |m.code| && m.code[p..p + |code|] == code
    requires RunList(env, code, f).Fall?
    ensures Run(env, m, |code|, At(p, f)) == At(p + |code|, RunList(env, code, f).frame)
    decreases |code|
  {
    if code != [] {
      assert m.code[p] == code[0];
      assert m.code[p + 1..p + 1 + |code[1..]|] == code[1..];
      RunEmbedded(env, m, p + 1, code[1..], Exec(env, code[0], f).frame);
    }
  }

  lemma {:induction false} FindLabelAppends(a: seq<Instr>, b: seq<Instr>, l: Label)
    ensures FindLabel(a + b, l) ==
            if FindLabel(a, l).Some? then FindLabel(a, l)
            else match FindLabel(b, l) case Some(p) => Some(|a| + p) case None => None
  {
    if b == [] {
      assert a + b == a;
    } else {
      var n := |b| - 1;
      assert (a + b)[..|a + b| - 1] == a + b[..n];
      FindLabelAppends(a, b[..n], l);
    }
  }
}
