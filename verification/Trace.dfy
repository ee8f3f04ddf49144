/**
 The trace of a rewritten method read back by kind of event: arrays stored into, fields
 assigned, lines executed, collections and maps modified, variables, exits, depth changes, and
 the story told by all but the last.
 */
module Trace {
  import opened Wrappers
  import opened Jvm
  import opened Instrumentation
  import opened BlockProofs
  import opened Simulation

  datatype EventClass = Arrays | Fields | Lines | Depths | Collections | Maps | Variables | Dumps | Story

  predicate IsDepth(e: Event) {
    e.DepthIncreased? || e.DepthDecreased? || e.DepthFetched?
  }

  predicate Belongs(c: EventClass, e: Event) {
    match c
    case Arrays => e.ArrayModified?
    case Fields => e.FieldModified?
    case Lines => e.LineExecuted?
    case Depths => IsDepth(e)
    case Collections => e.CollectionModified?
    case Maps => e.MapModified?
    case Variables => e.VariableModified?
    case Dumps => e.LeftoversDumped?
    case Story => !IsDepth(e)
  }

  predicate NeedsArrays(c: EventClass) {
    c.Arrays? || c.Story?
  }

  function Only(c: EventClass, t: seq<Event>): seq<Event> {
    if t == [] then [] else (if Belongs(c, t[0]) then [t[0]] else []) + Only(c, t[1..])
  }

  lemma {:induction false} OnlyAppends(c: EventClass, a: seq<Event>, b: seq<Event>)
    ensures Only(c, a + b) == Only(c, a) + Only(c, b)
    decreases |a|
  {
    if a == [] {
      assert a + b == b;
    } else {
      hide Belongs;
      var head := if Belongs(c, a[0]) then [a[0]] else [];
      assert (a + b)[1..] == a[1..] + b && (a + b)[0] == a[0];
      OnlyAppends(c, a[1..], b);
      assert head + (Only(c, a[1..]) + Only(c, b)) == head + Only(c, a[1..]) + Only(c, b);
    }
  }

  // ---------------------------------------------------------------- what one step should report

  // Every captured slot with its value, if each holds what it is loaded as.
  function SlotReport(slots: map<nat, Kind>, locals: Locals): seq<Event> {
    if Readable(slots, locals) then SlotEvents(slots, locals) else []
  }

  // So many arguments, none of them of type long or double.
  predicate Slim(m: MethodRef, n: nat) {
    |m.args| == n && forall k :: 0 <= k < n ==> m.args[k] != LongKind && m.args[k] != DoubleKind
  }

  // A listed method of java/util/Collections that modifies its first argument.
  predicate HelperCall(m: MethodRef) {
    && m.isStatic && m.owner == "java/util/Collections"
    && m.name in {"addAll", "remove", "removeAll", "fill", "copy", "replaceAll", "reverse", "shuffle", "sort"}
    && (Slim(m, 1) || Slim(m, 2))
  }

  predicate AsListCall(m: MethodRef) {
    m.isStatic && m.owner == "java/util/Arrays" && m.name == "asList"
  }

  predicate ConstructorCall(types: set<string>, m: MethodRef) {
    !m.isStatic && m.owner in types && m.name == "<init>"
  }

  // A method of an observed collection, with one or two arguments.
  predicate InstanceCall(types: set<string>, m: MethodRef) {
    !m.isStatic && m.owner in types && m.name != "<init>" && (Slim(m, 1) || Slim(m, 2))
  }

  // The name starts like the descriptor of a class and does not end like one.
  predicate Unfinished(owner: string) {
    owner == "" || (owner[0] == 'L' && ';' !in owner)
  }

  predicate MapMethodCall(types: set<string>, m: MethodRef) {
    !m.isStatic && m.owner in types && Slim(m, 2)
  }

  // What a call that returned modified: the first argument of a helper, the receiver, and the
  // collection that a constructor or asList leaves.
  function CollectionStory(types: set<string>, m: MethodRef, before: Stack, after: Stack): seq<Event> {
    if HelperCall(m) then [CollectionModified(Under(before, |m.args| - 1))]
    else if AsListCall(m) || ConstructorCall(types, m) then [CollectionModified(Under(after, 0))]
    else if InstanceCall(types, m) && !(|m.args| == 1 && Unfinished(m.owner)) then [CollectionModified(Under(before, |m.args|))]
    else []
  }

  function CallStory(cfg: Config, m: MethodRef, before: Stack, after: Stack): seq<Event> {
    (if cfg.collections.Some? then CollectionStory(cfg.collections.value, m, before, after) else [])
    + (if cfg.maps.Some? && MapMethodCall(cfg.maps.value, m) then [MapModified(Under(before, 2))] else [])
  }

  // The array a step stores into, the field it assigns with the value stored, the line it
  // enters, the collection or map a call modified, the variables at a capture point, the exit.
  function StepStory(env: Env, cfg: Config, m: Method, pc: nat, f: Frame): seq<Event>
    requires pc < |m.code|
  {
    var ctx, i := ContextAfter(m.code[..pc]), m.code[pc];
    var e := Exec(env, i, f);
    match i
    case Insn(op) =>
      if IsArrayStore(op) then if e.Fall? then [ArrayModified(Under(f.stack, 2))] else []
      else if IsExit(op) && cfg.flow.Some? then [LeftoversDumped]
      else []
    case PutField(field) =>
      if TrackedField(cfg, field) && e.Fall?
      then [FieldModified(Under(f.stack, 1), field.name, NarrowField(field.desc, Under(f.stack, 0)))] else []
    case Invoke(callee) => if e.Fall? then CallStory(cfg, callee, f.stack, e.frame.stack) else []
    case LineMark(line, start) =>
      (if cfg.flow.Some?
       then [LineExecuted(ToShort(cfg.flow.value.classIndex), ToShort(cfg.flow.value.methodIndex), ToShort(line),
                          ToShort(LabelNumber(ctx, start)))]
       else [])
      + SlotReport(Captured(cfg, ctx, i), f.locals)
    case LabelMark(_) => SlotReport(Captured(cfg, ctx, i), f.locals)
    case Jump(_, _) => SlotReport(Captured(cfg, ctx, i), f.locals)
    case _ => []
  }

  function StepReport(env: Env, cfg: Config, c: EventClass, m: Method, s: State): seq<Event> {
    if !s.At? || |m.code| <= s.pc then []
    else if c.Depths? then
      if m.code[s.pc].Insn? && IsExit(m.code[s.pc].op) && cfg.depth.Some? then [DepthDecreased] else []
    else Only(c, StepStory(env, cfg, m, s.pc, s.frame))
  }

  function RunReport(env: Env, cfg: Config, c: EventClass, m: Method, n: nat, s: State): seq<Event> {
    if n == 0 then [] else StepReport(env, cfg, c, m, s) + RunReport(env, cfg, c, m, n - 1, Step(env, m, s))
  }

  // No exception is thrown and the observed catch block is not entered.
  ghost predicate CalmStep(env: Env, cfg: Config, m: Method, s: State) {
    s.At? && s.pc < |m.code| ==>
      var e := Exec(env, m.code[s.pc], s.frame);
      !e.Raise? && (forall l :: cfg.depth == Some(Some(l)) ==> m.code[s.pc] != LabelMark(l) && Landing(env, m, s.pc, e) != Some(l))
  }

  ghost predicate Calm(env: Env, cfg: Config, m: Method, n: nat, s: State) {
    n == 0 || (CalmStep(env, cfg, m, s) && Calm(env, cfg, m, n - 1, Step(env, m, s)))
  }

  lemma LandEventsOnly(cfg: Config, c: EventClass, l: Label)
    requires c.Depths? ==> cfg.depth != Some(Some(l))
    ensures Only(c, LandEvents(cfg, l)) == []
  {
  }

  lemma FieldAssigned(env: Env, field: FieldRef, f: Frame)
    requires Exec(env, PutField(field), f).Fall?
    ensures FieldContent(Exec(env, PutField(field), f).frame.heap, Under(f.stack, 1), field) == NarrowField(field.desc, Under(f.stack, 0))
  {
    assert Under(f.stack, 1) == Under(f.stack.rest, 0);
  }

  // A rewritten call tells what the call modified, however the value was copied.
  lemma CallTold(cfg: Config, m: MethodRef, before: Stack, after: Stack)
    ensures CallEvents(cfg, m, before, after) == CallStory(cfg, m, before, after)
  {
  }

  lemma {:induction false} NoneBelong(c: EventClass, t: seq<Event>)
    requires forall k :: 0 <= k < |t| ==> !Belongs(c, t[k])
    ensures Only(c, t) == []
    decreases |t|
  {
    if t != [] {
      NoneBelong(c, t[1..]);
    }
  }

  // What an instruction reports besides its story.
  function DepthPart(cfg: Config, i: Instr): seq<Event> {
    match i
    case Insn(op) => if IsExit(op) && cfg.depth.Some? then [DepthDecreased] else []
    case LabelMark(l) => LandEvents(cfg, l)
    case _ => []
  }

  lemma EventsAreStory(env: Env, cfg: Config, m: Method, pc: nat, f: Frame)
    requires pc < |m.code| && Readable(Captured(cfg, ContextAfter(m.code[..pc]), m.code[pc]), f.locals)
    requires cfg.arrays || !m.code[pc].Insn? || !IsArrayStore(m.code[pc].op)
    ensures Events(env, cfg, ContextAfter(m.code[..pc]), m.code[pc], f) == StepStory(env, cfg, m, pc, f) + DepthPart(cfg, m.code[pc])
  {
    hide Exec;
    hide CallEvents;
    hide CallStory;
    hide Captured;
    hide ContextAfter;
    hide FieldContent;
    hide NarrowField;
    hide Under;
    hide Readable;
    hide SlotEvents;
    hide LandEvents;
    hide TrackedField;
    hide LabelNumber;
    hide ToShort;
    var i := m.code[pc];
    var story := StepStory(env, cfg, m, pc, f);
    assert story + [] == story;
    if i.PutField? && Exec(env, i, f).Fall? {
      FieldAssigned(env, i.field, f);
    } else if i.Invoke? && Exec(env, i, f).Fall? {
      CallTold(cfg, i.callee, f.stack, Exec(env, i, f).frame.stack);
    }
  }

  lemma {:induction false} SlotsNoDepth(slots: map<nat, Kind>, locals: Locals)
    requires Readable(slots, locals)
    ensures forall k :: 0 <= k < |SlotEvents(slots, locals)| ==> SlotEvents(slots, locals)[k].VariableModified?
    decreases |slots|
  {
    if slots != map[] {
      SlotsNoDepth(slots - {MinKey(slots.Keys)}, locals);
    }
  }

  lemma OnlyVariables(slots: map<nat, Kind>, locals: Locals)
    ensures forall k :: 0 <= k < |SlotReport(slots, locals)| ==> SlotReport(slots, locals)[k].VariableModified?
  {
    if Readable(slots, locals) { SlotsNoDepth(slots, locals); }
  }

  lemma {:induction false} AllStory(t: seq<Event>)
    requires forall k :: 0 <= k < |t| ==> !IsDepth(t[k])
    ensures Only(Story, t) == t
    decreases |t|
  {
    if t != [] {
      AllStory(t[1..]);
      assert [t[0]] + t[1..] == t;
    }
  }

  lemma StoryNoDepth(env: Env, cfg: Config, m: Method, pc: nat, f: Frame)
    requires pc < |m.code|
    ensures forall k :: 0 <= k < |StepStory(env, cfg, m, pc, f)| ==> !IsDepth(StepStory(env, cfg, m, pc, f)[k])
  {
    hide Exec;
    hide Captured;
    hide ContextAfter;
    hide Readable;
    hide SlotEvents;
    hide NarrowField;
    hide Under;
    hide MapCall;
    hide CollectionPlanOf;
    hide TrackedField;
    hide ToShort;
    hide SlotReport;
    OnlyVariables(Captured(cfg, ContextAfter(m.code[..pc]), m.code[pc]), f.locals);
  }

  lemma EventsOnly(env: Env, cfg: Config, c: EventClass, m: Method, pc: nat, f: Frame)
    requires pc < |m.code| && Readable(Captured(cfg, ContextAfter(m.code[..pc]), m.code[pc]), f.locals)
    requires NeedsArrays(c) ==> cfg.arrays
    requires c.Depths? ==> CalmStep(env, cfg, m, At(pc, f))
    ensures Only(c, Events(env, cfg, ContextAfter(m.code[..pc]), m.code[pc], f)) == StepReport(env, cfg, c, m, At(pc, f))
  {
    hide Exec;
    hide Captured;
    hide ContextAfter;
    hide StepStory;
    hide Readable;
    hide Only;
    var i := m.code[pc];
    var events, story := Events(env, cfg, ContextAfter(m.code[..pc]), i, f), StepStory(env, cfg, m, pc, f);
    if !cfg.arrays && i.Insn? && IsArrayStore(i.op) {
      UnobservedStore(env, cfg, m, pc, f);
      OnlyNone(c);
      OnlyOne(c, ArrayModified(Under(f.stack, 2)));
    } else {
      EventsAreStory(env, cfg, m, pc, f);
      hide Events;
      OnlyAppends(c, story, DepthPart(cfg, i));
      OnlyOne(c, DepthDecreased);
      OnlyNone(c);
      if i.LabelMark? { LandEventsOnly(cfg, c, i.mark); }
      if c.Depths? {
        StoryNoDepth(env, cfg, m, pc, f);
        NoneBelong(c, story);
      }
    }
  }

  // A visitor that does not observe arrays reports no store.
  lemma UnobservedStore(env: Env, cfg: Config, m: Method, pc: nat, f: Frame)
    requires pc < |m.code| && Readable(Captured(cfg, ContextAfter(m.code[..pc]), m.code[pc]), f.locals)
    requires !cfg.arrays && m.code[pc].Insn? && IsArrayStore(m.code[pc].op)
    ensures Events(env, cfg, ContextAfter(m.code[..pc]), m.code[pc], f) == []
    ensures StepStory(env, cfg, m, pc, f) == [] || StepStory(env, cfg, m, pc, f) == [ArrayModified(Under(f.stack, 2))]
  {
    hide Exec;
  }

  lemma OnlyNone(c: EventClass)
    ensures Only(c, []) == []
  {
  }

  lemma OnlyOne(c: EventClass, e: Event)
    ensures Only(c, [e]) == if Belongs(c, e) then [e] else []
  {
    assert [e][1..] == [];
  }

  lemma StepEventsOnly(env: Env, cfg: Config, c: EventClass, m: Method, s: State)
    requires SafeAt(env, cfg, m, s) && (NeedsArrays(c) ==> cfg.arrays) && (c.Depths? ==> CalmStep(env, cfg, m, s))
    ensures Only(c, StepEvents(env, cfg, m, s)) == StepReport(env, cfg, c, m, s)
  {
    hide Exec;
    hide Events;
    hide StepReport;
    if s.At? && s.pc < |m.code| {
      EventsOnly(env, cfg, c, m, s.pc, s.frame);
      var landed :=
        match Landing(env, m, s.pc, Exec(env, m.code[s.pc], s.frame)) case Some(l) => LandEvents(cfg, l) case None => [];
      OnlyAppends(c, Events(env, cfg, ContextAfter(m.code[..s.pc]), m.code[s.pc], s.frame), landed);
      if l :| Landing(env, m, s.pc, Exec(env, m.code[s.pc], s.frame)) == Some(l) {
        LandEventsOnly(cfg, c, l);
      }
    } else {
      assert StepReport(env, cfg, c, m, s) == [] by { NothingReported(env, cfg, c, m, s); }
    }
  }

  lemma NothingReported(env: Env, cfg: Config, c: EventClass, m: Method, s: State)
    requires !s.At? || |m.code| <= s.pc
    ensures StepReport(env, cfg, c, m, s) == []
  {
  }

  /** The array events are exactly the arrays stored into, the field events exactly the
      (object, field, stored value) of the observed assignments, the line events exactly the
      lines entered, the collection and map events exactly the receivers of the observed calls
      that returned, the variable events exactly the slots due at the capture points passed,
      each in order and all of them together; on calm runs the depth events are exactly the exits. */
  lemma {:induction false} TraceIsFaithful(env: Env, cfg: Config, c: EventClass, m: Method, n: nat, s: State)
    requires SafeFor(env, cfg, m, n, s) && (NeedsArrays(c) ==> cfg.arrays) && (c.Depths? ==> Calm(env, cfg, m, n, s))
    ensures Only(c, RunEvents(env, cfg, m, n, s)) == RunReport(env, cfg, c, m, n, s)
    decreases n
  {
    hide StepReport;
    hide StepEvents;
    hide Step;
    hide SafeAt;
    if n > 0 {
      var next := Step(env, m, s);
      StepEventsOnly(env, cfg, c, m, s);
      TraceIsFaithful(env, cfg, c, m, n - 1, next);
      OnlyAppends(c, StepEvents(env, cfg, m, s), RunEvents(env, cfg, m, n - 1, next));
    }
  }

  /** The array a step reports is the only one whose contents the step changes. */
  lemma StoreTouchesReportedArray(env: Env, cfg: Config, m: Method, s: State)
    requires s.At? && s.pc < |m.code| && m.code[s.pc].Insn? && IsArrayStore(m.code[s.pc].op)
    requires Exec(env, m.code[s.pc], s.frame).Fall?
    ensures var h, h' := s.frame.heap, Exec(env, m.code[s.pc], s.frame).frame.heap;
            exists id :: StepReport(env, cfg, Arrays, m, s) == [ArrayModified(Ref(id))]
                         && id in h && h[id].Array? && h'.Keys == h.Keys && h'[id].Array? && |h'[id].elems| == |h[id].elems|
                         && forall other :: other in h && other != id ==> h'[other] == h[other]
  {
    var f := s.frame;
    var arr := f.stack.rest.rest.top;
    assert Under(f.stack, 2) == Under(f.stack.rest, 1) == Under(f.stack.rest.rest, 0) == arr;
    OnlyOne(Arrays, ArrayModified(arr));
    assert StepStory(env, cfg, m, s.pc, f) == [ArrayModified(Ref(arr.id))];
  }

  /** A line event carries the class, method, line and label numbers themselves exactly when
      all four fit the signed 16-bit operand they are pushed with. */
  lemma LineNumbersExactly(c: int, m: int, line: int, number: int)
    ensures LineExecuted(ToShort(c), ToShort(m), ToShort(line), ToShort(number)) == LineExecuted(c, m, line, number)
            <==> Short(c) && Short(m) && Short(line) && Short(number)
  {
    ShortExactly(c);
    ShortExactly(m);
    ShortExactly(line);
    ShortExactly(number);
  }

  predicate Short(n: int) {
    -0x8000 <= n < 0x8000
  }

  lemma ShortExactly(n: int)
    ensures ToShort(n) == n <==> Short(n)
  {
    if -0x8000 <= n < 0 {
      assert n % 0x1_0000 == n + 0x1_0000;
    }
  }

  // ---------------------------------------------------------------- depth

  /** A calm run of a method that returns reports one decrease. */
  lemma {:induction false} OneDecrease(env: Env, cfg: Config, m: Method, n: nat, s: State)
    requires cfg.depth.Some? && Calm(env, cfg, m, n, s)
    requires s.At? && Run(env, m, n, s).Finished?
    ensures RunReport(env, cfg, Depths, m, n, s) == [DepthDecreased]
    decreases n
  {
    var next := Step(env, m, s);
    if s.pc >= |m.code| {
      WrongStays(env, m, n, s);
      assert false;
    } else {
      var e := Exec(env, m.code[s.pc], s.frame);
      WrongStays(env, m, n, s);
      ExitsOnly(env, m.code[s.pc], s.frame);
      if next.At? {
        OneDecrease(env, cfg, m, n - 1, next);
      } else {
        StoppedReportsNothing(env, cfg, m, n - 1, next);
      }
    }
  }

  lemma ExitsOnly(env: Env, i: Instr, f: Frame)
    ensures Exec(env, i, f).Exit? ==> i.Insn? && IsExit(i.op)
    ensures i.Insn? && IsExit(i.op) ==> Exec(env, i, f).Exit? || Exec(env, i, f).Raise? || Exec(env, i, f).Stuck?
  {
  }

  lemma {:induction false} StoppedReportsNothing(env: Env, cfg: Config, m: Method, n: nat, s: State)
    requires !s.At?
    ensures RunReport(env, cfg, Depths, m, n, s) == []
  {
    if n > 0 {
      StoppedReportsNothing(env, cfg, m, n - 1, s);
    }
  }

  // The depth counter of a thread; -1 means it has not been set yet.
  function Bump(depth: int, e: Event, fetched: int): int {
    match e
    case DepthIncreased => if depth == -1 then fetched else depth + 1
    case DepthDecreased => depth - 1
    case DepthFetched => fetched
    case _ => depth
  }

  function Count(depth: int, t: seq<Event>, fetched: int): int
    decreases |t|
  {
    if t == [] then depth else Count(Bump(depth, t[0], fetched), t[1..], fetched)
  }

  lemma {:induction false} CountReadsDepthsOnly(depth: int, t: seq<Event>, fetched: int)
    ensures Count(depth, t, fetched) == Count(depth, Only(Depths, t), fetched)
    decreases |t|
  {
    if t != [] {
      CountReadsDepthsOnly(Bump(depth, t[0], fetched), t[1..], fetched);
      var rest := Only(Depths, t[1..]);
      if Belongs(Depths, t[0]) {
        assert Only(Depths, t) == [t[0]] + rest;
        assert ([t[0]] + rest)[0] == t[0] && ([t[0]] + rest)[1..] == rest;
      } else {
        assert Only(Depths, t) == [] + rest == rest;
      }
    }
  }

  lemma CountBalanced(depth: int, t: seq<Event>, fetched: int)
    requires Only(Depths, t) == [DepthDecreased] && depth >= 0
    ensures Count(depth, [DepthIncreased] + t, fetched) == depth
  {
    hide Only;
    assert ([DepthIncreased] + t)[1..] == t;
    CountReadsDepthsOnly(depth + 1, t, fetched);
    assert [DepthDecreased][1..] == [];
  }

  /** Once set, the depth counter is the same after a calm call that returns as before it. */
  lemma DepthBalanced(env: Env, cfg: Config, m: Method, n: nat, s: State, depth: int, fetched: int)
    requires cfg.depth.Some? && SafeFor(env, cfg, m, n, s) && Calm(env, cfg, m, n, s)
    requires s.At? && Run(env, m, n, s).Finished? && depth >= 0
    ensures Count(depth, [DepthIncreased] + RunEvents(env, cfg, m, n, s), fetched) == depth
  {
    assert !NeedsArrays(Depths);
    hide *;
    TraceIsFaithful(env, cfg, Depths, m, n, s);
    OneDecrease(env, cfg, m, n, s);
    CountBalanced(depth, RunEvents(env, cfg, m, n, s), fetched);
  }
}
