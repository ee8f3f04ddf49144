/**
 What is reported of each instruction of the original, told by what the instruction does and by
 the names it carries.
 */
module Reports {
  import opened Wrappers
  import opened Jvm
  import opened Instrumentation
  import opened BlockProofs
  import opened Simulation
  import opened PendingSlots
  import opened Trace

  // ---------------------------------------------------------------- events by kind

  // The events of a class, each as often and in the order it occurs.
  predicate OfClass(c: EventClass, e: Event) {
    match c
    case Arrays => e.ArrayModified?
    case Fields => e.FieldModified?
    case Lines => e.LineExecuted?
    case Depths => e.DepthIncreased? || e.DepthDecreased? || e.DepthFetched?
    case Collections => e.CollectionModified?
    case Maps => e.MapModified?
    case Variables => e.VariableModified?
    case Dumps => e.LeftoversDumped?
    case Story => !e.DepthIncreased? && !e.DepthDecreased? && !e.DepthFetched?
  }

  lemma {:induction false} OnlyExactly(c: EventClass, t: seq<Event>, e: Event)
    ensures multiset(Only(c, t))[e] == if OfClass(c, e) then multiset(t)[e] else 0
    decreases |t|
  {
    if t != [] {
      OnlyExactly(c, t[1..], e);
      assert t == [t[0]] + t[1..];
      assert Belongs(c, t[0]) == OfClass(c, t[0]);
      hide Belongs;
      var head := if Belongs(c, t[0]) then [t[0]] else [];
      assert Only(c, t) == head + Only(c, t[1..]);
      hide Only;
    }
  }

  // ---------------------------------------------------------------- leaving a method

  // The instruction returns from the method, or throws the exception it is given.
  predicate Leaves(i: Instr, e: Effect) {
    e.Exit? || (i == Insn(Athrow) && e.Raise?)
  }

  lemma LeavesExactly(env: Env, i: Instr, f: Frame)
    requires Exec(env, i, f) != Stuck
    ensures Leaves(i, Exec(env, i, f)) <==> i.Insn? && IsExit(i.op)
    ensures Leaves(i, Exec(env, i, f)) ==> !IsArrayStore(i.op)
  {
    if i.Insn? {
      ExitsExactly(env, i.op, f);
    } else {
      ExitsOnly(env, i, f);
    }
    hide Exec;
  }

  // Captured slots are reported as variables, and nothing else.
  lemma SlotsOnly(slots: map<nat, Kind>, locals: Locals)
    requires Readable(slots, locals)
    ensures LeftoversDumped !in SlotEvents(slots, locals) && DepthDecreased !in SlotEvents(slots, locals)
  {
    SlotEventsExact(slots, locals, LeftoversDumped);
    SlotEventsExact(slots, locals, DepthDecreased);
    hide SlotEvents;
  }

  lemma StayEvents(env: Env, cfg: Config, ctx: Context, i: Instr, f: Frame)
    requires Readable(Captured(cfg, ctx, i), f.locals) && !(i.Insn? && IsExit(i.op))
    ensures LeftoversDumped !in Events(env, cfg, ctx, i, f) && DepthDecreased !in Events(env, cfg, ctx, i, f)
  {
    hide Exec;
    hide Captured;
    hide SlotEvents;
    hide Readable;
    hide CollectionPlanOf;
    hide MapCall;
    hide IsExit;
    hide IsArrayStore;
    hide Under;
    hide TrackedField;
    hide FieldContent;
    hide LabelNumber;
    hide ToShort;
    if i.LabelMark? || i.Jump? || i.LineMark? {
      SlotsOnly(Captured(cfg, ctx, i), f.locals);
    }
  }

  // The events of an instruction that leaves the method, and that no other has them.
  lemma ExitEvents(env: Env, cfg: Config, ctx: Context, i: Instr, f: Frame)
    requires Exec(env, i, f) != Stuck && Readable(Captured(cfg, ctx, i), f.locals)
    ensures Leaves(i, Exec(env, i, f)) ==>
              Events(env, cfg, ctx, i, f)
              == (if cfg.flow.Some? then [LeftoversDumped] else []) + (if cfg.depth.Some? then [DepthDecreased] else [])
    ensures !Leaves(i, Exec(env, i, f)) ==>
              LeftoversDumped !in Events(env, cfg, ctx, i, f) && DepthDecreased !in Events(env, cfg, ctx, i, f)
  {
    LeavesExactly(env, i, f);
    hide Exec;
    hide Events;
    hide Captured;
    hide Readable;
    hide IsExit;
    if Leaves(i, Exec(env, i, f)) {
      ExitBlock(env, cfg, ctx, i.op, f, []);
    } else {
      StayEvents(env, cfg, ctx, i, f);
    }
  }

  // How often something is told in a trace.
  function Times(t: seq<Event>, e: Event): nat {
    multiset(t)[e]
  }

  lemma TimesAppend(a: seq<Event>, b: seq<Event>, e: Event)
    ensures Times(a + b, e) == Times(a, e) + Times(b, e)
    ensures e !in a ==> Times(a, e) == 0
  {
  }

  function ExitPart(flow: bool, depth: bool): seq<Event> {
    (if flow then [LeftoversDumped] else []) + (if depth then [DepthDecreased] else [])
  }

  // What a landing adds.
  lemma ExitTimes(flow: bool, depth: bool, events: seq<Event>, landed: seq<Event>)
    requires landed == [] || landed == [DepthFetched]
    requires events == ExitPart(flow, depth) || (!flow && !depth && LeftoversDumped !in events && DepthDecreased !in events)
    ensures Times(events + landed, LeftoversDumped) == if flow then 1 else 0
    ensures Times(events + landed, DepthDecreased) == if depth then 1 else 0
    ensures flow && depth ==> (events + landed)[..2] == [LeftoversDumped, DepthDecreased]
  {
    TimesAppend(events, landed, LeftoversDumped);
    TimesAppend(events, landed, DepthDecreased);
  }

  lemma StoryDumps(env: Env, cfg: Config, m: Method, pc: nat, f: Frame)
    requires pc < |m.code|
    requires m.code[pc].Insn? && IsExit(m.code[pc].op) ==> !IsArrayStore(m.code[pc].op)
    ensures Only(Dumps, StepStory(env, cfg, m, pc, f)) ==
            if m.code[pc].Insn? && IsExit(m.code[pc].op) && cfg.flow.Some? then [LeftoversDumped] else []
  {
    var story := StepStory(env, cfg, m, pc, f);
    if m.code[pc].Insn? && IsExit(m.code[pc].op) && cfg.flow.Some? {
      OnlyOne(Dumps, LeftoversDumped);
    } else {
      NoDumps(env, cfg, m, pc, f);
      hide StepStory;
      NoneBelong(Dumps, story);
    }
  }

  lemma NoDumps(env: Env, cfg: Config, m: Method, pc: nat, f: Frame)
    requires pc < |m.code| && !(m.code[pc].Insn? && IsExit(m.code[pc].op) && cfg.flow.Some?)
    ensures forall k :: 0 <= k < |StepStory(env, cfg, m, pc, f)| ==> !StepStory(env, cfg, m, pc, f)[k].LeftoversDumped?
  {
    hide Exec;
    hide Captured;
    hide ContextAfter;
    hide NarrowField;
    hide Under;
    hide TrackedField;
    hide ToShort;
    hide SlotReport;
    hide HelperCall;
    hide AsListCall;
    hide ConstructorCall;
    hide InstanceCall;
    hide MapMethodCall;
    OnlyVariables(Captured(cfg, ContextAfter(m.code[..pc]), m.code[pc]), f.locals);
  }

  /** Exactly the steps that leave the method, by returning or by throwing the exception they
      are given, dump the variables and decrease the depth, once each and in this order. */
  lemma ExitsReported(env: Env, cfg: Config, m: Method, s: State)
    requires SafeAt(env, cfg, m, s) && s.At? && s.pc < |m.code| && Exec(env, m.code[s.pc], s.frame) != Stuck
    ensures var events, leaves := StepEvents(env, cfg, m, s), Leaves(m.code[s.pc], Exec(env, m.code[s.pc], s.frame));
            && Times(events, LeftoversDumped) == (if leaves && cfg.flow.Some? then 1 else 0)
            && Times(events, DepthDecreased) == (if leaves && cfg.depth.Some? then 1 else 0)
            && (leaves && cfg.flow.Some? && cfg.depth.Some? ==> events[..2] == [LeftoversDumped, DepthDecreased])
  {
    var i, ctx := m.code[s.pc], ContextAfter(m.code[..s.pc]);
    assert Readable(Captured(cfg, ctx, i), s.frame.locals);
    var leaves := Leaves(i, Exec(env, i, s.frame));
    hide *;
    ExitEvents(env, cfg, ctx, i, s.frame);
    var landed := LandedPart(env, cfg, m, s);
    assert leaves ==> Events(env, cfg, ctx, i, s.frame) == ExitPart(cfg.flow.Some?, cfg.depth.Some?) by { ExitPartIs(cfg); }
    if leaves {
      ExitTimes(cfg.flow.Some?, cfg.depth.Some?, Events(env, cfg, ctx, i, s.frame), landed);
    } else {
      ExitTimes(false, false, Events(env, cfg, ctx, i, s.frame), landed);
    }
  }

  lemma ExitPartIs(cfg: Config)
    ensures ExitPart(cfg.flow.Some?, cfg.depth.Some?)
            == (if cfg.flow.Some? then [LeftoversDumped] else []) + (if cfg.depth.Some? then [DepthDecreased] else [])
  {
  }

  // Behind the events of the instruction there is at most that of the observed catch block.
  lemma LandedPart(env: Env, cfg: Config, m: Method, s: State) returns (landed: seq<Event>)
    requires SafeAt(env, cfg, m, s) && s.At? && s.pc < |m.code|
    ensures landed == [] || landed == [DepthFetched]
    ensures Readable(Captured(cfg, ContextAfter(m.code[..s.pc]), m.code[s.pc]), s.frame.locals)
    ensures StepEvents(env, cfg, m, s) == Events(env, cfg, ContextAfter(m.code[..s.pc]), m.code[s.pc], s.frame) + landed
  {
    hide Exec;
    hide Events;
    hide Captured;
    hide ContextAfter;
    hide Readable;
    hide FindHandler;
    landed := match Landing(env, m, s.pc, Exec(env, m.code[s.pc], s.frame)) case Some(l) => LandEvents(cfg, l) case None => [];
  }

  /** And these steps alone are expected to. */
  lemma ExitsExpected(env: Env, cfg: Config, m: Method, s: State)
    requires s.At? && s.pc < |m.code| && Exec(env, m.code[s.pc], s.frame) != Stuck
    ensures var leaves := Leaves(m.code[s.pc], Exec(env, m.code[s.pc], s.frame));
            && StepReport(env, cfg, Dumps, m, s) == (if leaves && cfg.flow.Some? then [LeftoversDumped] else [])
            && StepReport(env, cfg, Depths, m, s) == (if leaves && cfg.depth.Some? then [DepthDecreased] else [])
  {
    LeavesExactly(env, m.code[s.pc], s.frame);
    StoryDumps(env, cfg, m, s.pc, s.frame);
    hide Exec;
    hide Leaves;
    hide StepStory;
    hide IsExit;
    hide Only;
  }

  // The steps of a run that leave the method.
  function Exits(env: Env, m: Method, n: nat, s: State): nat {
    if n == 0 then 0
    else
      (if s.At? && s.pc < |m.code| && Leaves(m.code[s.pc], Exec(env, m.code[s.pc], s.frame)) then 1 else 0)
      + Exits(env, m, n - 1, Step(env, m, s))
  }

  lemma StepExits(env: Env, cfg: Config, m: Method, s: State)
    requires SafeAt(env, cfg, m, s) && Step(env, m, s) != Wrong
    ensures Times(StepEvents(env, cfg, m, s), LeftoversDumped) == if cfg.flow.Some? then Exits(env, m, 1, s) else 0
    ensures Times(StepEvents(env, cfg, m, s), DepthDecreased) == if cfg.depth.Some? then Exits(env, m, 1, s) else 0
  {
    if s.At? && s.pc < |m.code| {
      ExitsReported(env, cfg, m, s);
    }
    hide Exec;
    hide Leaves;
    hide Events;
    hide SafeAt;
  }

  /** Over every run, the exits are what is dumped and what the depth decreases by. */
  lemma {:induction false} RunExits(env: Env, cfg: Config, m: Method, n: nat, s: State)
    requires SafeFor(env, cfg, m, n, s) && Run(env, m, n, s) != Wrong
    ensures Times(RunEvents(env, cfg, m, n, s), LeftoversDumped) == if cfg.flow.Some? then Exits(env, m, n, s) else 0
    ensures Times(RunEvents(env, cfg, m, n, s), DepthDecreased) == if cfg.depth.Some? then Exits(env, m, n, s) else 0
    decreases n
  {
    hide Leaves;
    hide Exec;
    hide Step;
    hide StepEvents;
    hide SafeAt;
    hide Times;
    if n > 0 {
      var next := Step(env, m, s);
      NeverWrongBefore(env, m, n - 1, next);
      StepExits(env, cfg, m, s);
      RunExits(env, cfg, m, n - 1, next);
      var a, b := StepEvents(env, cfg, m, s), RunEvents(env, cfg, m, n - 1, next);
      TimesAppend(a, b, LeftoversDumped);
      TimesAppend(a, b, DepthDecreased);
    } else {
      TimesAppend([], [], LeftoversDumped);
      TimesAppend([], [], DepthDecreased);
    }
  }

  lemma NeverWrongBefore(env: Env, m: Method, n: nat, s: State)
    requires Run(env, m, n, s) != Wrong
    ensures s != Wrong
  {
    if s == Wrong { RunStops(env, m, n, s); }
  }

  lemma {:induction false} LastStepEvents(env: Env, cfg: Config, m: Method, n: nat, s: State)
    requires SafeFor(env, cfg, m, n + 1, s)
    ensures SafeFor(env, cfg, m, n, s) && SafeAt(env, cfg, m, Run(env, m, n, s))
    ensures Run(env, m, n + 1, s) == Step(env, m, Run(env, m, n, s))
    ensures RunEvents(env, cfg, m, n + 1, s) == RunEvents(env, cfg, m, n, s) + StepEvents(env, cfg, m, Run(env, m, n, s))
    decreases n
  {
    hide Step;
    hide StepEvents;
    hide SafeAt;
    if n > 0 {
      LastStepEvents(env, cfg, m, n - 1, Step(env, m, s));
      var a, b, c := StepEvents(env, cfg, m, s), RunEvents(env, cfg, m, n - 1, Step(env, m, s)),
                     StepEvents(env, cfg, m, Run(env, m, n, s));
      assert a + (b + c) == a + b + c;
    } else {
      NoMoreEvents(env, cfg, m, s);
    }
  }

  lemma NoMoreEvents(env: Env, cfg: Config, m: Method, s: State)
    requires SafeFor(env, cfg, m, 1, s)
    ensures RunEvents(env, cfg, m, 1, s) == [] + StepEvents(env, cfg, m, s)
    ensures Run(env, m, 1, s) == Step(env, m, s)
  {
    hide StepEvents;
    hide SafeAt;
    hide Step;
    var next := Step(env, m, s);
    assert RunEvents(env, cfg, m, 0, next) == [];
    assert StepEvents(env, cfg, m, s) + [] == [] + StepEvents(env, cfg, m, s);
  }

  /** The last step of an activation: if it returns or throws, the trace ends with the dump and
      the decrease; if an exception of any other instruction leaves the activation, this step
      adds neither. */
  lemma ActivationLeft(env: Env, cfg: Config, m: Method, n: nat, s: State)
    requires SafeFor(env, cfg, m, n + 1, s) && Run(env, m, n, s).At?
    requires Run(env, m, n + 1, s).Finished? || Run(env, m, n + 1, s).Uncaught?
    ensures var at := Run(env, m, n, s);
            && SafeFor(env, cfg, m, n, s) && at.pc < |m.code|
            && (var trace, before, i := RunEvents(env, cfg, m, n + 1, s), RunEvents(env, cfg, m, n, s), m.code[at.pc];
                if Run(env, m, n + 1, s).Finished? || i == Insn(Athrow) then
                  trace == before + ((if cfg.flow.Some? then [LeftoversDumped] else []) + (if cfg.depth.Some? then [DepthDecreased] else []))
                else
                  Times(trace, LeftoversDumped) == Times(before, LeftoversDumped) && Times(trace, DepthDecreased) == Times(before, DepthDecreased))
  {
    LastStepEvents(env, cfg, m, n, s);
    var at := Run(env, m, n, s);
    hide RunEvents;
    hide SafeFor;
    hide Run;
    EndingStep(env, cfg, m, at);
    hide StepEvents;
    hide Step;
    hide SafeAt;
    TimesAppend(RunEvents(env, cfg, m, n, s), StepEvents(env, cfg, m, at), LeftoversDumped);
    TimesAppend(RunEvents(env, cfg, m, n, s), StepEvents(env, cfg, m, at), DepthDecreased);
  }

  lemma EndingStep(env: Env, cfg: Config, m: Method, at: State)
    requires SafeAt(env, cfg, m, at) && at.At? && !Step(env, m, at).At? && Step(env, m, at) != Wrong
    ensures at.pc < |m.code|
    ensures if Step(env, m, at).Finished? || m.code[at.pc] == Insn(Athrow) then
              StepEvents(env, cfg, m, at)
              == (if cfg.flow.Some? then [LeftoversDumped] else []) + (if cfg.depth.Some? then [DepthDecreased] else [])
            else
              LeftoversDumped !in StepEvents(env, cfg, m, at) && DepthDecreased !in StepEvents(env, cfg, m, at)
  {
    var i := m.code[at.pc];
    ExitEvents(env, cfg, ContextAfter(m.code[..at.pc]), i, at.frame);
    hide Exec;
    hide Events;
    hide Captured;
    hide ContextAfter;
    hide Readable;
    hide FindHandler;
    var events := Events(env, cfg, ContextAfter(m.code[..at.pc]), i, at.frame);
    assert StepEvents(env, cfg, m, at) == events + [];
    assert events + [] == events;
  }

  // The step goes on behind this label: it jumps there, or throws what is caught there.
  predicate GoesTo(env: Env, m: Method, pc: nat, e: Effect, l: Label) {
    (e.Goto? && e.target == l) || (e.Raise? && FindHandler(env, m.code, m.handlers, pc, e.exc, e.frame.heap) == Some(l))
  }

  /** The depth is fetched anew exactly when the observed catch block is entered, by falling
      through its label or from elsewhere. */
  lemma FetchReported(env: Env, cfg: Config, m: Method, s: State, l: Label)
    requires SafeAt(env, cfg, m, s) && s.At? && s.pc < |m.code| && cfg.depth == Some(Some(l))
    ensures Times(StepEvents(env, cfg, m, s), DepthFetched) ==
            if m.code[s.pc] == LabelMark(l) || GoesTo(env, m, s.pc, Exec(env, m.code[s.pc], s.frame), l) then 1 else 0
  {
    var i, ctx := m.code[s.pc], ContextAfter(m.code[..s.pc]);
    var landed := match Landing(env, m, s.pc, Exec(env, i, s.frame)) case Some(k) => LandEvents(cfg, k) case None => [];
    assert landed == if GoesTo(env, m, s.pc, Exec(env, i, s.frame), l) then [DepthFetched] else [];
    assert i.LabelMark? ==> !GoesTo(env, m, s.pc, Exec(env, i, s.frame), l);
    FetchEvents(env, cfg, ctx, i, s.frame, l);
    hide Exec;
    hide Events;
    hide Captured;
    hide Readable;
    hide FindHandler;
    hide GoesTo;
    TimesAppend(Events(env, cfg, ctx, i, s.frame), landed, DepthFetched);
    TimesOne();
  }

  lemma TimesOne()
    ensures Times([DepthFetched], DepthFetched) == 1 && Times([], DepthFetched) == 0
  {
  }

  lemma FetchEvents(env: Env, cfg: Config, ctx: Context, i: Instr, f: Frame, l: Label)
    requires Readable(Captured(cfg, ctx, i), f.locals) && cfg.depth == Some(Some(l))
    ensures Times(Events(env, cfg, ctx, i, f), DepthFetched) == if i == LabelMark(l) then 1 else 0
  {
    var slots := SlotEvents(Captured(cfg, ctx, i), f.locals);
    NoFetch(env, cfg, ctx, i, f);
    TimesOne();
    if i.LabelMark? {
      assert Events(env, cfg, ctx, i, f) == slots + LandEvents(cfg, i.mark);
      assert LandEvents(cfg, i.mark) == if i.mark == l then [DepthFetched] else [];
      hide *;
      TimesAppend(slots, LandEvents(cfg, i.mark), DepthFetched);
    } else {
      hide Events;
      TimesAppend(Events(env, cfg, ctx, i, f), [], DepthFetched);
    }
  }

  lemma NoFetch(env: Env, cfg: Config, ctx: Context, i: Instr, f: Frame)
    requires Readable(Captured(cfg, ctx, i), f.locals)
    ensures DepthFetched !in SlotEvents(Captured(cfg, ctx, i), f.locals)
    ensures !i.LabelMark? ==> DepthFetched !in Events(env, cfg, ctx, i, f)
  {
    SlotEventsExact(Captured(cfg, ctx, i), f.locals, DepthFetched);
    hide *;
    if i.Insn? {
      InsnFetchesNothing(env, cfg, ctx, i, f);
    } else if i.LineMark? || i.Jump? {
      CaptureFetchesNothing(env, cfg, ctx, i, f);
    } else if !i.LabelMark? {
      OtherFetchesNothing(env, cfg, ctx, i, f);
    }
  }

  lemma InsnFetchesNothing(env: Env, cfg: Config, ctx: Context, i: Instr, f: Frame)
    requires Readable(Captured(cfg, ctx, i), f.locals) && i.Insn?
    ensures DepthFetched !in Events(env, cfg, ctx, i, f)
  {
    hide Exec;
    hide Captured;
    hide SlotEvents;
    hide Readable;
    hide CallEvents;
    hide IsExit;
    hide IsArrayStore;
    hide Under;
    hide TrackedField;
    hide FieldContent;
    hide LabelNumber;
    hide ToShort;
  }

  lemma CaptureFetchesNothing(env: Env, cfg: Config, ctx: Context, i: Instr, f: Frame)
    requires Readable(Captured(cfg, ctx, i), f.locals) && (i.LineMark? || i.Jump?)
    requires DepthFetched !in SlotEvents(Captured(cfg, ctx, i), f.locals)
    ensures DepthFetched !in Events(env, cfg, ctx, i, f)
  {
    hide Exec;
    hide Captured;
    hide SlotEvents;
    hide Readable;
    hide CallEvents;
    hide IsExit;
    hide IsArrayStore;
    hide Under;
    hide TrackedField;
    hide FieldContent;
    hide LabelNumber;
    hide ToShort;
  }

  lemma OtherFetchesNothing(env: Env, cfg: Config, ctx: Context, i: Instr, f: Frame)
    requires Readable(Captured(cfg, ctx, i), f.locals) && !i.Insn? && !i.LineMark? && !i.Jump? && !i.LabelMark?
    ensures DepthFetched !in Events(env, cfg, ctx, i, f)
  {
    if i.Invoke? && Exec(env, i, f).Fall? {
      CallsFetchNothing(cfg, i.callee, f.stack, Exec(env, i, f).frame.stack);
    }
    hide Exec;
    hide Captured;
    hide SlotEvents;
    hide Readable;
    hide CallEvents;
    hide IsExit;
    hide IsArrayStore;
    hide Under;
    hide TrackedField;
    hide FieldContent;
    hide LabelNumber;
    hide ToShort;
  }

  lemma CallsFetchNothing(cfg: Config, m: MethodRef, before: Stack, after: Stack)
    ensures DepthFetched !in CallEvents(cfg, m, before, after)
  {
    hide CollectionPlanOf;
    hide MapCall;
    hide Under;
  }

  // ---------------------------------------------------------------- calls

  // The call is none of those the visitors look for.
  predicate Unobserved(cfg: Config, m: MethodRef) {
    && (cfg.collections.Some? ==>
          && !HelperCall(m) && !AsListCall(m)
          && !ConstructorCall(cfg.collections.value, m) && !InstanceCall(cfg.collections.value, m))
    && (cfg.maps.Some? ==> !MapMethodCall(cfg.maps.value, m))
  }

  lemma PlansExactly(cfg: Config, m: MethodRef)
    ensures CollectionPlanOf(cfg, m).Untouched? <==>
            (cfg.collections.Some? ==>
               !HelperCall(m) && !AsListCall(m)
               && !ConstructorCall(cfg.collections.value, m) && !InstanceCall(cfg.collections.value, m))
    ensures CollectionPlanOf(cfg, m).Lost? <==>
            cfg.collections.Some? && InstanceCall(cfg.collections.value, m) && |m.args| == 1 && Unfinished(m.owner)
            && !HelperCall(m) && !AsListCall(m)
    ensures CollectionPlanOf(cfg, m).CopyResult? <==>
            cfg.collections.Some? && (AsListCall(m) || ConstructorCall(cfg.collections.value, m))
    ensures MapCall(cfg, m) <==> cfg.maps.Some? && MapMethodCall(cfg.maps.value, m)
  {
  }

  /** A call is left as it is, without a single instruction around it, exactly when it is none
      of those: whichever its owner, a method is not touched for its name alone, and a call of
      any other owner not for its arguments. */
  lemma UnobservedExactly(cfg: Config, ctx: Context, m: MethodRef)
    ensures Block(cfg, ctx, Invoke(m)) == [Invoke(m)] <==> Unobserved(cfg, m)
  {
    PlansExactly(cfg, m);
    BlockOfCall(cfg, ctx, m);
    hide Block;
    hide CollectionPlanOf;
    hide MapCall;
    hide HelperCall;
    hide AsListCall;
    hide ConstructorCall;
    hide InstanceCall;
    hide MapMethodCall;
  }

  lemma BlockOfCall(cfg: Config, ctx: Context, m: MethodRef)
    ensures Block(cfg, ctx, Invoke(m)) == [Invoke(m)] <==> CollectionPlanOf(cfg, m).Untouched? && !MapCall(cfg, m)
  {
    hide CollectionPlanOf;
    hide MapCall;
    hide OneSlotArgs;
    var block, plan := Block(cfg, ctx, Invoke(m)), CollectionPlanOf(cfg, m);
    if plan.Untouched? && !MapCall(cfg, m) {
      assert block == [Invoke(m)];
    } else if MapCall(cfg, m) {
      assert block[0] == Insn(DupX2);
    } else if plan.Lost? {
      assert block == [];
    } else {
      assert block[|block| - 1] == CallHook(CollectionHook);
    }
  }

  /** At no call site does such a call give rise to an event. */
  lemma UnobservedTellsNothing(env: Env, cfg: Config, ctx: Context, m: MethodRef, f: Frame)
    requires Unobserved(cfg, m) && Readable(Captured(cfg, ctx, Invoke(m)), f.locals)
    ensures Events(env, cfg, ctx, Invoke(m), f) == []
    ensures Faithful(env, cfg, ctx, Invoke(m), f, f.trace) || Exec(env, Invoke(m), f) == Stuck
  {
    PlansExactly(cfg, m);
    assert CollectionPlanOf(cfg, m).Untouched? && !MapCall(cfg, m);
    hide Exec;
    hide CollectionPlanOf;
    hide MapCall;
    hide Unobserved;
    if Exec(env, Invoke(m), f) != Stuck {
      PlainBlock(env, cfg, ctx, Invoke(m), f, f.trace);
    }
  }

  // The call returns a value of at most one slot, or nothing.
  predicate SlimResult(m: MethodRef) {
    m.ret != Some(LongKind) && m.ret != Some(DoubleKind)
  }

  /** The calls rewriting admits, by owner, name and signature. A collection method must not be
      a map method at the same time. */
  lemma AdmittedExactly(cfg: Config, m: MethodRef)
    ensures AdmittedCall(cfg, m) <==>
            && (cfg.collections.Some? ==>
                  var types := cfg.collections.value;
                  if HelperCall(m) then SlimResult(m) && m.args[0] == RefKind
                  else if AsListCall(m) then m.ret.None? || m.ret == Some(RefKind)
                  else if ConstructorCall(types, m) then m.ret.None?
                  else if InstanceCall(types, m) then
                    SlimResult(m) && (|m.args| == 1 ==> !Unfinished(m.owner) && m.owner[0] != 'J' && m.owner[0] != 'D')
                  else true)
            && (cfg.maps.Some? && MapMethodCall(cfg.maps.value, m) ==> SlimResult(m) && Unobserved(cfg.(maps := None), m))
  {
    PlansExactly(cfg, m);
  }

  /** The instructions a body may hold before rewriting. */
  lemma OriginalExactly(cfg: Config, m: Method)
    ensures OriginalMethod(cfg, m) <==>
            forall pc :: 0 <= pc < |m.code| ==>
              match m.code[pc]
              case CallHook(_) => false
              case Invoke(callee) => AdmittedCall(cfg, callee)
              case _ => true
  {
    hide AdmittedCall;
  }

  /** What a call that returned is reported as, by owner, name and signature: the first argument
      of a helper, the receiver, or the collection that is left on the stack. */
  lemma CallReported(env: Env, cfg: Config, m: Method, s: State)
    requires s.At? && s.pc < |m.code| && m.code[s.pc].Invoke?
    ensures var callee, e := m.code[s.pc].callee, Exec(env, m.code[s.pc], s.frame);
            && StepReport(env, cfg, Collections, m, s) ==
               (if e.Fall? && cfg.collections.Some? then CollectionStory(cfg.collections.value, callee, s.frame.stack, e.frame.stack) else [])
            && StepReport(env, cfg, Maps, m, s) ==
               (if e.Fall? && cfg.maps.Some? && MapMethodCall(cfg.maps.value, callee) then [MapModified(Under(s.frame.stack, 2))] else [])
  {
    var callee, e := m.code[s.pc].callee, Exec(env, m.code[s.pc], s.frame);
    if e.Fall? {
      var a := if cfg.collections.Some? then CollectionStory(cfg.collections.value, callee, s.frame.stack, e.frame.stack) else [];
      var b := if cfg.maps.Some? && MapMethodCall(cfg.maps.value, callee) then [MapModified(Under(s.frame.stack, 2))] else [];
      assert StepStory(env, cfg, m, s.pc, s.frame) == a + b;
      CollectionStoryKind(cfg, callee, s.frame.stack, e.frame.stack);
      hide *;
      OneKind(Collections, a, b);
      OneKind(Maps, a, b);
      ReportsOnly(env, cfg, Collections, m, s);
      ReportsOnly(env, cfg, Maps, m, s);
    } else {
      OnlyNone(Collections);
      OnlyNone(Maps);
      hide Only;
    }
  }

  lemma ReportsOnly(env: Env, cfg: Config, c: EventClass, m: Method, s: State)
    requires s.At? && s.pc < |m.code| && !c.Depths?
    ensures StepReport(env, cfg, c, m, s) == Only(c, StepStory(env, cfg, m, s.pc, s.frame))
  {
    hide StepStory;
    hide Only;
  }

  lemma CollectionStoryKind(cfg: Config, m: MethodRef, before: Stack, after: Stack)
    ensures cfg.collections.Some? ==>
              var story := CollectionStory(cfg.collections.value, m, before, after);
              story == [] || (|story| == 1 && story[0].CollectionModified?)
  {
  }

  lemma OneKind(c: EventClass, a: seq<Event>, b: seq<Event>)
    requires |a| <= 1 && |b| <= 1 && (c.Collections? || c.Maps?)
    requires (a != [] ==> a[0].CollectionModified?) && (b != [] ==> b[0].MapModified?)
    ensures Only(c, a + b) == if c.Collections? then a else b
  {
    OnlyAppends(c, a, b);
    OnlyNone(c);
    if a != [] {
      OnlyOne(c, a[0]);
      assert a == [a[0]];
    }
    if b != [] {
      OnlyOne(c, b[0]);
      assert b == [b[0]];
    }
  }

  // ---------------------------------------------------------------- arrays, fields and lines

  // The story of one instruction has one event at most, or only variables and a line.
  lemma StoryOfInsn(env: Env, cfg: Config, m: Method, pc: nat, f: Frame)
    requires pc < |m.code| && m.code[pc].Insn?
    ensures var op, e := m.code[pc].op, Exec(env, m.code[pc], f);
            StepStory(env, cfg, m, pc, f) ==
            if op in {Iastore, Lastore, Fastore, Dastore, Aastore, Bastore, Castore, Sastore} then
              if e.Fall? then [ArrayModified(Under(f.stack, 2))] else []
            else if op in {Ireturn, Lreturn, Freturn, Dreturn, Areturn, Return, Athrow} && cfg.flow.Some? then [LeftoversDumped] else []
  {
    hide Exec;
    hide Under;
  }

  /** A step reports an array exactly when it is one of the eight stores into an array and gets
      through, and then the array under the index and the value. */
  lemma ArrayReported(env: Env, cfg: Config, m: Method, s: State)
    requires s.At? && s.pc < |m.code|
    ensures var i, e := m.code[s.pc], Exec(env, m.code[s.pc], s.frame);
            StepReport(env, cfg, Arrays, m, s) ==
            if i.Insn? && i.op in {Iastore, Lastore, Fastore, Dastore, Aastore, Bastore, Castore, Sastore} && e.Fall?
            then [ArrayModified(Under(s.frame.stack, 2))] else []
  {
    var i := m.code[s.pc];
    var story := StepStory(env, cfg, m, s.pc, s.frame);
    OnlyNone(Arrays);
    if i.Insn? {
      StoryOfInsn(env, cfg, m, s.pc, s.frame);
      OnlyOne(Arrays, ArrayModified(Under(s.frame.stack, 2)));
      OnlyOne(Arrays, LeftoversDumped);
      hide StepStory;
    } else {
      NoStore(env, cfg, m, s.pc, s.frame);
      hide StepStory;
      NoneBelong(Arrays, story);
    }
    hide Exec;
    hide Under;
    hide Only;
  }

  lemma SlotsAreVariables(slots: map<nat, Kind>, locals: Locals)
    ensures forall e :: e in SlotReport(slots, locals) ==> e.VariableModified?
  {
    OnlyVariables(slots, locals);
  }

  lemma CallsAreModifications(cfg: Config, m: MethodRef, before: Stack, after: Stack)
    ensures forall e :: e in CallStory(cfg, m, before, after) ==> e.CollectionModified? || e.MapModified?
  {
    hide HelperCall;
    hide AsListCall;
    hide ConstructorCall;
    hide InstanceCall;
    hide MapMethodCall;
    hide Under;
  }

  lemma StoryParts(env: Env, cfg: Config, m: Method, pc: nat, f: Frame)
    requires pc < |m.code|
    ensures forall e :: e in SlotReport(Captured(cfg, ContextAfter(m.code[..pc]), m.code[pc]), f.locals) ==> e.VariableModified?
    ensures m.code[pc].Invoke? && Exec(env, m.code[pc], f).Fall? ==>
              forall e :: e in CallStory(cfg, m.code[pc].callee, f.stack, Exec(env, m.code[pc], f).frame.stack)
                ==> e.CollectionModified? || e.MapModified?
  {
    SlotsAreVariables(Captured(cfg, ContextAfter(m.code[..pc]), m.code[pc]), f.locals);
    if m.code[pc].Invoke? && Exec(env, m.code[pc], f).Fall? {
      CallsAreModifications(cfg, m.code[pc].callee, f.stack, Exec(env, m.code[pc], f).frame.stack);
    }
    hide *;
  }

  // Only instructions without operands of their own report arrays and dumps.
  lemma NoStore(env: Env, cfg: Config, m: Method, pc: nat, f: Frame)
    requires pc < |m.code| && !m.code[pc].Insn?
    ensures forall e :: e in StepStory(env, cfg, m, pc, f) ==> !e.ArrayModified? && !e.LeftoversDumped?
  {
    StoryParts(env, cfg, m, pc, f);
    hide Exec;
    hide Captured;
    hide ContextAfter;
    hide NarrowField;
    hide Under;
    hide TrackedField;
    hide ToShort;
    hide SlotReport;
    hide CallStory;
    hide LabelNumber;
    hide IsArrayStore;
    hide IsExit;
  }

  // Only labels, lines and jumps report variables.
  lemma NoCapture(env: Env, cfg: Config, m: Method, pc: nat, f: Frame)
    requires pc < |m.code| && !m.code[pc].LabelMark? && !m.code[pc].LineMark? && !m.code[pc].Jump?
    ensures forall e :: e in StepStory(env, cfg, m, pc, f) ==> !e.VariableModified?
  {
    StoryParts(env, cfg, m, pc, f);
    hide Exec;
    hide Captured;
    hide ContextAfter;
    hide NarrowField;
    hide Under;
    hide TrackedField;
    hide ToShort;
    hide SlotReport;
    hide CallStory;
    hide LabelNumber;
    hide IsArrayStore;
    hide IsExit;
  }

  /** Only calls report collections and maps. */
  lemma NoCall(env: Env, cfg: Config, m: Method, s: State)
    requires s.At? && s.pc < |m.code| && !m.code[s.pc].Invoke?
    ensures StepReport(env, cfg, Collections, m, s) == [] && StepReport(env, cfg, Maps, m, s) == []
  {
    NoModification(env, cfg, m, s.pc, s.frame);
    hide StepStory;
    var story := StepStory(env, cfg, m, s.pc, s.frame);
    NoneBelong(Collections, story);
    NoneBelong(Maps, story);
  }

  lemma NoModification(env: Env, cfg: Config, m: Method, pc: nat, f: Frame)
    requires pc < |m.code| && !m.code[pc].Invoke?
    ensures forall e :: e in StepStory(env, cfg, m, pc, f) ==> !e.CollectionModified? && !e.MapModified?
  {
    StoryParts(env, cfg, m, pc, f);
    hide Exec;
    hide Captured;
    hide ContextAfter;
    hide NarrowField;
    hide Under;
    hide TrackedField;
    hide ToShort;
    hide SlotReport;
    hide CallStory;
    hide LabelNumber;
    hide IsArrayStore;
    hide IsExit;
  }

  // Only putfield reports fields, and only line marks lines.
  lemma FieldOrLine(env: Env, cfg: Config, m: Method, pc: nat, f: Frame)
    requires pc < |m.code|
    ensures !m.code[pc].PutField? ==> forall e :: e in StepStory(env, cfg, m, pc, f) ==> !e.FieldModified?
    ensures !m.code[pc].LineMark? ==> forall e :: e in StepStory(env, cfg, m, pc, f) ==> !e.LineExecuted?
  {
    StoryParts(env, cfg, m, pc, f);
    hide Exec;
    hide Captured;
    hide ContextAfter;
    hide NarrowField;
    hide Under;
    hide TrackedField;
    hide ToShort;
    hide SlotReport;
    hide CallStory;
    hide LabelNumber;
    hide IsArrayStore;
    hide IsExit;
  }

  /** A step reports a field exactly when it assigns one that is not listed as synthetic, by name
      and type, and then the object, the name and what the field holds afterwards. */
  lemma FieldReported(env: Env, cfg: Config, m: Method, s: State)
    requires s.At? && s.pc < |m.code|
    ensures var i, e, f := m.code[s.pc], Exec(env, m.code[s.pc], s.frame), s.frame;
            if i.PutField? && e.Fall? && cfg.fields.Some? && i.field.name + ":" + i.field.desc !in cfg.fields.value then
              && f.stack.Push? && f.stack.rest.Push? && f.stack.rest.top.Ref?
              && (var id := f.stack.rest.top.id;
                  && id in e.frame.heap && e.frame.heap[id].Object? && i.field in e.frame.heap[id].fields
                  && StepReport(env, cfg, Fields, m, s) == [FieldModified(Ref(id), i.field.name, e.frame.heap[id].fields[i.field])])
            else StepReport(env, cfg, Fields, m, s) == []
  {
    var i, f := m.code[s.pc], s.frame;
    var story := StepStory(env, cfg, m, s.pc, f);
    OnlyNone(Fields);
    if i.PutField? {
      if Exec(env, i, f).Fall? {
        assert Under(f.stack, 1) == Under(f.stack.rest, 0) == f.stack.rest.top && Under(f.stack, 0) == f.stack.top;
        OnlyOne(Fields, FieldModified(f.stack.rest.top, i.field.name, NarrowField(i.field.desc, f.stack.top)));
        hide Only;
        hide NarrowField;
      }
    } else {
      FieldOrLine(env, cfg, m, s.pc, f);
      hide StepStory;
      hide Exec;
      NoneBelong(Fields, story);
    }
  }

  /** A step reports a line exactly when it enters one, and then class, method, line and label
      number, each as it is if it fits 16 bits. */
  lemma LineReported(env: Env, cfg: Config, m: Method, s: State)
    requires s.At? && s.pc < |m.code|
    ensures var i := m.code[s.pc];
            if i.LineMark? && cfg.flow.Some? then
              var numbers := ContextAfter(m.code[..s.pc]).numbers;
              var number := if i.start in numbers then numbers[i.start] else 0;
              && |StepReport(env, cfg, Lines, m, s)| == 1
              && (var e := StepReport(env, cfg, Lines, m, s)[0];
                  && e.LineExecuted?
                  && (-0x8000 <= cfg.flow.value.classIndex < 0x8000 ==> e.classIndex == cfg.flow.value.classIndex)
                  && (-0x8000 <= cfg.flow.value.methodIndex < 0x8000 ==> e.methodIndex == cfg.flow.value.methodIndex)
                  && (-0x8000 <= i.line < 0x8000 ==> e.line == i.line)
                  && (number < 0x8000 ==> e.labelNumber == number))
            else StepReport(env, cfg, Lines, m, s) == []
  {
    var i := m.code[s.pc];
    var ctx := ContextAfter(m.code[..s.pc]);
    var story := StepStory(env, cfg, m, s.pc, s.frame);
    var slots := Captured(cfg, ctx, i);
    if i.LineMark? {
      OnlyVariables(slots, s.frame.locals);
      NoneBelong(Lines, SlotReport(slots, s.frame.locals));
      OnlyNone(Lines);
      if cfg.flow.Some? {
        var line := LineExecuted(ToShort(cfg.flow.value.classIndex), ToShort(cfg.flow.value.methodIndex), ToShort(i.line),
                                 ToShort(LabelNumber(ctx, i.start)));
        OnlyAppends(Lines, [line], SlotReport(slots, s.frame.locals));
        OnlyOne(Lines, line);
        ShortExactly(cfg.flow.value.classIndex);
        ShortExactly(cfg.flow.value.methodIndex);
        ShortExactly(i.line);
        ShortExactly(LabelNumber(ctx, i.start));
      } else {
        OnlyAppends(Lines, [], SlotReport(slots, s.frame.locals));
      }
    } else {
      FieldOrLine(env, cfg, m, s.pc, s.frame);
      NoneBelong(Lines, story);
    }
    hide Exec;
    hide Captured;
    hide ContextAfter;
    hide SlotReport;
    hide ToShort;
    hide Only;
  }

  // ---------------------------------------------------------------- labels and variables

  function Marks(code: seq<Instr>): nat {
    if code == [] then 0 else Marks(code[..|code| - 1]) + if code[|code| - 1].LabelMark? then 1 else 0
  }

  // Every label is marked once.
  predicate MarkedOnce(code: seq<Instr>) {
    forall i, j :: 0 <= i < j < |code| && code[i].LabelMark? && code[j].LabelMark? ==> code[i].mark != code[j].mark
  }

  lemma {:induction false} NumbersCount(code: seq<Instr>)
    requires MarkedOnce(code)
    ensures |ContextAfter(code).numbers| == Marks(code)
    ensures forall l :: l in ContextAfter(code).numbers ==> exists i :: 0 <= i < |code| && code[i] == LabelMark(l)
    decreases |code|
  {
    if code != [] {
      var last := |code| - 1;
      var before := code[..last];
      NumbersCount(before);
      var had, now := ContextAfter(before).numbers, ContextAfter(code).numbers;
      assert now == if code[last].LabelMark? then had[code[last].mark := |had|] else had;
      assert Marks(code) == Marks(before) + if code[last].LabelMark? then 1 else 0;
      assert code[last].LabelMark? ==> forall i :: 0 <= i < |before| ==> before[i] != LabelMark(code[last].mark);
      hide *;
      forall l | l in now ensures exists i :: 0 <= i < |code| && code[i] == LabelMark(l) {
        if l in had {
          var i :| 0 <= i < |before| && before[i] == LabelMark(l);
          assert code[i] == LabelMark(l);
        } else {
          assert code[last] == LabelMark(l);
        }
      }
    }
  }

  /** Labels are numbered in the order in which they are marked. */
  lemma {:induction false} LabelsInOrder(code: seq<Instr>, p: nat)
    requires MarkedOnce(code) && p < |code| && code[p].LabelMark?
    ensures code[p].mark in ContextAfter(code).numbers && ContextAfter(code).numbers[code[p].mark] == Marks(code[..p])
    decreases |code|
  {
    var last := |code| - 1;
    var before := code[..last];
    if p < last {
      LabelsInOrder(before, p);
      assert before[..p] == code[..p];
    } else {
      NumbersCount(before);
    }
  }

  // Instruction j stores to the slot, and neither another store to it nor a label, line or
  // jump follows.
  predicate StoredLast(code: seq<Instr>, j: nat, n: nat) {
    && j < |code| && (code[j].Store? || code[j].Iinc?) && code[j].slot == n
    && forall q :: j < q < |code| ==>
         !code[q].LabelMark? && !code[q].LineMark? && !code[q].Jump? && ((code[q].Store? || code[q].Iinc?) ==> code[q].slot != n)
  }

  lemma StoredLastExactly(code: seq<Instr>, n: nat)
    ensures (exists j: nat, k :: LastStore(code, j, n, k)) <==> exists j: nat :: StoredLast(code, j, n)
  {
    if j: nat, k :| LastStore(code, j, n, k) {
      assert StoredLast(code, j, n);
    }
    if j: nat :| StoredLast(code, j, n) {
      assert LastStore(code, j, n, if code[j].Store? then code[j].kind else IntKind);
    }
  }

  // A variable in this slot starts at the label of this number.
  predicate StartsAt(table: VariableTable, number: nat, n: nat) {
    number in table.declared && n in table.declared[number]
  }

  /** A step reports a slot with a value, once, exactly when it is a label, a line or a jump, the
      slot was stored since the last of these or a variable in it starts at the label, and it
      holds the value; slot 0 of a constructor excepted. */
  lemma VariableReported(env: Env, cfg: Config, table: VariableTable, m: Method, s: State, n: nat, v: Value)
    requires cfg.variables == Some(table) && s.At? && s.pc < |m.code| && SafeAt(env, cfg, m, s) && MarkedOnce(m.code)
    ensures var code, i := m.code[..s.pc], m.code[s.pc];
            Times(StepReport(env, cfg, Variables, m, s), VariableModified(n, v)) ==
            if && (i.LabelMark? || i.LineMark? || i.Jump?)
               && ((exists j: nat :: StoredLast(code, j, n)) || (i.LabelMark? && StartsAt(table, Marks(code), n)))
               && !(table.inConstructor && n == 0) && n in s.frame.locals && s.frame.locals[n] == v
            then 1 else 0
  {
    var code, i := m.code[..s.pc], m.code[s.pc];
    var story := StepStory(env, cfg, m, s.pc, s.frame);
    var e := VariableModified(n, v);
    OnlyExactly(Variables, story, e);
    assert StepReport(env, cfg, Variables, m, s) == Only(Variables, story);
    if i.LabelMark? || i.LineMark? || i.Jump? {
      CaptureTells(cfg, table, m, s.pc, s.frame.locals, n, v);
      SlotsOfStory(env, cfg, m, s, e);
    } else {
      NoCapture(env, cfg, m, s.pc, s.frame);
      assert e !in story;
    }
    hide *;
    assert Times(StepReport(env, cfg, Variables, m, s), e) == multiset(story)[e] by {
      TimesAre(Only(Variables, story), e);
      OfVariables(e);
    }
  }

  lemma TimesAre(t: seq<Event>, e: Event)
    ensures Times(t, e) == multiset(t)[e]
  {
  }

  lemma OfVariables(e: Event)
    ensures OfClass(Variables, e) == e.VariableModified?
  {
  }

  lemma CaptureTells(cfg: Config, table: VariableTable, m: Method, pc: nat, locals: Locals, n: nat, v: Value)
    requires cfg.variables == Some(table) && pc < |m.code| && (m.code[pc].LabelMark? || m.code[pc].LineMark? || m.code[pc].Jump?)
    requires MarkedOnce(m.code) && Readable(Captured(cfg, ContextAfter(m.code[..pc]), m.code[pc]), locals)
    ensures multiset(SlotEvents(Captured(cfg, ContextAfter(m.code[..pc]), m.code[pc]), locals))[VariableModified(n, v)] ==
            if && ((exists j: nat :: StoredLast(m.code[..pc], j, n)) || (m.code[pc].LabelMark? && StartsAt(table, Marks(m.code[..pc]), n)))
               && !(table.inConstructor && n == 0) && n in locals && locals[n] == v
            then 1 else 0
  {
    CapturePointReports(cfg, table, m.code, pc, locals, n, v);
    StoredLastExactly(m.code[..pc], n);
    NumbersCount(m.code[..pc]);
    hide SlotEvents;
    hide ContextAfter;
    hide Captured;
    hide LastStore;
    hide StoredLast;
    hide Marks;
    hide Readable;
  }

  lemma SlotsOfStory(env: Env, cfg: Config, m: Method, s: State, e: Event)
    requires s.At? && s.pc < |m.code| && SafeAt(env, cfg, m, s) && e.VariableModified?
    requires m.code[s.pc].LabelMark? || m.code[s.pc].LineMark? || m.code[s.pc].Jump?
    ensures Readable(Captured(cfg, ContextAfter(m.code[..s.pc]), m.code[s.pc]), s.frame.locals)
    ensures multiset(StepStory(env, cfg, m, s.pc, s.frame))[e]
            == multiset(SlotEvents(Captured(cfg, ContextAfter(m.code[..s.pc]), m.code[s.pc]), s.frame.locals))[e]
  {
    hide SlotEvents;
    hide ContextAfter;
    hide Captured;
    hide Readable;
    hide Exec;
    hide ToShort;
    hide LabelNumber;
  }
}
