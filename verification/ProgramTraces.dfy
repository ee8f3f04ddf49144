/**
 The interleaved trace of a whole thread: its story, and the depth of its calls.
 */
module ProgramTraces {
  import opened Wrappers
  import opened Jvm
  import opened Instrumentation
  import opened BlockProofs
  import opened Simulation
  import opened Trace
  import opened Programs

  // ---------------------------------------------------------------- the story of a thread

  // What a step should report, in terms of the original activation that makes it.
  function TickReport(env: Env, p: Program, c: EventClass, w: Thread): seq<Event>
    requires Located(p, w)
  {
    if Enters(p, w) then []
    else if Resumes(w) then
      var code := p.codes[w.callers[|w.callers| - 1].id];
      StepReport(Answering(env, AnswerOf(w.state)), code.cfg, c, code.body, Waiting(w))
    else StepReport(Outside(env, p), p.codes[w.id].cfg, c, p.codes[w.id].body, w.state)
  }

  function ThreadReport(env: Env, p: Program, c: EventClass, n: nat, w: Thread): seq<Event>
    requires Located(p, w)
  {
    if n == 0 then [] else TickReport(env, p, c, w) + ThreadReport(env, p, c, n - 1, Tick(env, p, w))
  }

  predicate ObservesArrays(p: Program) {
    forall k :: 0 <= k < |p.codes| ==> p.codes[k].cfg.arrays
  }

  lemma TickTrace(env: Env, p: Program, c: EventClass, w: Thread)
    requires Located(p, w) && TickSafe(env, p, w) && !c.Depths? && (NeedsArrays(c) ==> ObservesArrays(p))
    ensures Only(c, TickEvents(env, p, w)) == TickReport(env, p, c, w)
  {
    hide StepEvents;
    hide StepReport;
    hide SafeAt;
    hide Only;
    hide Enters;
    hide Outside;
    if Enters(p, w) {
      EntryTellsNothing(c, TickEvents(env, p, w));
    } else if Resumes(w) {
      var code := p.codes[w.callers[|w.callers| - 1].id];
      StepEventsOnly(Answering(env, AnswerOf(w.state)), code.cfg, c, code.body, Waiting(w));
    } else {
      StepEventsOnly(Outside(env, p), p.codes[w.id].cfg, c, p.codes[w.id].body, w.state);
    }
  }

  lemma EntryTellsNothing(c: EventClass, t: seq<Event>)
    requires !c.Depths? && (t == [] || t == [DepthIncreased])
    ensures Only(c, t) == []
  {
    OnlyNone(c);
    OnlyOne(c, DepthIncreased);
  }

  /** Over every run of a thread the events of each kind are, in order, what its activations
      stored into, assigned, entered and modified, whichever called which. */
  lemma {:induction false} ThreadTrace(env: Env, p: Program, c: EventClass, n: nat, w: Thread)
    requires Located(p, w) && SafeThread(env, p, n, w) && !c.Depths? && (NeedsArrays(c) ==> ObservesArrays(p))
    ensures Only(c, ThreadEvents(env, p, n, w)) == ThreadReport(env, p, c, n, w)
    decreases n
  {
    hide Tick;
    hide TickSafe;
    hide TickEvents;
    hide TickReport;
    if n > 0 {
      var next := Tick(env, p, w);
      TickTrace(env, p, c, w);
      ThreadTrace(env, p, c, n - 1, next);
      OnlyAppends(c, TickEvents(env, p, w), ThreadEvents(env, p, n - 1, next));
    }
  }

  // ---------------------------------------------------------------- the depth of a thread

  predicate ObservesDepth(p: Program) {
    forall k :: 0 <= k < |p.codes| ==> p.codes[k].cfg.depth.Some?
  }

  // The activations that have been entered and have not returned.
  function Height(w: Thread): nat {
    |w.callers| + if w.state.At? then 1 else 0
  }

  // No exception is thrown and no observed catch block is entered.
  ghost predicate CalmTick(env: Env, p: Program, w: Thread)
    requires Located(p, w)
  {
    if Enters(p, w) then true
    else if Resumes(w) then
      var code := p.codes[w.callers[|w.callers| - 1].id];
      w.state.Finished? && CalmStep(Answering(env, AnswerOf(w.state)), code.cfg, code.body, Waiting(w))
    else CalmStep(Outside(env, p), p.codes[w.id].cfg, p.codes[w.id].body, w.state)
  }

  ghost predicate CalmThread(env: Env, p: Program, n: nat, w: Thread)
    requires Located(p, w)
  {
    n == 0 || (CalmTick(env, p, w) && CalmThread(env, p, n - 1, Tick(env, p, w)))
  }

  // An activation ends exactly with an exit, and reports it.
  lemma ExitEnds(env: Env, cfg: Config, m: Method, s: State)
    requires CalmStep(env, cfg, m, s) && s.At? && Step(env, m, s) != Wrong && cfg.depth.Some?
    ensures StepReport(env, cfg, Depths, m, s) == if Step(env, m, s).At? then [] else [DepthDecreased]
  {
    ExitsOnly(env, m.code[s.pc], s.frame);
    hide Exec;
    hide FindHandler;
  }

  lemma EndedReportsNothing(env: Env, cfg: Config, m: Method, s: State)
    requires !s.At?
    ensures StepReport(env, cfg, Depths, m, s) == [] && Step(env, m, s) == s
  {
  }

  // What a step does to the height it reports.
  lemma TickDepth(env: Env, p: Program, w: Thread)
    requires CallersOk(p, w) && TickSafe(env, p, w) && CalmTick(env, p, w) && ObservesDepth(p) && Tick(env, p, w).state != Wrong
    ensures var before, after, t := Height(w), Height(Tick(env, p, w)), Only(Depths, TickEvents(env, p, w));
            (after == before + 1 && t == [DepthIncreased]) || (after == before - 1 && t == [DepthDecreased]) || (after == before && t == [])
  {
    if Enters(p, w) {
      EnterDepth(env, p, w);
    } else if Resumes(w) {
      ReturnDepth(env, p, w);
    } else {
      PlainDepth(env, p, w);
    }
    hide *;
  }

  lemma EnterDepth(env: Env, p: Program, w: Thread)
    requires Located(p, w) && Enters(p, w) && ObservesDepth(p)
    ensures Height(Tick(env, p, w)) == Height(w) + 1
    ensures Only(Depths, TickEvents(env, p, w)) == [DepthIncreased]
  {
    OnlyOne(Depths, DepthIncreased);
    hide Only;
    hide Entered;
  }

  lemma PlainDepth(env: Env, p: Program, w: Thread)
    requires Located(p, w) && !Enters(p, w) && !Resumes(w) && TickSafe(env, p, w) && CalmTick(env, p, w) && ObservesDepth(p)
    requires Tick(env, p, w).state != Wrong
    ensures (Height(Tick(env, p, w)) == Height(w) && Only(Depths, TickEvents(env, p, w)) == [])
            || (Height(Tick(env, p, w)) == Height(w) - 1 && Only(Depths, TickEvents(env, p, w)) == [DepthDecreased])
  {
    var out, code := Outside(env, p), p.codes[w.id];
    hide Outside;
    hide Enters;
    StepEventsOnly(out, code.cfg, Depths, code.body, w.state);
    if w.state.At? {
      ExitEnds(out, code.cfg, code.body, w.state);
    } else {
      EndedReportsNothing(out, code.cfg, code.body, w.state);
    }
    hide Step;
    hide StepEvents;
    hide StepReport;
    hide SafeAt;
    hide CalmStep;
    hide Only;
  }

  lemma ReturnDepth(env: Env, p: Program, w: Thread)
    requires CallersOk(p, w) && Resumes(w) && TickSafe(env, p, w) && CalmTick(env, p, w) && ObservesDepth(p)
    requires Tick(env, p, w).state != Wrong
    ensures Height(Tick(env, p, w)) == Height(w)
    ensures Only(Depths, TickEvents(env, p, w)) == []
  {
    var c := w.callers[|w.callers| - 1];
    var answer, code := Answering(env, AnswerOf(w.state)), p.codes[c.id];
    assert CallerOk(p, c);
    StepEventsOnly(answer, code.cfg, Depths, code.body, Waiting(w));
    ReturnGoesOn(answer, code.cfg, code.body, Waiting(w));
    hide Step;
    hide StepEvents;
    hide StepReport;
    hide SafeAt;
    hide CalmStep;
    hide Only;
    hide Entered;
  }

  lemma ReturnGoesOn(env: Env, cfg: Config, m: Method, s: State)
    requires CalmStep(env, cfg, m, s) && s.At? && s.pc < |m.code| && m.code[s.pc].Invoke? && Step(env, m, s) != Wrong
    ensures StepReport(env, cfg, Depths, m, s) == [] && Step(env, m, s).At?
  {
    CallOutcomes(env, m.code[s.pc].callee, s.frame);
    hide Exec;
  }

  lemma {:induction false} CountAppends(depth: int, a: seq<Event>, b: seq<Event>, fetched: int)
    ensures Count(depth, a + b, fetched) == Count(Count(depth, a, fetched), b, fetched)
    decreases |a|
  {
    if a == [] {
      assert a + b == b;
    } else {
      assert (a + b)[0] == a[0] && (a + b)[1..] == a[1..] + b;
      CountAppends(Bump(depth, a[0], fetched), a[1..], b, fetched);
    }
  }

  lemma CountOne(depth: int, t: seq<Event>, fetched: int)
    requires depth >= 0
    ensures Only(Depths, t) == [] ==> Count(depth, t, fetched) == depth
    ensures Only(Depths, t) == [DepthIncreased] ==> Count(depth, t, fetched) == depth + 1
    ensures Only(Depths, t) == [DepthDecreased] ==> Count(depth, t, fetched) == depth - 1
  {
    CountReadsDepthsOnly(depth, t, fetched);
    hide Only;
    assert [DepthDecreased][1..] == [] && [DepthIncreased][1..] == [];
  }

  /** At every point of a calm run the depth counter has moved exactly as the stack of calls
      has: it is the height of the stack, counted from where it started. */
  lemma {:induction false} DepthIsHeight(env: Env, p: Program, n: nat, w: Thread, depth: int, fetched: int)
    requires CallersOk(p, w) && SafeThread(env, p, n, w) && CalmThread(env, p, n, w) && ObservesDepth(p)
    requires Ticks(env, p, n, w).state != Wrong && depth >= Height(w)
    ensures Count(depth, ThreadEvents(env, p, n, w), fetched) == depth + Height(Ticks(env, p, n, w)) - Height(w)
    decreases n
  {
    hide *;
    if n > 0 {
      var next := Tick(env, p, w);
      FirstStep(env, p, n, w, next);
      CalmFirst(env, p, n, w, next);
      TickDepth(env, p, w);
      CountOne(depth, TickEvents(env, p, w), fetched);
      CountThread(env, p, n, w, next, depth, fetched);
      DepthIsHeight(env, p, n - 1, next, Count(depth, TickEvents(env, p, w), fetched), fetched);
    } else {
      CountNothing(env, p, w, depth, fetched);
    }
  }

  lemma CountThread(env: Env, p: Program, n: nat, w: Thread, next: Thread, depth: int, fetched: int)
    requires n > 0 && Located(p, w) && Located(p, next) && next == Tick(env, p, w)
    ensures Count(depth, ThreadEvents(env, p, n, w), fetched)
            == Count(Count(depth, TickEvents(env, p, w), fetched), ThreadEvents(env, p, n - 1, next), fetched)
  {
    hide *;
    FirstEvents(env, p, n, w, next, []);
    var a, b := TickEvents(env, p, w), ThreadEvents(env, p, n - 1, next);
    assert [] + ThreadEvents(env, p, n, w) == ThreadEvents(env, p, n, w) && [] + a == a;
    CountAppends(depth, a, b, fetched);
  }

  lemma CountNothing(env: Env, p: Program, w: Thread, depth: int, fetched: int)
    requires Located(p, w)
    ensures Count(depth, ThreadEvents(env, p, 0, w), fetched) == depth && Ticks(env, p, 0, w) == w
  {
  }

  lemma CalmFirst(env: Env, p: Program, n: nat, w: Thread, next: Thread)
    requires n > 0 && Located(p, w) && Located(p, next) && next == Tick(env, p, w) && CalmThread(env, p, n, w)
    ensures CalmTick(env, p, w)
    ensures CalmThread(env, p, n - 1, next)
  {
    hide Tick;
    hide CalmTick;
  }
}
