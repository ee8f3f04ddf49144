/**
 The depth in the flow records: for every line of a calm thread it is the height of the stack of
 calls at that line.
 */
module RecordedDepth {
  import opened Wrappers
  import J = Jvm
  import I = Instrumentation
  import Programs
  import ProgramTraces
  import Trace
  import DefinitionIndex
  import opened Recorder
  import opened Recordings
  import opened Trackers
  import opened Replay
  import StreamFormat
  import opened Composition

  // ---------------------------------------------------------------- the depth behind a trace

  // Entries count up, exits down; the first entry and the observed catch blocks fetch the depth
  // from the stack.
  function DepthBehind(w: World, t: seq<J.Event>): int {
    if t == [] then -1
    else
      var k := |t| - 1;
      var d := DepthBehind(w, t[..k]);
      match t[k]
      case DepthIncreased => if d == -1 then w.fetched(k) else d + 1
      case DepthDecreased => d - 1
      case DepthFetched => w.fetched(k)
      case _ => d
  }

  lemma {:induction false} RecorderDepth(w: World, t: seq<J.Event>, s: State)
    requires Fresh(s) && s.depth == -1 && NoErrors(Hooks(w, t)) && !Run(Hooks(w, t), s).disabled
    ensures Run(Hooks(w, t), s).depth == DepthBehind(w, t)
    decreases |t|
  {
    hide *;
    CalmSoFar(Hooks(w, t), s);
    if t != [] {
      var k := |t| - 1;
      HooksStep(w, t);
      CalmStep(Hooks(w, t), s);
      CalmMeans(Hooks(w, t[..k]), s);
      RecorderDepth(w, t[..k], s);
      DepthStepTaken(w, t, Run(Hooks(w, t[..k]), s), Run(Hooks(w, t), s));
    } else {
      DepthAtStart(w, s);
    }
  }

  lemma DepthAtStart(w: World, s: State)
    ensures Run(Hooks(w, []), s) == s && DepthBehind(w, []) == -1
  {
  }

  // The last hook does to the depth what the last event does.
  lemma DepthStepTaken(w: World, t: seq<J.Event>, before: State, after: State)
    requires t != []
    requires var k := |t| - 1;
             var call := Hooks(w, t)[k];
             && call == HookOf(w, k, |Tell(t[..k]).lines|, t[k]) && before.depth == DepthBehind(w, t[..k])
             && if call.Line? then after.depth == before.depth else after == Track(before, call)
    ensures after.depth == DepthBehind(w, t)
  {
    hide Hooks;
    hide Tell;
    hide AddReference;
    hide AddField;
    hide PutSlot;
    hide ShouldBeSkipped;
  }

  lemma CalmMeans(calls: seq<Call>, s: State)
    requires Calm(calls, s)
    ensures NoErrors(calls) && !Run(calls, s).disabled
  {
    hide Run;
  }

  lemma {:induction false} HooksOfPrefix(w: World, t: seq<J.Event>, n: nat)
    requires n <= |t|
    ensures Hooks(w, t)[..n] == Hooks(w, t[..n])
    decreases |t|
  {
    if n == |t| {
      assert t[..n] == t;
    } else {
      HooksStep(w, t);
      HooksOfPrefix(w, t[..|t| - 1], n);
      assert t[..|t| - 1][..n] == t[..n];
      assert Hooks(w, t)[..n] == Hooks(w, t)[..|t| - 1][..n];
    }
  }

  lemma {:induction false} HookAt(w: World, t: seq<J.Event>, n: nat)
    requires n < |t|
    ensures Hooks(w, t)[n].Line? <==> t[n].LineExecuted?
    decreases |t|
  {
    HooksStep(w, t);
    if n < |t| - 1 {
      HookAt(w, t[..|t| - 1], n);
      assert Hooks(w, t)[n] == Hooks(w, t)[..|t| - 1][n];
    } else {
      HookKind(w, n, |Tell(t[..n]).lines|, t[n]);
    }
  }

  // The k-th merged line is that of event p, and its record holds this depth.
  ghost predicate RecordsAt(w: World, t: seq<J.Event>, s: State, k: nat, p: nat, depth: int) {
    && k < |Expected(Hooks(w, t), s)| && k < |CapturedAt(Hooks(w, t), s)| && CapturedAt(Hooks(w, t), s)[k] == p
    && Expected(Hooks(w, t), s)[k].record.depth == depth
  }

  /** Every line of a trace that is reached before capture is given up has its record, with the
      depth that the events before it amount to. */
  lemma LineRecordsDepth(w: World, t: seq<J.Event>, s: State, p: nat) returns (k: nat)
    requires Fresh(s) && s.depth == -1 && NoErrors(Hooks(w, t)) && p < |t| && t[p].LineExecuted?
    requires !Run(Hooks(w, t[..p]), s).disabled
    ensures RecordsAt(w, t, s, k, p, DepthBehind(w, t[..p]))
  {
    var hooks := Hooks(w, t);
    HooksOfPrefix(w, t, p);
    HookAt(w, t, p);
    assert NoErrors(Hooks(w, t[..p])) by { ErrorsBefore(hooks, p); }
    hide *;
    RecorderDepth(w, t[..p], s);
    NoLineLeftOut(hooks, s, p);
    k :| 0 <= k < |CapturedAt(hooks, s)| && CapturedAt(hooks, s)[k] == p;
    StreamFormat.SameLength(hooks, s);
    StreamFormat.ExpectedIsCaptured(hooks, s, k);
    DepthOfRecord(Run(hooks[..p], s), hooks[p], Expected(hooks, s)[k]);
    Recorded(w, t, s, k, p, DepthBehind(w, t[..p]));
  }

  lemma Recorded(w: World, t: seq<J.Event>, s: State, k: nat, p: nat, depth: int)
    requires k < |Expected(Hooks(w, t), s)| && k < |CapturedAt(Hooks(w, t), s)| && CapturedAt(Hooks(w, t), s)[k] == p
    requires Expected(Hooks(w, t), s)[k].record.depth == depth
    ensures RecordsAt(w, t, s, k, p, depth)
  {
  }

  lemma ErrorsBefore(calls: seq<Call>, n: nat)
    requires n <= |calls| && NoErrors(calls)
    ensures NoErrors(calls[..n])
  {
  }

  lemma DepthOfRecord(before: State, call: Call, line: Merged)
    requires StreamFormat.CapturedAs(before, call, line)
    ensures line.record.depth == before.depth
  {
  }

  // ---------------------------------------------------------------- the depth of a thread

  lemma OneMoreEvent(w: World, t: seq<J.Event>, e: J.Event)
    ensures !Trace.Belongs(Trace.Depths, e) ==> DepthBehind(w, t + [e]) == DepthBehind(w, t)
    ensures e == J.DepthIncreased && DepthBehind(w, t) != -1 ==> DepthBehind(w, t + [e]) == DepthBehind(w, t) + 1
    ensures e == J.DepthDecreased ==> DepthBehind(w, t + [e]) == DepthBehind(w, t) - 1
  {
    assert (t + [e])[..|t|] == t;
  }

  lemma SplitEvents(head: seq<J.Event>, e: J.Event)
    ensures var before, all := Trace.Only(Trace.Depths, head), Trace.Only(Trace.Depths, head + [e]);
            if Trace.Belongs(Trace.Depths, e) then |all| == |before| + 1 && all[|before|] == e && all[..|before|] == before else all == before
  {
    Trace.OnlyAppends(Trace.Depths, head, [e]);
    Trace.OnlyOne(Trace.Depths, e);
    hide Trace.Only;
  }

  // What the events of one tick do to a depth that is known.
  lemma {:induction false} DepthOfEvents(w: World, t: seq<J.Event>, es: seq<J.Event>)
    ensures Trace.Only(Trace.Depths, es) == [] ==> DepthBehind(w, t + es) == DepthBehind(w, t)
    ensures Trace.Only(Trace.Depths, es) == [J.DepthIncreased] && DepthBehind(w, t) != -1 ==> DepthBehind(w, t + es) == DepthBehind(w, t) + 1
    ensures Trace.Only(Trace.Depths, es) == [J.DepthDecreased] ==> DepthBehind(w, t + es) == DepthBehind(w, t) - 1
    decreases |es|
  {
    hide *;
    if es == [] {
      assert t + es == t;
      Trace.OnlyNone(Trace.Depths);
    } else {
      var head, e := es[..|es| - 1], es[|es| - 1];
      DepthOfEvents(w, t, head);
      assert es == head + [e] && t + es == (t + head) + [e];
      SplitEvents(head, e);
      OneMoreEvent(w, t + head, e);
    }
  }

  /** On calm runs the depth moves as the stack of calls does. */
  lemma {:induction false} DepthAlong(env: J.Env, p: Programs.Program, n: nat, x: Programs.Thread, w: World, t: seq<J.Event>)
    requires Programs.CallersOk(p, x) && Programs.SafeThread(env, p, n, x) && ProgramTraces.CalmThread(env, p, n, x)
    requires ProgramTraces.ObservesDepth(p) && Programs.Ticks(env, p, n, x).state != J.Wrong
    requires DepthBehind(w, t) >= ProgramTraces.Height(x) - 1
    ensures DepthBehind(w, t + Programs.ThreadEvents(env, p, n, x))
            == DepthBehind(w, t) + ProgramTraces.Height(Programs.Ticks(env, p, n, x)) - ProgramTraces.Height(x)
    decreases n
  {
    hide *;
    if n > 0 {
      var next := Programs.Tick(env, p, x);
      Programs.FirstStep(env, p, n, x, next);
      ProgramTraces.CalmFirst(env, p, n, x, next);
      ProgramTraces.TickDepth(env, p, x);
      Programs.FirstEvents(env, p, n, x, next, t);
      var es := Programs.TickEvents(env, p, x);
      LowestStays(env, p, x);
      DepthOfEvents(w, t, es);
      DepthAlong(env, p, n - 1, next, w, t + es);
    } else {
      NothingAlong(env, p, x, t);
    }
  }

  // A thread that has ended goes on as it is.
  lemma LowestStays(env: J.Env, p: Programs.Program, x: Programs.Thread)
    requires Programs.Located(p, x)
    ensures ProgramTraces.Height(x) >= 0
    ensures ProgramTraces.Height(x) == 0 ==> ProgramTraces.Height(Programs.Tick(env, p, x)) == 0
  {
  }

  lemma NothingAlong(env: J.Env, p: Programs.Program, x: Programs.Thread, t: seq<J.Event>)
    requires Programs.Located(p, x)
    ensures t + Programs.ThreadEvents(env, p, 0, x) == t && Programs.Ticks(env, p, 0, x) == x
  {
  }

  // ---------------------------------------------------------------- runs cut short

  lemma {:induction false} ThreadPrefix(env: J.Env, p: Programs.Program, j: nat, n: nat, x: Programs.Thread)
    requires j <= n && Programs.CallersOk(p, x) && Programs.SafeThread(env, p, n, x) && ProgramTraces.CalmThread(env, p, n, x)
    requires x.state != J.Wrong && Programs.Ticks(env, p, n, x).state != J.Wrong
    ensures Programs.SafeThread(env, p, j, x) && ProgramTraces.CalmThread(env, p, j, x) && Programs.Ticks(env, p, j, x).state != J.Wrong
    ensures Programs.ThreadEvents(env, p, j, x) <= Programs.ThreadEvents(env, p, n, x)
    decreases j
  {
    hide *;
    if n > 0 {
      var next := Programs.Tick(env, p, x);
      Programs.FirstStep(env, p, n, x, next);
      ProgramTraces.CalmFirst(env, p, n, x, next);
      if j > 0 {
        ThreadPrefix(env, p, j - 1, n - 1, next);
        PrefixStep(env, p, j, n, x, next);
      } else {
        PrefixNone(env, p, n, x);
      }
    } else {
      PrefixNone(env, p, n, x);
    }
  }

  lemma PrefixStep(env: J.Env, p: Programs.Program, j: nat, n: nat, x: Programs.Thread, next: Programs.Thread)
    requires 0 < j <= n && Programs.Located(p, x) && Programs.Located(p, next) && next == Programs.Tick(env, p, x)
    requires Programs.SafeThread(env, p, j - 1, next) && Programs.TickSafe(env, p, x)
    requires ProgramTraces.CalmThread(env, p, j - 1, next) && ProgramTraces.CalmTick(env, p, x)
    requires Programs.Ticks(env, p, j - 1, next).state != J.Wrong
    requires Programs.ThreadEvents(env, p, j - 1, next) <= Programs.ThreadEvents(env, p, n - 1, next)
    ensures Programs.SafeThread(env, p, j, x) && ProgramTraces.CalmThread(env, p, j, x) && Programs.Ticks(env, p, j, x).state != J.Wrong
    ensures Programs.ThreadEvents(env, p, j, x) <= Programs.ThreadEvents(env, p, n, x)
  {
    hide Programs.Tick;
    hide Programs.TickSafe;
    hide Programs.TickEvents;
    hide ProgramTraces.CalmTick;
  }

  lemma PrefixNone(env: J.Env, p: Programs.Program, n: nat, x: Programs.Thread)
    requires Programs.Located(p, x) && x.state != J.Wrong
    ensures Programs.SafeThread(env, p, 0, x) && ProgramTraces.CalmThread(env, p, 0, x) && Programs.Ticks(env, p, 0, x).state != J.Wrong
    ensures Programs.ThreadEvents(env, p, 0, x) <= Programs.ThreadEvents(env, p, n, x)
  {
    hide Programs.TickEvents;
    hide Programs.Tick;
  }

  // ---------------------------------------------------------------- the whole way

  // The next thing the thread does is to enter a line whose execution is observed.
  predicate AtLine(p: Programs.Program, x: Programs.Thread)
    requires Programs.Located(p, x)
  {
    && x.state.At? && x.state.pc < |p.codes[x.id].body.code|
    && p.codes[x.id].body.code[x.state.pc].LineMark? && p.codes[x.id].cfg.flow.Some?
  }

  lemma LineTick(env: J.Env, p: Programs.Program, x: Programs.Thread)
    requires Programs.Located(p, x) && AtLine(p, x) && Programs.TickSafe(env, p, x)
    ensures Programs.TickEvents(env, p, x) != [] && Programs.TickEvents(env, p, x)[0].LineExecuted?
  {
    hide J.Exec;
    hide I.Captured;
    hide I.ContextAfter;
    hide I.LabelNumber;
    hide J.ToShort;
  }

  lemma LineNext(env: J.Env, p: Programs.Program, j: nat, n: nat, x: Programs.Thread)
    requires j < n && Programs.CallersOk(p, x) && Programs.SafeThread(env, p, n, x) && ProgramTraces.CalmThread(env, p, n, x)
    requires x.state != J.Wrong && Programs.Ticks(env, p, n, x).state != J.Wrong
    requires AtLine(p, Programs.Ticks(env, p, j, x))
    ensures var a, b := Programs.ThreadEvents(env, p, j, x), Programs.ThreadEvents(env, p, n, x);
            a <= b && |a| < |b| && b[|a|].LineExecuted?
    decreases j
  {
    hide *;
    ThreadPrefix(env, p, j, n, x);
    var next := Programs.Tick(env, p, x);
    Programs.FirstStep(env, p, n, x, next);
    ProgramTraces.CalmFirst(env, p, n, x, next);
    Programs.FirstEvents(env, p, n, x, next, []);
    Unpadded(env, p, n, x);
    if j > 0 {
      FirstTick(env, p, j, x, next);
      LineNext(env, p, j - 1, n - 1, next);
      Programs.FirstEvents(env, p, j, x, next, []);
      Unpadded(env, p, j, x);
    } else {
      NothingAlong(env, p, x, []);
      Unpadded(env, p, 0, x);
      LineTick(env, p, x);
    }
  }

  lemma Unpadded(env: J.Env, p: Programs.Program, n: nat, x: Programs.Thread)
    requires Programs.Located(p, x)
    ensures [] + Programs.ThreadEvents(env, p, n, x) == Programs.ThreadEvents(env, p, n, x)
    ensures [] + Programs.TickEvents(env, p, x) == Programs.TickEvents(env, p, x)
  {
  }

  lemma FirstTick(env: J.Env, p: Programs.Program, j: nat, x: Programs.Thread, next: Programs.Thread)
    requires j > 0 && Programs.Located(p, x) && Programs.Located(p, next) && next == Programs.Tick(env, p, x)
    ensures Programs.Ticks(env, p, j, x) == Programs.Ticks(env, p, j - 1, next)
  {
    hide Programs.Tick;
  }

  /** For every line a calm thread enters, the flow record of the line holds the height of the
      stack of calls at that moment, counted from the depth fetched when the thread began. */
  lemma RecordedDepthIsHeight(env: J.Env, p: Programs.Program, j: nat, n: nat, id: nat, f: J.Frame, w: World,
                              definitions: seq<DefinitionIndex.CompleteVariableDefinition>) returns (k: nat)
    requires id < |p.codes| && f.trace == [] && j < n && ProgramTraces.ObservesDepth(p) && w.fetched(0) >= 0
    requires var start := Programs.Thread([], id, J.At(0, f));
             && Programs.SafeThread(env, p, n, start) && ProgramTraces.CalmThread(env, p, n, start)
             && Programs.Ticks(env, p, n, start).state != J.Wrong
             && AtLine(p, Programs.Ticks(env, p, j, start))
             && (var trace := Programs.EntryEvents(p.codes[id].cfg) + Programs.ThreadEvents(env, p, n, start);
                 var before := Programs.EntryEvents(p.codes[id].cfg) + Programs.ThreadEvents(env, p, j, start);
                 NoErrors(Hooks(w, trace)) && !Run(Hooks(w, before), Start(definitions)).disabled)
    ensures var start := Programs.Thread([], id, J.At(0, f));
            var trace := Programs.EntryEvents(p.codes[id].cfg) + Programs.ThreadEvents(env, p, n, start);
            var before := Programs.EntryEvents(p.codes[id].cfg) + Programs.ThreadEvents(env, p, j, start);
            RecordsAt(w, trace, Start(definitions), k, |before|,
                      w.fetched(0) + ProgramTraces.Height(Programs.Ticks(env, p, j, start)) - 1)
  {
    hide *;
    var start := Programs.Thread([], id, J.At(0, f));
    var entry := Programs.EntryEvents(p.codes[id].cfg);
    Programs.ThreadStarts(env, p, id, f);
    EntryDepth(w, p, id);
    FreshStart(definitions);
    StartHeight(id, f);
    var trace := entry + Programs.ThreadEvents(env, p, n, start);
    var before := entry + Programs.ThreadEvents(env, p, j, start);
    ThreadLine(env, p, j, n, start, w, entry, trace, before);
    k := LineRecordsDepth(w, trace, Start(definitions), |before|);
  }

  // The line stands in the trace behind what came before it, and the depth there is the height.
  lemma ThreadLine(env: J.Env, p: Programs.Program, j: nat, n: nat, x: Programs.Thread, w: World,
                   entry: seq<J.Event>, trace: seq<J.Event>, before: seq<J.Event>)
    requires j < n && Programs.CallersOk(p, x) && Programs.SafeThread(env, p, n, x) && ProgramTraces.CalmThread(env, p, n, x)
    requires ProgramTraces.ObservesDepth(p) && x.state != J.Wrong && Programs.Ticks(env, p, n, x).state != J.Wrong
    requires AtLine(p, Programs.Ticks(env, p, j, x)) && DepthBehind(w, entry) >= ProgramTraces.Height(x) - 1
    requires trace == entry + Programs.ThreadEvents(env, p, n, x) && before == entry + Programs.ThreadEvents(env, p, j, x)
    ensures |before| < |trace| && trace[..|before|] == before && trace[|before|].LineExecuted?
    ensures DepthBehind(w, before)
            == DepthBehind(w, entry) + ProgramTraces.Height(Programs.Ticks(env, p, j, x)) - ProgramTraces.Height(x)
  {
    hide *;
    ThreadPrefix(env, p, j, n, x);
    LineNext(env, p, j, n, x);
    DepthAlong(env, p, j, x, w, entry);
    var a, b := Programs.ThreadEvents(env, p, j, x), Programs.ThreadEvents(env, p, n, x);
    assert trace[|before|] == b[|a|];
  }

  lemma StartHeight(id: nat, f: J.Frame)
    ensures ProgramTraces.Height(Programs.Thread([], id, J.At(0, f))) == 1
  {
  }

  lemma EntryDepth(w: World, p: Programs.Program, id: nat)
    requires id < |p.codes| && ProgramTraces.ObservesDepth(p)
    ensures DepthBehind(w, Programs.EntryEvents(p.codes[id].cfg)) == w.fetched(0)
  {
    assert p.codes[id].cfg.depth.Some?;
  }

  lemma FreshStart(definitions: seq<DefinitionIndex.CompleteVariableDefinition>)
    ensures Fresh(Start(definitions)) && Start(definitions).depth == -1
  {
  }
}
