/**
 From a program to its recording: the trace of a rewritten run goes through the recorder,
 and the merged lines tell the run of the original method.
 */
module Composition {
  import opened Wrappers
  import J = Jvm
  import I = Instrumentation
  import Simulation
  import Equivalence
  import Programs
  import ProgramTraces
  import Trace
  import View = ShallowView
  import DefinitionIndex
  import Documents
  import opened Recorder
  import opened Recordings
  import opened Trackers
  import opened Replay

  // What a hook call adds to its arguments: how values look; for the n-th line the time, the
  // heap, and what happens inside its capture; and the depth of the stack.
  datatype World = World(
    valueOf: J.Value -> View.Value,
    identity: J.Value -> int,
    now: nat -> int,
    heapAt: nat -> View.Heap,
    inner: nat -> seq<Call>,
    mishap: nat -> Mishap,
    fetched: nat -> int)

  function Number(n: int): nat {
    if n < 0 then 0 else n
  }

  // ---------------------------------------------------------------- what a run tells

  // What was modified, in order; of the variables only what a method exit has not dumped.
  datatype Since = Since(
    arrays: seq<J.Value>, collections: seq<J.Value>, maps: seq<J.Value>, fields: seq<J.Event>, variables: seq<J.Event>)

  // A line, and what was modified since the line before.
  datatype Told = Told(line: J.Event, since: Since)

  datatype Tale = Tale(lines: seq<Told>, since: Since)

  const NOTHING := Since([], [], [], [], [])

  function Tell(t: seq<J.Event>): Tale {
    if t == [] then Tale([], NOTHING) else TellMore(Tell(t[..|t| - 1]), t[|t| - 1])
  }

  function TellMore(tale: Tale, e: J.Event): Tale {
    match e
    case LineExecuted(_, _, _, _) => Tale(tale.lines + [Told(e, tale.since)], NOTHING)
    case _ => tale.(since := Modify(tale.since, e))
  }

  function Modify(s: Since, e: J.Event): Since {
    match e
    case ArrayModified(a) => s.(arrays := s.arrays + [a])
    case CollectionModified(v) => s.(collections := s.collections + [v])
    case MapModified(v) => s.(maps := s.maps + [v])
    case FieldModified(_, _, _) => s.(fields := s.fields + [e])
    case VariableModified(_, _) => s.(variables := s.variables + [e])
    case LeftoversDumped => s.(variables := [])
    case _ => s
  }

  // Depth changes are no part of the story.
  lemma {:induction false} TellStory(t: seq<J.Event>)
    ensures Tell(Trace.Only(Trace.Story, t)) == Tell(t)
    decreases |t|
  {
    hide Trace.Only;
    hide TellMore;
    if t != [] {
      var head, e := t[..|t| - 1], t[|t| - 1];
      TellStory(head);
      assert t == head + [e];
      Trace.OnlyAppends(Trace.Story, head, [e]);
      Trace.OnlyOne(Trace.Story, e);
      var story := Trace.Only(Trace.Story, head);
      DepthTellsNothing(Tell(head), e);
      if Trace.Belongs(Trace.Story, e) {
        TellOneMore(story, e);
      } else {
        assert story + [] == story;
      }
    } else {
      Trace.OnlyNone(Trace.Story);
    }
  }

  lemma TellOneMore(t: seq<J.Event>, e: J.Event)
    ensures Tell(t + [e]) == TellMore(Tell(t), e)
  {
    assert (t + [e])[..|t|] == t;
  }

  lemma DepthTellsNothing(tale: Tale, e: J.Event)
    ensures !Trace.Belongs(Trace.Story, e) ==> TellMore(tale, e) == tale
  {
  }

  // ---------------------------------------------------------------- the calls of the recorder

  function FieldOf(w: World, e: J.Event): Field
    requires e.FieldModified?
  {
    match e
    case FieldModified(holder, name, value) => Field(w.identity(holder), name, w.valueOf(value), w.identity(value))
  }

  // The k-th event of a trace, behind n lines, as a call of the recorder.
  function HookOf(w: World, k: nat, n: nat, e: J.Event): Call {
    match e
    case ArrayModified(a) => ArrayModification(w.valueOf(a))
    case FieldModified(_, _, _) => FieldModification(FieldOf(w, e))
    case VariableModified(slot, held) => VariableModification(slot, w.valueOf(held))
    case LineExecuted(c, m, line, number) =>
      Line(Number(c), Number(m), line, number, w.now(n), w.heapAt(n), w.inner(n), w.mishap(n))
    case LeftoversDumped => Dump
    case CollectionModified(v) => CollectionModification(w.valueOf(v))
    case MapModified(v) => MapModification(w.valueOf(v))
    case DepthIncreased => Increase(w.fetched(k))
    case DepthDecreased => Decrease
    case DepthFetched => Fetch(w.fetched(k))
  }

  function Hooks(w: World, t: seq<J.Event>): (r: seq<Call>)
    ensures |r| == |t|
  {
    if t == [] then []
    else
      var head := t[..|t| - 1];
      Hooks(w, head) + [HookOf(w, |head|, |Tell(head).lines|, t[|t| - 1])]
  }

  lemma HooksStep(w: World, t: seq<J.Event>)
    requires t != []
    ensures var head := t[..|t| - 1];
            Hooks(w, t)[..|t| - 1] == Hooks(w, head)
            && Hooks(w, t)[|t| - 1] == HookOf(w, |t| - 1, |Tell(head).lines|, t[|t| - 1])
  {
    hide Tell;
    hide HookOf;
  }

  lemma HookKind(w: World, k: nat, n: nat, e: J.Event)
    ensures HookOf(w, k, n, e).Line? <==> e.LineExecuted?
    ensures !HookOf(w, k, n, e).VariableDefinition? && !HookOf(w, k, n, e).Tag?
  {
  }

  // ---------------------------------------------------------------- what was told, as it is collected

  function ValuesOf(w: World, vs: seq<J.Value>): seq<View.Value> {
    if vs == [] then [] else ValuesOf(w, vs[..|vs| - 1]) + [w.valueOf(vs[|vs| - 1])]
  }

  // Each value once, where it comes first.
  function Once(vs: seq<View.Value>): seq<View.Value> {
    if vs == [] then []
    else
      var before, v := Once(vs[..|vs| - 1]), vs[|vs| - 1];
      if v in before then before else before + [v]
  }

  // The field assignments, Hibernate collections left out.
  function FieldsTold(w: World, es: seq<J.Event>): seq<Field> {
    if es == [] then []
    else
      var before, e := FieldsTold(w, es[..|es| - 1]), es[|es| - 1];
      if !e.FieldModified? || ShouldBeSkipped(FieldOf(w, e).value) then before else before + [FieldOf(w, e)]
  }

  // Of equal fields the first.
  function OnceEqual(fs: seq<Field>): seq<Field> {
    if fs == [] then []
    else
      var before, f := OnceEqual(fs[..|fs| - 1]), fs[|fs| - 1];
      if exists g :: g in before && g.Same(f) then before else before + [f]
  }

  // The last value of each slot, Hibernate collections left out.
  function LastValues(w: World, es: seq<J.Event>): seq<Slot> {
    if es == [] then []
    else
      var before := LastValues(w, es[..|es| - 1]);
      match es[|es| - 1]
      case VariableModified(slot, held) => if ShouldBeSkipped(w.valueOf(held)) then before else PutSlot(before, slot, w.valueOf(held))
      case _ => before
  }

  // The n-th line collects, of what was told, each array, collection and map once, each
  // variable in scope with its last value, and the fields: all of them, or for the first line
  // all up to equality.
  function CollectedOf(w: World, log: seq<DefinitionIndex.CompleteVariableDefinition>, n: nat, told: Told): Collected
    requires told.line.LineExecuted?
  {
    var fields := FieldsTold(w, told.since.fields);
    Collected(
      Resolve(LastValues(w, told.since.variables), log, Number(told.line.classIndex), Number(told.line.methodIndex), told.line.labelNumber),
      Once(ValuesOf(w, told.since.arrays)),
      Once(ValuesOf(w, told.since.collections)),
      Once(ValuesOf(w, told.since.maps)),
      if n == 0 then OnceEqual(fields) else fields)
  }

  // At its n-th line the recorder gives up: something threw, or does not pack.
  predicate GivesUp(w: World, log: seq<DefinitionIndex.CompleteVariableDefinition>, n: nat, told: Told)
    requires told.line.LineExecuted?
  {
    var c := CollectedOf(w, log, n, told);
    w.mishap(n).FlowThrows? || (c.Count() != 0 && !(w.mishap(n).Fine? && Packs(c, w.heapAt(n))))
  }

  // The record names the line, its time and, for the first line, the tag given before.
  predicate Names(w: World, n: nat, tag: Option<string>, r: FlowRecord, line: J.Event) {
    && line.LineExecuted? && r.c == line.classIndex && r.m == line.methodIndex && r.line == line.line
    && r.time == w.now(n) && r.tag == if n == 0 then tag else None
  }

  // The snapshot shows exactly what the line collects, in the heap of the line; there is none
  // when there is nothing, or when the recorder gives up.
  function Shown(w: World, log: seq<DefinitionIndex.CompleteVariableDefinition>, n: nat, told: Told): Option<seq<View.Entry>>
    requires told.line.LineExecuted?
  {
    var c := CollectedOf(w, log, n, told);
    if c.Count() == 0 || GivesUp(w, log, n, told) then None else Some(Views(Entries(c), w.heapAt(n)))
  }

  predicate LinesOnly(told: seq<Told>) {
    forall k :: 0 <= k < |told| ==> told[k].line.LineExecuted?
  }

  // The merged lines are the lines told, up to the first at which the recorder gives up.
  ghost predicate TellsTheTale(w: World, s: State, lines: seq<Merged>, told: seq<Told>, disabled: bool) {
    && LinesOnly(told)
    && |lines| <= |told| && (!disabled ==> |lines| == |told|)
    && (forall k :: 0 <= k < |lines| ==>
          Names(w, k, s.tag, lines[k].record, told[k].line) && lines[k].sn == Shown(w, s.definitions, k, told[k]))
    && (forall k :: 0 <= k < |lines| - 1 ==> !GivesUp(w, s.definitions, k, told[k]))
    && (disabled <==> lines != [] && GivesUp(w, s.definitions, |lines| - 1, told[|lines| - 1]))
  }

  // ---------------------------------------------------------------- what the recorder holds

  predicate HoldsReferences(w: World, held: State, since: Since) {
    && held.arrays == Once(ValuesOf(w, since.arrays))
    && held.collections == Once(ValuesOf(w, since.collections))
    && held.maps == Once(ValuesOf(w, since.maps))
  }

  predicate HoldsVariables(w: World, held: State, since: Since) {
    held.variables == LastValues(w, since.variables)
  }

  predicate HoldsFields(w: World, first: bool, held: State, since: Since) {
    && held.byReference == !first
    && held.fields == if first then OnceEqual(FieldsTold(w, since.fields)) else FieldsTold(w, since.fields)
  }

  predicate HoldsTag(s: State, first: bool, held: State) {
    held.definitions == s.definitions && held.tag == if first then s.tag else None
  }

  // The trackers hold what was told since the last line.
  predicate Holds(w: World, s: State, first: bool, held: State, since: Since) {
    HoldsReferences(w, held, since) && HoldsVariables(w, held, since) && HoldsFields(w, first, held, since) && HoldsTag(s, first, held)
  }

  lemma OneMoreValue(w: World, vs: seq<J.Value>, v: J.Value)
    ensures Once(ValuesOf(w, vs + [v])) == AddReference(Once(ValuesOf(w, vs)), w.valueOf(v))
  {
    assert (vs + [v])[..|vs|] == vs;
    var before := ValuesOf(w, vs);
    assert (before + [w.valueOf(v)])[..|before|] == before;
  }

  lemma OneMoreField(w: World, es: seq<J.Event>, e: J.Event)
    requires e.FieldModified?
    ensures var f, before := FieldOf(w, e), FieldsTold(w, es);
            && FieldsTold(w, es + [e]) == (if ShouldBeSkipped(f.value) then before else AddField(before, true, f))
            && OnceEqual(FieldsTold(w, es + [e])) == (if ShouldBeSkipped(f.value) then OnceEqual(before) else AddField(OnceEqual(before), false, f))
  {
    assert (es + [e])[..|es|] == es;
    var f, before := FieldOf(w, e), FieldsTold(w, es);
    assert (before + [f])[..|before|] == before;
  }

  lemma OneMoreVariable(w: World, es: seq<J.Event>, e: J.Event)
    requires e.VariableModified?
    ensures var v := match e case VariableModified(_, held) => w.valueOf(held);
            LastValues(w, es + [e]) == if ShouldBeSkipped(v) then LastValues(w, es) else PutSlot(LastValues(w, es), e.slot, v)
  {
    assert (es + [e])[..|es|] == es;
  }

  lemma HoldsStep(w: World, s: State, first: bool, held: State, since: Since, k: nat, n: nat, e: J.Event)
    requires Holds(w, s, first, held, since) && !e.LineExecuted?
    ensures !HookOf(w, k, n, e).Line? && Holds(w, s, first, Track(held, HookOf(w, k, n, e)), Modify(since, e))
  {
    hide Once;
    hide ValuesOf;
    hide LastValues;
    hide FieldsTold;
    hide OnceEqual;
    hide FieldOf;
    hide AddReference;
    hide AddField;
    hide PutSlot;
    hide ShouldBeSkipped;
    match e
    case ArrayModified(a) => OneMoreValue(w, since.arrays, a);
    case CollectionModified(v) => OneMoreValue(w, since.collections, v);
    case MapModified(v) => OneMoreValue(w, since.maps, v);
    case FieldModified(_, _, _) => OneMoreField(w, since.fields, e);
    case VariableModified(_, _) => OneMoreVariable(w, since.variables, e);
    case LeftoversDumped => assert LastValues(w, []) == [] by { NothingTold(w); }
    case _ =>
  }

  lemma NothingTold(w: World)
    ensures LastValues(w, []) == [] && Once(ValuesOf(w, [])) == [] && FieldsTold(w, []) == [] && OnceEqual([]) == []
  {
  }

  lemma HoldsNothing(w: World, s: State, first: bool, held: State)
    requires held.Emptied().(byReference := !first) == held && held.definitions == s.definitions && held.tag == (if first then s.tag else None)
    ensures Holds(w, s, first, held, NOTHING)
  {
    NothingTold(w);
  }

  /** At any time the trackers hold exactly what was told since the last line: arrays,
      collections and maps once each, of each slot the last value, the fields in order, before
      the first line up to equality. */
  lemma {:induction false} CollectedTold(w: World, t: seq<J.Event>, s: State)
    requires Calm(Hooks(w, t), s)
    ensures Holds(w, s, Tell(t).lines == [], Run(Hooks(w, t), s), Tell(t).since)
    decreases |t|
  {
    hide Run;
    hide Hooks;
    hide Holds;
    hide Calm;
    hide HookOf;
    hide Modify;
    hide Track;
    if t != [] {
      var head, e, hooks := t[..|t| - 1], t[|t| - 1], Hooks(w, t);
      HooksStep(w, t);
      CalmStep(hooks, s);
      CollectedTold(w, head, s);
      var n := |Tell(head).lines|;
      HookKind(w, |t| - 1, n, e);
      var before := Run(Hooks(w, head), s);
      if e.LineExecuted? {
        LineLeaves(w, s, Tell(head).lines == [], before, Run(hooks, s), Tell(head).since);
      } else {
        HoldsStep(w, s, Tell(head).lines == [], before, Tell(head).since, |t| - 1, n, e);
      }
    } else {
      HoldsAtStart(w, s);
    }
  }

  lemma LineLeaves(w: World, s: State, first: bool, before: State, after: State, since: Since)
    requires Holds(w, s, first, before, since)
    requires after == after.Emptied() && after.tag == None && after.definitions == before.definitions
    ensures Holds(w, s, false, after, NOTHING)
  {
    HoldsNothing(w, s, false, after);
  }

  lemma HoldsAtStart(w: World, s: State)
    requires Calm(Hooks(w, []), s)
    ensures Holds(w, s, true, Run(Hooks(w, []), s), NOTHING)
  {
    HoldsNothing(w, s, true, s);
  }

  // ---------------------------------------------------------------- each once, and nothing else

  lemma {:induction false} ValuesAre(w: World, vs: seq<J.Value>, v: View.Value)
    ensures v in ValuesOf(w, vs) <==> exists a :: a in vs && w.valueOf(a) == v
    decreases |vs|
  {
    if vs != [] {
      var before, last := vs[..|vs| - 1], vs[|vs| - 1];
      ValuesAre(w, before, v);
      assert vs == before + [last];
      assert forall a :: a in vs <==> a in before || a == last;
    }
  }

  /** An array, collection or map is collected exactly when it was told, and once. */
  lemma {:induction false} OnceExactly(vs: seq<View.Value>)
    ensures Distinct(Once(vs)) && forall v :: v in Once(vs) <==> v in vs
    decreases |vs|
  {
    if vs != [] {
      var before, last := vs[..|vs| - 1], vs[|vs| - 1];
      OnceExactly(before);
      assert vs == before + [last];
    }
  }

  // Event k gives the slot its value, and no later one gives it another.
  predicate LastSets(w: World, es: seq<J.Event>, k: nat, slot: int, v: View.Value) {
    && k < |es| && SetsTo(w, es[k], slot, v)
    && forall j :: k < j < |es| ==> !SetsSlot(w, es[j], slot)
  }

  predicate SetsTo(w: World, e: J.Event, slot: int, v: View.Value) {
    SetsSlot(w, e, slot) && (match e case VariableModified(_, held) => w.valueOf(held) == v case _ => false)
  }

  predicate SetsSlot(w: World, e: J.Event, slot: int) {
    match e case VariableModified(n, held) => n == slot && !ShouldBeSkipped(w.valueOf(held)) case _ => false
  }

  /** A slot is held with a value exactly when that is the last one told for it, and once. */
  lemma {:induction false} LastValuesExactly(w: World, es: seq<J.Event>)
    ensures OneValuePerSlot(LastValues(w, es))
    ensures forall slot, v :: Slot(slot, v) in LastValues(w, es) <==> exists k: nat :: LastSets(w, es, k, slot, v)
    decreases |es|
  {
    hide OneValuePerSlot;
    hide PutSlot;
    if es != [] {
      var before, e := es[..|es| - 1], es[|es| - 1];
      LastValuesExactly(w, before);
      if e.VariableModified? { SlotPut(LastValues(w, before), e.slot, w.valueOf(e.held)); }
      forall slot, v
        ensures Slot(slot, v) in LastValues(w, es) <==> exists k: nat :: LastSets(w, es, k, slot, v)
      {
        LastSetsStep(w, es, slot, v);
      }
    } else {
      NoSlots();
    }
  }

  lemma LastSetsStep(w: World, es: seq<J.Event>, slot: int, v: View.Value)
    requires es != []
    ensures var before, e := es[..|es| - 1], es[|es| - 1];
            (exists k: nat :: LastSets(w, es, k, slot, v))
            <==> SetsTo(w, e, slot, v) || (!SetsSlot(w, e, slot) && exists k: nat :: LastSets(w, before, k, slot, v))
  {
    hide SetsTo;
    hide SetsSlot;
    var last := |es| - 1;
    var before := es[..last];
    assert SetsTo(w, es[last], slot, v) ==> LastSets(w, es, last, slot, v);
    assert forall k: nat :: k < last ==> es[k] == before[k];
    assert forall k: nat :: k < last ==> (LastSets(w, es, k, slot, v) <==> LastSets(w, before, k, slot, v) && !SetsSlot(w, es[last], slot));
  }

  /** Of the fields told before the first line each is collected, itself or as an equal one,
      nothing else is, and no two are equal. */
  lemma {:induction false} OnceEqualExactly(fs: seq<Field>)
    ensures HeldUpToEquality(OnceEqual(fs), fs)
    decreases |fs|
  {
    if fs != [] {
      var before, f := fs[..|fs| - 1], fs[|fs| - 1];
      OnceEqualExactly(before);
      FieldHeld(OnceEqual(before), before, f);
      assert before + [f] == fs;
    }
  }

  // ---------------------------------------------------------------- recorded lines against told lines

  predicate Numbered(t: seq<J.Event>) {
    forall k :: 0 <= k < |t| && t[k].LineExecuted? ==> t[k].classIndex >= 0 && t[k].methodIndex >= 0
  }

  // Only a last line whose mishap struck while its flow record was written has no record.
  predicate TornLast(w: World, cs: seq<Capture>, lines: seq<Merged>) {
    LastFlowTorn(cs) <==> lines != [] && w.mishap(|lines| - 1).FlowThrows?
  }

  /** For every trace the merged lines tell it: they are its lines, in order, up to and with
      the first at which the recorder gives up, and each shows exactly what was modified since
      the line before. */
  lemma {:induction false} RecordingTells(w: World, t: seq<J.Event>, s: State)
    requires Fresh(s) && NoErrors(Hooks(w, t)) && Numbered(t)
    ensures TellsTheTale(w, s, Expected(Hooks(w, t), s), Tell(t).lines, Run(Hooks(w, t), s).disabled)
    ensures TornLast(w, Captures(Hooks(w, t), s), Expected(Hooks(w, t), s))
    decreases |t|
  {
    hide *;
    if t != [] {
      var head, e, hooks := t[..|t| - 1], t[|t| - 1], Hooks(w, t);
      TellStep(t);
      HooksStep(w, t);
      ErrorsOfPrefix(hooks);
      RecordingTells(w, head, s);
      ExpectedStep(hooks, s);
      CapturesStep(hooks, s);
      HookKind(w, |t| - 1, |Tell(head).lines|, e);
      if Run(Hooks(w, head), s).disabled {
        GivenUpStays(hooks, s);
        TaleGrows(w, s, Expected(Hooks(w, head), s), Tell(head), e);
      } else if e.LineExecuted? {
        LineTold(w, t, s);
      } else {
        StillEnabled(hooks, s);
        SameTale(w, s, Expected(Hooks(w, head), s), Tell(head), e);
      }
    } else {
      StartEnabled(s);
      NoTale(w, s);
    }
  }

  lemma StartEnabled(s: State)
    ensures Fresh(s) ==> !s.disabled
  {
  }

  lemma TellStep(t: seq<J.Event>)
    requires t != []
    ensures Tell(t) == TellMore(Tell(t[..|t| - 1]), t[|t| - 1])
    ensures Numbered(t) ==> Numbered(t[..|t| - 1])
  {
    hide TellMore;
  }

  lemma StillEnabled(calls: seq<Call>, s: State)
    requires calls != [] && Fresh(s) && NoErrors(calls) && !calls[|calls| - 1].Line? && !Run(calls[..|calls| - 1], s).disabled
    ensures !Run(calls, s).disabled
  {
    CapturesStep(calls, s);
    hide Run;
    TrackKeepsStreams(Run(calls[..|calls| - 1], s), calls[|calls| - 1]);
  }

  lemma NoTale(w: World, s: State)
    requires !s.disabled
    ensures TellsTheTale(w, s, Expected(Hooks(w, []), s), Tell([]).lines, Run(Hooks(w, []), s).disabled)
    ensures TornLast(w, Captures(Hooks(w, []), s), Expected(Hooks(w, []), s))
  {
  }

  lemma TaleGrows(w: World, s: State, lines: seq<Merged>, tale: Tale, e: J.Event)
    requires TellsTheTale(w, s, lines, tale.lines, true)
    ensures TellsTheTale(w, s, lines, TellMore(tale, e).lines, true)
  {
    hide Shown;
    hide GivesUp;
    hide Names;
    var more := TellMore(tale, e).lines;
    assert forall k :: 0 <= k < |tale.lines| ==> more[k] == tale.lines[k];
  }

  lemma SameTale(w: World, s: State, lines: seq<Merged>, tale: Tale, e: J.Event)
    requires TellsTheTale(w, s, lines, tale.lines, false) && !e.LineExecuted?
    ensures TellsTheTale(w, s, lines, TellMore(tale, e).lines, false)
  {
  }

  // A line executed while capture is on.
  lemma LineTold(w: World, t: seq<J.Event>, s: State)
    requires t != [] && t[|t| - 1].LineExecuted? && Fresh(s) && NoErrors(Hooks(w, t)) && Numbered(t)
    requires var before := Hooks(w, t[..|t| - 1]);
             !Run(before, s).disabled && TellsTheTale(w, s, Expected(before, s), Tell(t[..|t| - 1]).lines, false)
    ensures TellsTheTale(w, s, Expected(Hooks(w, t), s), Tell(t).lines, Run(Hooks(w, t), s).disabled)
    ensures TornLast(w, Captures(Hooks(w, t), s), Expected(Hooks(w, t), s))
  {
    var head, e, hooks := t[..|t| - 1], t[|t| - 1], Hooks(w, t);
    var told := Told(e, Tell(head).since);
    var n := |Tell(head).lines|;
    var before, call := Hooks(w, head), HookOf(w, |t| - 1, n, e);
    assert e.classIndex >= 0 && e.methodIndex >= 0 && n == |Expected(before, s)|;
    assert Tell(t) == TellMore(Tell(head), e);
    HookKind(w, |t| - 1, n, e);
    hide *;
    HooksStep(w, t);
    ErrorsOfPrefix(hooks);
    CalmSoFar(before, s);
    OnlyTheLastIsTorn(before, s);
    CollectedTold(w, head, s);
    assert (Tell(head).lines == []) == (n == 0);
    LineShown(w, s, Run(before, s), n, |t| - 1, told);
    CapturedAtLine(before, call, s);
    assert hooks == before + [call];
    TaleEndsWith(w, s, Expected(before, s), Tell(head).lines, Merged(FlowRecordOf(Run(before, s), call), ReportOf(Run(before, s), call)), told);
    TornEndsWith(w, Captures(before, s), Expected(before, s), CaptureOf(Run(before, s), call), Merged(FlowRecordOf(Run(before, s), call), ReportOf(Run(before, s), call)));
    OneMoreLine(Tell(head), e);
  }

  lemma OneMoreLine(tale: Tale, e: J.Event)
    requires e.LineExecuted?
    ensures TellMore(tale, e).lines == tale.lines + [Told(e, tale.since)]
  {
  }

  lemma TornEndsWith(w: World, cs: seq<Capture>, lines: seq<Merged>, cap: Capture, line: Merged)
    requires cap.flow.Torn? <==> w.mishap(|lines|).FlowThrows?
    ensures TornLast(w, cs + [cap], lines + [line])
  {
  }

  lemma CalmSoFar(calls: seq<Call>, s: State)
    requires Fresh(s) && NoErrors(calls) && !Run(calls, s).disabled
    ensures Calm(calls, s) && s.guard == 0 && !s.disabled
  {
    hide Run;
  }

  lemma CapturedAtLine(before: seq<Call>, call: Call, s: State)
    requires call.Line? && !ThrowsError(call) && Run(before, s).guard == 0 && !Run(before, s).disabled
    ensures var state := Run(before, s);
            && Expected(before + [call], s) == Expected(before, s) + [Merged(FlowRecordOf(state, call), ReportOf(state, call))]
            && Captures(before + [call], s) == Captures(before, s) + [CaptureOf(state, call)]
            && (Run(before + [call], s).disabled <==> !CapturedWhole(CaptureOf(state, call)))
  {
    hide Run;
    hide Expected;
    hide Captures;
    hide CaptureOf;
    hide ReportOf;
    hide ThrowsError;
    var all := before + [call];
    assert all[..|all| - 1] == before && all[|all| - 1] == call;
    ExpectedStep(all, s);
    CapturesStep(all, s);
    GivesUpExactly(Run(before, s), call);
  }

  // What is captured at the n-th line is what was told.
  lemma LineShown(w: World, s: State, state: State, n: nat, k: nat, told: Told)
    requires told.line.LineExecuted? && told.line.classIndex >= 0 && told.line.methodIndex >= 0
    requires Holds(w, s, n == 0, state, told.since)
    ensures var call := HookOf(w, k, n, told.line);
            && call.Line?
            && Names(w, n, s.tag, FlowRecordOf(state, call), told.line)
            && ReportOf(state, call) == Shown(w, s.definitions, n, told)
            && (CapturedWhole(CaptureOf(state, call)) <==> !GivesUp(w, s.definitions, n, told))
            && (CaptureOf(state, call).flow.Torn? <==> w.mishap(n).FlowThrows?)
  {
    hide Once;
    hide ValuesOf;
    hide LastValues;
    hide FieldsTold;
    hide OnceEqual;
    hide Resolve;
    hide Packs;
    hide Entries;
    hide Views;
    hide Documents.Flatten;
    hide FlowDoc;
    hide SnapshotDoc;
    var call := HookOf(w, k, n, told.line);
    assert Collect(state, call.c, call.m, call.label_) == CollectedOf(w, s.definitions, n, told);
  }

  lemma TaleEndsWith(w: World, s: State, lines: seq<Merged>, told: seq<Told>, line: Merged, t: Told)
    requires TellsTheTale(w, s, lines, told, false) && t.line.LineExecuted?
    requires Names(w, |told|, s.tag, line.record, t.line) && line.sn == Shown(w, s.definitions, |told|, t)
    ensures TellsTheTale(w, s, lines + [line], told + [t], GivesUp(w, s.definitions, |told|, t))
  {
    hide Shown;
    hide GivesUp;
    hide Names;
  }

  // ---------------------------------------------------------------- the whole way

  /** The whole way, for every method, every combination of visitors that observes arrays and
      lines, and every run of any length: the rewritten method arrives where the original does,
      with a trace; the recorder, fed with this trace, writes two streams; joined, they are the
      lines the original method entered, in order, up to and with the first at which the
      recorder gives up, and each shows exactly what the original modified since the line
      before. Every line has its flow record, but a last one whose own record was torn. */
  lemma RecordingTellsTheRun(env: J.Env, cfg: I.Config, m: J.Method, n: nat, f: J.Frame, w: World,
                             definitions: seq<DefinitionIndex.CompleteVariableDefinition>)
    requires Simulation.OriginalMethod(cfg, m) && Simulation.SafeFor(env, cfg, m, n, J.At(0, f)) && f.trace == []
    requires J.Run(env, m, n, J.At(0, f)) != J.Wrong
    requires cfg.arrays
    requires cfg.flow.Some? ==> 0 <= cfg.flow.value.classIndex < 0x8000 && 0 <= cfg.flow.value.methodIndex < 0x8000
    ensures var trace := Programs.EntryEvents(cfg) + Simulation.RunEvents(env, cfg, m, n, J.At(0, f));
            var steps := |I.Prologue(cfg)| + Simulation.Costs(env, cfg, m, n, J.At(0, f));
            && J.Run(env, I.TransformMethod(cfg, m), steps, J.At(0, f))
               == Simulation.Image(cfg, m, J.Run(env, m, n, J.At(0, f)), trace)
            && (NoErrors(Hooks(w, trace)) ==>
                  TraceReplays(w, trace, definitions, Trace.RunReport(env, cfg, Trace.Story, m, n, J.At(0, f))))
  {
    var s := J.At(0, f);
    var events := Simulation.RunEvents(env, cfg, m, n, s);
    var trace := Programs.EntryEvents(cfg) + events;
    RunArrives(env, cfg, m, n, f);
    Trace.TraceIsFaithful(env, cfg, Trace.Story, m, n, s);
    PrologueTellsNothing(cfg, events);
    if NoErrors(Hooks(w, trace)) {
      LinesNumbered(env, cfg, m, n, s);
      hide *;
      RecordingTellsTheStory(w, trace, definitions);
    }
  }

  // The streams written for a trace decode and join to the lines of a story.
  ghost predicate TraceReplays(w: World, trace: seq<J.Event>, definitions: seq<DefinitionIndex.CompleteVariableDefinition>,
                               story: seq<J.Event>)
  {
    var after := Run(Hooks(w, trace), Start(definitions));
    var lines := Expected(Hooks(w, trace), Start(definitions));
    && MergesTo(LinesOf(after.flow).0, LinesOf(after.snapshots).0, lines)
    && |lines| == |LinesOf(after.flow).0| + (if lines != [] && w.mishap(|lines| - 1).FlowThrows? then 1 else 0)
    && TellsTheTale(w, Start(definitions), lines, Tell(story).lines, after.disabled)
  }

  /** Every recorded trace replays to the lines of its story. */
  lemma RecordingTellsTheStory(w: World, trace: seq<J.Event>, definitions: seq<DefinitionIndex.CompleteVariableDefinition>)
    requires NoErrors(Hooks(w, trace)) && Numbered(Trace.Only(Trace.Story, trace))
    ensures TraceReplays(w, trace, definitions, Trace.Only(Trace.Story, trace))
  {
    StoryNumbers(trace);
    StartIsFresh(definitions);
    TellStory(trace);
    hide *;
    RecordingTells(w, trace, Start(definitions));
    RecordingReplays(Hooks(w, trace), Start(definitions));
    PutTogether(w, trace, definitions, Trace.Only(Trace.Story, trace));
  }

  lemma PutTogether(w: World, trace: seq<J.Event>, definitions: seq<DefinitionIndex.CompleteVariableDefinition>, story: seq<J.Event>)
    requires Tell(story) == Tell(trace)
    requires var after, lines := Run(Hooks(w, trace), Start(definitions)), Expected(Hooks(w, trace), Start(definitions));
             && MergesTo(LinesOf(after.flow).0, LinesOf(after.snapshots).0, lines)
             && |lines| == |LinesOf(after.flow).0| + (if LastFlowTorn(Captures(Hooks(w, trace), Start(definitions))) then 1 else 0)
             && TellsTheTale(w, Start(definitions), lines, Tell(trace).lines, after.disabled)
             && TornLast(w, Captures(Hooks(w, trace), Start(definitions)), lines)
    ensures TraceReplays(w, trace, definitions, story)
  {
    hide Run;
    hide Expected;
    hide Captures;
    hide LinesOf;
    hide MergesTo;
    hide TellsTheTale;
    hide Tell;
    hide Hooks;
    hide Start;
    hide LastFlowTorn;
  }

  lemma RunArrives(env: J.Env, cfg: I.Config, m: J.Method, n: nat, f: J.Frame)
    requires Simulation.OriginalMethod(cfg, m) && Simulation.SafeFor(env, cfg, m, n, J.At(0, f)) && f.trace == []
    requires J.Run(env, m, n, J.At(0, f)) != J.Wrong
    ensures J.Run(env, I.TransformMethod(cfg, m), |I.Prologue(cfg)| + Simulation.Costs(env, cfg, m, n, J.At(0, f)), J.At(0, f))
            == Simulation.Image(cfg, m, J.Run(env, m, n, J.At(0, f)),
                                Programs.EntryEvents(cfg) + Simulation.RunEvents(env, cfg, m, n, J.At(0, f)))
  {
    hide *;
    EntryArrives(env, cfg, m, f);
    Simulation.RunSimulates(env, cfg, m, n, J.At(0, f), Programs.EntryEvents(cfg));
    J.RunAdds(env, I.TransformMethod(cfg, m), |I.Prologue(cfg)|, Simulation.Costs(env, cfg, m, n, J.At(0, f)), J.At(0, f));
  }

  lemma EntryArrives(env: J.Env, cfg: I.Config, m: J.Method, f: J.Frame)
    requires f.trace == []
    ensures J.Run(env, I.TransformMethod(cfg, m), |I.Prologue(cfg)|, J.At(0, f))
            == Simulation.Image(cfg, m, J.At(0, f), Programs.EntryEvents(cfg))
  {
    hide J.Run;
    hide I.TransformMethod;
    hide I.Prologue;
    hide Simulation.Image;
    Equivalence.EntrySimulates(env, cfg, m, f);
    assert f.trace + Programs.EntryEvents(cfg) == Programs.EntryEvents(cfg);
  }

  lemma PrologueTellsNothing(cfg: I.Config, events: seq<J.Event>)
    ensures Trace.Only(Trace.Story, Programs.EntryEvents(cfg) + events) == Trace.Only(Trace.Story, events)
  {
    Trace.OnlyAppends(Trace.Story, Programs.EntryEvents(cfg), events);
    Trace.OnlyNone(Trace.Story);
    Trace.OnlyOne(Trace.Story, J.DepthIncreased);
    assert [] + Trace.Only(Trace.Story, events) == Trace.Only(Trace.Story, events);
  }

  lemma {:induction false} LinesNumbered(env: J.Env, cfg: I.Config, m: J.Method, n: nat, s: J.State)
    requires cfg.flow.Some? ==> 0 <= cfg.flow.value.classIndex < 0x8000 && 0 <= cfg.flow.value.methodIndex < 0x8000
    ensures Numbered(Trace.RunReport(env, cfg, Trace.Story, m, n, s))
  {
    hide J.Step;
    hide Trace.StepReport;
    if n > 0 {
      LinesNumbered(env, cfg, m, n - 1, J.Step(env, m, s));
      StepNumbered(env, cfg, m, s);
    }
  }

  lemma StepNumbered(env: J.Env, cfg: I.Config, m: J.Method, s: J.State)
    requires cfg.flow.Some? ==> 0 <= cfg.flow.value.classIndex < 0x8000 && 0 <= cfg.flow.value.methodIndex < 0x8000
    ensures Numbered(Trace.StepReport(env, cfg, Trace.Story, m, s))
  {
    hide Trace.StepStory;
    hide Trace.Only;
    if s.At? && s.pc < |m.code| {
      var story := Trace.StepStory(env, cfg, m, s.pc, s.frame);
      StoryNumbered(env, cfg, m, s.pc, s.frame);
      Trace.StoryNoDepth(env, cfg, m, s.pc, s.frame);
      Trace.AllStory(story);
    }
  }

  lemma StoryNumbered(env: J.Env, cfg: I.Config, m: J.Method, pc: nat, f: J.Frame)
    requires pc < |m.code|
    requires cfg.flow.Some? ==> 0 <= cfg.flow.value.classIndex < 0x8000 && 0 <= cfg.flow.value.methodIndex < 0x8000
    ensures Numbered(Trace.StepStory(env, cfg, m, pc, f))
  {
    hide J.Exec;
    hide I.ContextAfter;
    hide I.Captured;
    hide I.CollectionPlanOf;
    hide I.MapCall;
    hide Trace.SlotReport;
    var i := m.code[pc];
    Trace.OnlyVariables(I.Captured(cfg, I.ContextAfter(m.code[..pc]), i), f.locals);
    if cfg.flow.Some? {
      Trace.ShortExactly(cfg.flow.value.classIndex);
      Trace.ShortExactly(cfg.flow.value.methodIndex);
      hide J.ToShort;
    }
  }

  lemma {:induction false} StoryNumbers(t: seq<J.Event>)
    requires Numbered(Trace.Only(Trace.Story, t))
    ensures Numbered(t)
    decreases |t|
  {
    hide Trace.Only;
    hide Numbered;
    if t != [] {
      var head, e := t[..|t| - 1], t[|t| - 1];
      assert t == head + [e];
      Trace.OnlyAppends(Trace.Story, head, [e]);
      Trace.OnlyOne(Trace.Story, e);
      var story := Trace.Only(Trace.Story, head);
      assert story + [] == story;
      NumberedParts(story, e);
      NumberedParts(head, e);
      StoryNumbers(head);
    } else {
      NumberedNone();
    }
  }

  lemma NumberedNone()
    ensures Numbered([])
  {
  }

  lemma NumberedParts(t: seq<J.Event>, e: J.Event)
    ensures Numbered(t + [e]) <==> Numbered(t) && (e.LineExecuted? ==> e.classIndex >= 0 && e.methodIndex >= 0)
  {
    assert forall k :: 0 <= k < |t| ==> (t + [e])[k] == t[k];
    assert (t + [e])[|t|] == e;
  }

  // ---------------------------------------------------------------- whole programs

  predicate SmallNumbers(p: Programs.Program) {
    forall k :: 0 <= k < |p.codes| && p.codes[k].cfg.flow.Some? ==>
      0 <= p.codes[k].cfg.flow.value.classIndex < 0x8000 && 0 <= p.codes[k].cfg.flow.value.methodIndex < 0x8000
  }

  lemma {:induction false} ThreadNumbered(env: J.Env, p: Programs.Program, n: nat, x: Programs.Thread)
    requires Programs.Located(p, x) && SmallNumbers(p)
    ensures Numbered(ProgramTraces.ThreadReport(env, p, Trace.Story, n, x))
    decreases n
  {
    hide Programs.Tick;
    hide ProgramTraces.TickReport;
    if n > 0 {
      TickNumbered(env, p, x);
      ThreadNumbered(env, p, n - 1, Programs.Tick(env, p, x));
    }
  }

  lemma TickNumbered(env: J.Env, p: Programs.Program, x: Programs.Thread)
    requires Programs.Located(p, x) && SmallNumbers(p)
    ensures Numbered(ProgramTraces.TickReport(env, p, Trace.Story, x))
  {
    hide Trace.StepReport;
    hide Programs.Enters;
    hide Programs.Outside;
    if Programs.Enters(p, x) {
    } else if Programs.Resumes(x) {
      var code := p.codes[x.callers[|x.callers| - 1].id];
      StepNumbered(Programs.Answering(env, Programs.AnswerOf(x.state)), code.cfg, code.body, Programs.Waiting(x));
    } else {
      StepNumbered(Programs.Outside(env, p), p.codes[x.id].cfg, p.codes[x.id].body, x.state);
    }
  }

  /** The whole way for a whole program, whose methods call each other to any depth: its
      rewritten thread arrives where the original thread does, and the recording of its
      interleaved trace replays to what all the activations of the original did. */
  lemma RecordingTellsTheThread(env: J.Env, p: Programs.Program, n: nat, id: nat, f: J.Frame, w: World,
                                definitions: seq<DefinitionIndex.CompleteVariableDefinition>)
    requires Programs.OriginalProgram(p) && id < |p.codes| && f.trace == []
    requires ProgramTraces.ObservesArrays(p) && SmallNumbers(p)
    requires var start := Programs.Thread([], id, J.At(0, f));
             Programs.SafeThread(env, p, n, start) && Programs.Ticks(env, p, n, start).state != J.Wrong
    ensures var start := Programs.Thread([], id, J.At(0, f));
            var trace := Programs.EntryEvents(p.codes[id].cfg) + Programs.ThreadEvents(env, p, n, start);
            && Programs.CallersOk(p, start) && Programs.CallersOk(p, Programs.Ticks(env, p, n, start))
            && Programs.Ticks(env, Programs.Rewritten(p), |I.Prologue(p.codes[id].cfg)| + Programs.ThreadCosts(env, p, n, start), start)
               == Programs.ThreadImage(p, Programs.Ticks(env, p, n, start), trace)
            && (NoErrors(Hooks(w, trace)) ==>
                  TraceReplays(w, trace, definitions, ProgramTraces.ThreadReport(env, p, Trace.Story, n, start)))
  {
    hide *;
    var start, cfg := Programs.Thread([], id, J.At(0, f)), p.codes[id].cfg;
    StartLocated(p, start);
    var events := Programs.ThreadEvents(env, p, n, start);
    var trace := Programs.EntryEvents(cfg) + events;
    Programs.ThreadStarts(env, p, id, f);
    Programs.ThreadSimulates(env, p, n, start, Programs.EntryEvents(cfg));
    Programs.TicksAdd(env, Programs.Rewritten(p), |I.Prologue(cfg)|, Programs.ThreadCosts(env, p, n, start), start);
    StoryObserved(p);
    ProgramTraces.ThreadTrace(env, p, Trace.Story, n, start);
    PrologueTellsNothing(cfg, events);
    ThreadNumbered(env, p, n, start);
    if NoErrors(Hooks(w, trace)) {
      RecordingTellsTheStory(w, trace, definitions);
    }
  }

  lemma StartLocated(p: Programs.Program, start: Programs.Thread)
    requires start.callers == [] && start.id < |p.codes|
    ensures Programs.Located(p, start) && Programs.Located(Programs.Rewritten(p), start)
  {
  }

  lemma StoryObserved(p: Programs.Program)
    requires ProgramTraces.ObservesArrays(p)
    ensures !Trace.EventClass.Story.Depths? && (Trace.NeedsArrays(Trace.Story) ==> ProgramTraces.ObservesArrays(p))
  {
  }
}
