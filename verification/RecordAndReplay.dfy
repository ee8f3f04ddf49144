/** The objects put together: hooks in, merged lines out. */
module RecordAndReplay {
  import opened Wrappers
  import opened Recorder
  import opened Recordings
  import opened Replay
  import FlowCapture

  // The same hook; what a line capture threw is not up to the caller.
  ghost predicate SameHook(call: Call, happened: Call) {
    if call.Line? then happened.Line? && happened == call.(mishap := happened.mishap) else happened == call
  }

  // Nothing but packing a snapshot throws, and only exceptions.
  predicate OnlySnapshotsThrow(call: Call) {
    call.Line? ==> !call.mishap.FlowThrows? && (call.mishap.SnapshotThrows? ==> !call.mishap.error)
  }

  // A captured line throws exactly when something collected does not pack.
  ghost predicate ThrowsWhenUnpackable(s: State, call: Call) {
    call.Line? && s.guard == 0 && !s.disabled ==>
      var collected := Collect(s, call.c, call.m, call.label_);
      call.mishap.Fine? <==> collected.Count() == 0 || Packs(collected, call.heap)
  }

  ghost predicate AllThrowWhenUnpackable(calls: seq<Call>, s: State) {
    calls == []
    || (AllThrowWhenUnpackable(calls[..|calls| - 1], s) && ThrowsWhenUnpackable(Run(calls[..|calls| - 1], s), calls[|calls| - 1]))
  }

  method Execute(call: Call, flow: FlowCapture.Flow) returns (ghost happened: Call)
    requires flow.Valid()
    modifies flow.Footprint()
    ensures flow.Valid() && flow.View() == Next(old(flow.View()), happened)
    ensures SameHook(call, happened) && OnlySnapshotsThrow(happened) && ThrowsWhenUnpackable(old(flow.View()), happened)
  {
    happened := call;
    match call
    case Line(c, m, line, label_, now, heap, inner, _) =>
      ghost var mishap := flow.CaptureLineExecution(c, m, line, label_, now, heap, inner);
      happened := call.(mishap := mishap);
    case ArrayModification(v) => flow.CaptureArrayModification(v);
    case CollectionModification(v) => flow.CaptureCollectionModification(v);
    case MapModification(v) => flow.CaptureMapModification(v);
    case FieldModification(f) => flow.CaptureFieldModification(f);
    case VariableModification(index, v) => flow.CaptureVariableModification(v, index);
    case VariableDefinition(d) => flow.CaptureVariableDefinition(d);
    case Tag(tag) => flow.CaptureTag(tag);
    case Dump => flow.DumpLeftoverVariableStateAtMethodExit();
    case Increase(fetched) => flow.Increase(fetched);
    case Decrease => flow.Decrease();
    case Fetch(fetched) => flow.Fetch(fetched);
  }

  ghost predicate SameHooks(calls: seq<Call>, happened: seq<Call>) {
    |happened| == |calls| && forall k :: 0 <= k < |calls| ==> SameHook(calls[k], happened[k])
  }

  method RecordAll(calls: seq<Call>) returns (flow: FlowCapture.Flow, ghost happened: seq<Call>)
    ensures flow.Valid() && fresh(flow.Footprint())
    ensures SameHooks(calls, happened) && flow.View() == Run(happened, Start([]))
    ensures forall k :: 0 <= k < |happened| ==> OnlySnapshotsThrow(happened[k])
    ensures AllThrowWhenUnpackable(happened, Start([]))
  {
    hide Next;
    hide SameHook;
    hide OnlySnapshotsThrow;
    hide ThrowsWhenUnpackable;
    flow := new FlowCapture.Flow();
    happened := [];
    for k := 0 to |calls|
      invariant flow.Valid() && fresh(flow.Footprint())
      invariant SameHooks(calls[..k], happened)
      invariant forall j :: 0 <= j < |happened| ==> OnlySnapshotsThrow(happened[j])
      invariant AllThrowWhenUnpackable(happened, Start([]))
      invariant flow.View() == Run(happened, Start([]))
    {
      ghost var done := Execute(calls[k], flow);
      assert (happened + [done])[..k] == happened;
      happened := happened + [done];
    }
    assert calls[..|calls|] == calls;
  }

  /** Recording any sequence of hooks with a new flow and merging its two streams gives
      exactly the lines executed with what each collected, including the line at which
      capture was given up. */
  method RecordThenMerge(calls: seq<Call>) returns (lines: array<Merged>, ghost happened: seq<Call>)
    ensures SameHooks(calls, happened) && AllThrowWhenUnpackable(happened, Start([]))
    ensures lines[..] == Expected(happened, Start([]))
  {
    hide Run;
    hide Expected;
    hide LinesOf;
    hide FlowAt;
    hide SnapshotAt;
    hide Joined;
    hide SameHooks;
    hide AllThrowWhenUnpackable;
    var flow;
    flow, happened := RecordAll(calls);
    var flowLines := LinesOf(flow.perThread.flowPacker.Stream()).0;
    var snapshotLines := LinesOf(flow.perThread.snapshotPacker.Stream()).0;
    StartIsFresh([]);
    RecordingReplays(happened, Start([]));
    ghost var expected := Expected(happened, Start([]));
    assert MergesTo(flowLines, snapshotLines, expected);
    lines := ToJSON(flowLines, snapshotLines);
    assert forall n :: 0 <= n < lines.Length ==> lines[n] == expected[n];
  }
}
