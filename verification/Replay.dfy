/**
 Reading a recording back: the records of both streams, the merge that joins them by step,
 and the bytes on disk.
 */
module Replay {
  import opened Wrappers
  import opened Documents
  import opened ShallowView
  import DefinitionIndex
  import opened Recorder
  import opened Recordings
  import LineBuffer

  // ---------------------------------------------------------------- one record

  function ReadFlow(d: Doc): Option<FlowRecord> {
    if !d.Dict? then None
    else
      var t, c, m, l, sd := AsWhole(Lookup(d.items, "t")), AsWhole(Lookup(d.items, "c")), AsWhole(Lookup(d.items, "m")),
                            AsWhole(Lookup(d.items, "l")), AsWhole(Lookup(d.items, "sd"));
      if t.None? || c.None? || m.None? || l.None? || sd.None? then None
      else Some(FlowRecord(t.value, AsText(Lookup(d.items, "tg")), c.value, m.value, l.value, sd.value))
  }

  datatype Snapshot = Snapshot(step: int, entries: seq<ShallowView.Entry>)

  function ReadEntries(ds: seq<Doc>): Option<seq<ShallowView.Entry>> {
    if ds == [] then Some([])
    else
      var first, others := ReadEntry(ds[0]), ReadEntries(ds[1..]);
      if first.None? || others.None? then None else Some([first.value] + others.value)
  }

  function ReadSnapshot(d: Doc): Option<Snapshot> {
    if !d.Dict? then None
    else
      var i, sn := AsWhole(Lookup(d.items, "i")), Lookup(d.items, "sn");
      if i.None? || sn.None? || !sn.value.List? || ReadEntries(sn.value.items).None? then None
      else Some(Snapshot(i.value, ReadEntries(sn.value.items).value))
  }

  function Views(es: seq<Modified>, h: Heap): (r: seq<ShallowView.Entry>)
    ensures |r| == |es|
  {
    seq(|es|, i requires 0 <= i < |es| => EntryView(es[i].opening, es[i].value, h))
  }

  // A line of a stream holds one record and nothing after it.
  function ParseLine(ts: seq<Token>): Option<Doc> {
    var p := ParseOne(ts);
    if p.Some? && p.value.rest == [] then Some(p.value.value) else None
  }

  lemma LineParses(d: Doc)
    requires WellFormed(d)
    ensures ParseLine(Flatten(d)) == Some(d)
  {
    ParseOfFlatten(d, []);
    assert Flatten(d) + [] == Flatten(d);
  }

  lemma LookupInTag(tag: Option<string>, key: string)
    ensures Lookup(TagDocs(tag), key) == if key == "tg" && tag.Some? then Some(TextDoc(tag.value)) else None
  {
    if tag.Some? {
      LookupOne("tg", TextDoc(tag.value), key);
    }
  }

  lemma LookupInFlow(r: FlowRecord, key: string)
    ensures Lookup(FlowDoc(r).items, key) ==
            if key == "t" then Some(Leaf(Whole(r.time))) else if key == "tg" && r.tag.Some? then Some(TextDoc(r.tag.value))
            else if key == "c" then Some(Leaf(Whole(r.c))) else if key == "m" then Some(Leaf(Whole(r.m)))
            else if key == "l" then Some(Leaf(Whole(r.line))) else if key == "sd" then Some(Leaf(Whole(r.depth))) else None
  {
    hide Lookup;
    var time := [TextDoc("t"), Leaf(Whole(r.time))];
    var cm := [TextDoc("c"), Leaf(Whole(r.c)), TextDoc("m"), Leaf(Whole(r.m))];
    var lsd := [TextDoc("l"), Leaf(Whole(r.line)), TextDoc("sd"), Leaf(Whole(r.depth))];
    LookupOne("t", Leaf(Whole(r.time)), key);
    LookupInTag(r.tag, key);
    LookupTwo("c", Leaf(Whole(r.c)), "m", Leaf(Whole(r.m)), key);
    LookupTwo("l", Leaf(Whole(r.line)), "sd", Leaf(Whole(r.depth)), key);
    assert FlowDoc(r).items == time + TagDocs(r.tag) + cm + lsd;
    LookupAppends(time, TagDocs(r.tag), key);
    LookupAppends(time + TagDocs(r.tag), cm, key);
    LookupAppends(time + TagDocs(r.tag) + cm, lsd, key);
  }

  lemma FlowDocReads(r: FlowRecord)
    ensures ParseLine(Flatten(FlowDoc(r))) == Some(FlowDoc(r)) && ReadFlow(FlowDoc(r)) == Some(r)
  {
    hide Lookup;
    LookupInFlow(r, "t");
    LookupInFlow(r, "tg");
    LookupInFlow(r, "c");
    LookupInFlow(r, "m");
    LookupInFlow(r, "l");
    LookupInFlow(r, "sd");
    FlowWellFormed(r);
    LineParses(FlowDoc(r));
  }

  lemma FlowWellFormed(r: FlowRecord)
    ensures WellFormed(FlowDoc(r))
  {
    LeavesWellFormed(FlowDoc(r).items);
  }

  lemma {:induction false} ReadEntriesByOne(ds: seq<Doc>, es: seq<ShallowView.Entry>)
    requires |ds| == |es| && forall i :: 0 <= i < |ds| ==> ReadEntry(ds[i]) == Some(es[i])
    ensures ReadEntries(ds) == Some(es)
    decreases |ds|
  {
    if ds != [] {
      ReadEntriesByOne(ds[1..], es[1..]);
      assert [es[0]] + es[1..] == es;
    }
  }

  lemma SnapshotWellFormed(step: int, c: Collected, h: Heap)
    ensures WellFormed(SnapshotDoc(step, c, h))
  {
    var docs := EntryDocs(Entries(c), h);
    forall i | 0 <= i < |docs| ensures WellFormed(docs[i]) {
      EntryWellFormed(Entries(c)[i].opening, Entries(c)[i].value, h);
    }
    hide Entries;
    hide EntryDocs;
    AllWellFormedEach(docs);
    AllWellFormedEach([TextDoc("i"), Leaf(Whole(step)), TextDoc("sn"), List(docs)]);
  }

  /** A snapshot that was packed is read back with its step and the shallow view of every
      entry collected, as many as it declares. */
  lemma SnapshotReads(step: int, c: Collected, h: Heap)
    requires Packs(c, h)
    ensures var d := SnapshotDoc(step, c, h);
            && ParseLine(Flatten(d)) == Some(d)
            && ReadSnapshot(d) == Some(Snapshot(step, Views(Entries(c), h)))
            && |Entries(c)| == c.Count()
            && Flatten(List(EntryDocs(Entries(c), h)))[0] == ArrayBegin(c.Count())
  {
    var es := Entries(c);
    var docs, views := EntryDocs(es, h), Views(es, h);
    forall i | 0 <= i < |es| ensures ReadEntry(docs[i]) == Some(views[i]) {
      assert es[i] in es;
      EntryReads(es[i].opening, es[i].value, h);
    }
    ReadEntriesByOne(docs, views);
    SnapshotWellFormed(step, c, h);
    LineParses(SnapshotDoc(step, c, h));
    hide ReadEntry;
    hide EntryDocs;
    hide Views;
    hide Packs;
    LookupTwo("i", Leaf(Whole(step)), "sn", List(docs), "i");
    LookupTwo("i", Leaf(Whole(step)), "sn", List(docs), "sn");
  }

  // ---------------------------------------------------------------- the merge

  function SnapshotAt(line: seq<Token>): Option<Snapshot> {
    var d := ParseLine(line);
    if d.None? then None else ReadSnapshot(d.value)
  }

  function FlowAt(line: seq<Token>): Option<FlowRecord> {
    var d := ParseLine(line);
    if d.None? then None else ReadFlow(d.value)
  }

  // The entries of the last snapshot of the step.
  function Joined(lines: seq<seq<Token>>, step: int): Option<seq<ShallowView.Entry>> {
    if lines == [] then None
    else
      var last := SnapshotAt(lines[|lines| - 1]);
      if last.Some? && last.value.step == step then Some(last.value.entries) else Joined(lines[..|lines| - 1], step)
  }

  // Line k holds a snapshot of the step, and no line behind it does.
  ghost predicate LastSnapshot(lines: seq<seq<Token>>, k: nat, step: int) {
    && k < |lines| && HoldsSnapshot(lines[k], step)
    && forall j :: k < j < |lines| ==> !HoldsSnapshot(lines[j], step)
  }

  predicate HoldsSnapshot(line: seq<Token>, step: int) {
    SnapshotAt(line).Some? && SnapshotAt(line).value.step == step
  }

  /** The entries joined to a step are those of its last snapshot, and there are none exactly
      when it has no snapshot. */
  lemma {:induction false} JoinedExactly(lines: seq<seq<Token>>, step: int)
    ensures if Joined(lines, step).None? then forall k :: 0 <= k < |lines| ==> !HoldsSnapshot(lines[k], step)
            else exists k: nat :: LastSnapshot(lines, k, step) && Joined(lines, step).value == SnapshotAt(lines[k]).value.entries
    decreases |lines|
  {
    hide SnapshotAt;
    if lines != [] {
      var last := |lines| - 1;
      var before := lines[..last];
      JoinedExactly(before, step);
      assert forall k :: 0 <= k < last ==> lines[k] == before[k];
      if HoldsSnapshot(lines[last], step) {
        assert LastSnapshot(lines, last, step);
      } else if Joined(before, step).Some? {
        var k: nat :| LastSnapshot(before, k, step) && Joined(before, step).value == SnapshotAt(before[k]).value.entries;
        assert forall j :: k < j < |lines| ==> j == last || lines[j] == before[j];
        assert LastSnapshot(lines, k, step);
      }
    }
  }

  datatype Merged = Merged(record: FlowRecord, sn: Option<seq<ShallowView.Entry>>)

  /** Puts the entries of each snapshot into the flow record its step names. */
  method ToJSON(flowLines: seq<seq<Token>>, snapshotLines: seq<seq<Token>>) returns (flow: array<Merged>)
    requires forall k :: 0 <= k < |flowLines| ==> FlowAt(flowLines[k]).Some?
    requires forall k :: 0 <= k < |snapshotLines| ==>
               SnapshotAt(snapshotLines[k]).Some? && 0 <= SnapshotAt(snapshotLines[k]).value.step < |flowLines|
    ensures fresh(flow) && flow.Length == |flowLines|
    ensures forall n :: 0 <= n < flow.Length ==> flow[n] == Merged(FlowAt(flowLines[n]).value, Joined(snapshotLines, n))
  {
    hide SnapshotAt;
    hide FlowAt;
    flow := new Merged[|flowLines|](n requires 0 <= n < |flowLines| => Merged(FlowAt(flowLines[n]).value, None));
    for k := 0 to |snapshotLines|
      invariant forall n :: 0 <= n < flow.Length ==> flow[n] == Merged(FlowAt(flowLines[n]).value, Joined(snapshotLines[..k], n))
    {
      var each := SnapshotAt(snapshotLines[k]).value;
      assert snapshotLines[..k + 1][..k] == snapshotLines[..k];
      flow[each.step] := flow[each.step].(sn := Some(each.entries));
    }
    assert snapshotLines[..|snapshotLines|] == snapshotLines;
  }

  // What the line has to report, if its snapshot was written.
  function ReportOf(s: State, call: Call): Option<seq<ShallowView.Entry>>
    requires call.Line?
  {
    var collected := Collect(s, call.c, call.m, call.label_);
    if collected.Count() == 0 || !call.mishap.Fine? || !Packs(collected, call.heap) then None
    else Some(Views(Entries(collected), call.heap))
  }

  lemma CaptureReads(s: State, call: Call)
    requires call.Line?
    ensures var cap := CaptureOf(s, call);
            && (cap.flow.Done? ==> FlowAt(cap.flow.tokens) == Some(FlowRecordOf(s, call)))
            && (ReportOf(s, call).Some? <==> cap.snapshot.Some? && cap.snapshot.value.Done?)
            && (ReportOf(s, call).Some? ==> SnapshotAt(cap.snapshot.value.tokens) == Some(Snapshot(s.step, ReportOf(s, call).value)))
  {
    FlowDocReads(FlowRecordOf(s, call));
    var collected := Collect(s, call.c, call.m, call.label_);
    if Packs(collected, call.heap) {
      SnapshotReads(s.step, collected, call.heap);
    }
  }

  // The lines of the two streams, as far as whole records are concerned.
  function FlowLines(calls: seq<Call>, s: State): seq<seq<Token>> {
    Records(FlowAttempts(Captures(calls, s)))
  }

  function SnapshotLines(calls: seq<Call>, s: State): seq<seq<Token>> {
    Records(SnapshotAttempts(Captures(calls, s)))
  }

  lemma LinesStep(calls: seq<Call>, s: State)
    requires calls != []
    ensures var head, call := calls[..|calls| - 1], calls[|calls| - 1];
            var before := Run(head, s);
            if call.Line? && !before.disabled then
              var cap := CaptureOf(before, call);
              && CapturedAt(calls, s) == CapturedAt(head, s) + [|head|]
              && FlowLines(calls, s) == FlowLines(head, s) + (if cap.flow.Done? then [cap.flow.tokens] else [])
              && SnapshotLines(calls, s) == SnapshotLines(head, s)
                 + (if cap.snapshot.Some? && cap.snapshot.value.Done? then [cap.snapshot.value.tokens] else [])
            else
              CapturedAt(calls, s) == CapturedAt(head, s) && FlowLines(calls, s) == FlowLines(head, s)
              && SnapshotLines(calls, s) == SnapshotLines(head, s)
  {
    hide CaptureOf;
    hide Run;
    hide Records;
    hide FlowAttempts;
    hide SnapshotAttempts;
    var head, call := calls[..|calls| - 1], calls[|calls| - 1];
    var before, cs := Run(head, s), Captures(head, s);
    if call.Line? && !before.disabled {
      CapturesLines(cs, CaptureOf(before, call));
    } else {
      assert Captures(calls, s) == cs;
    }
  }

  lemma CapturesLines(cs: seq<Capture>, cap: Capture)
    ensures Records(FlowAttempts(cs + [cap])) == Records(FlowAttempts(cs)) + (if cap.flow.Done? then [cap.flow.tokens] else [])
    ensures Records(SnapshotAttempts(cs + [cap])) == Records(SnapshotAttempts(cs))
            + (if cap.snapshot.Some? && cap.snapshot.value.Done? then [cap.snapshot.value.tokens] else [])
  {
    var all := cs + [cap];
    assert all[..|cs|] == cs;
    assert FlowAttempts(all)[..|cs|] == FlowAttempts(cs);
    var before := SnapshotAttempts(cs);
    if cap.snapshot.Some? {
      assert (before + [cap.snapshot.value])[..|before|] == before;
    } else {
      assert SnapshotAttempts(all) == before;
    }
  }

  lemma {:induction false} NothingJoined(lines: seq<seq<Token>>, step: int)
    requires forall k :: 0 <= k < |lines| ==> SnapshotAt(lines[k]).Some? && SnapshotAt(lines[k]).value.step < step
    ensures Joined(lines, step) == None
    decreases |lines|
  {
    hide SnapshotAt;
    if lines != [] {
      NothingJoined(lines[..|lines| - 1], step);
    }
  }

  lemma JoinedStep(lines: seq<seq<Token>>, line: seq<Token>, step: int)
    requires SnapshotAt(line).Some?
    ensures Joined(lines + [line], step) ==
            if SnapshotAt(line).value.step == step then Some(SnapshotAt(line).value.entries) else Joined(lines, step)
  {
    hide SnapshotAt;
    assert (lines + [line])[..|lines|] == lines;
  }

  // What a reader should see: the captured lines in order, each with what was collected there.
  function Expected(calls: seq<Call>, s: State): seq<Merged> {
    if calls == [] then []
    else
      var before, call := Run(calls[..|calls| - 1], s), calls[|calls| - 1];
      Expected(calls[..|calls| - 1], s)
      + if call.Line? && !before.disabled then [Merged(FlowRecordOf(before, call), ReportOf(before, call))] else []
  }

  // The lines decode and join to what is expected, except a last flow record that was torn.
  ghost predicate MergesTo(fl: seq<seq<Token>>, sl: seq<seq<Token>>, expected: seq<Merged>) {
    && |fl| <= |expected|
    && (forall n :: 0 <= n < |fl| ==> FlowAt(fl[n]) == Some(expected[n].record))
    && (forall k :: 0 <= k < |sl| ==> SnapshotAt(sl[k]).Some? && 0 <= SnapshotAt(sl[k]).value.step < |fl|)
    && (forall n :: 0 <= n < |expected| ==> Joined(sl, n) == expected[n].sn)
  }

  lemma MergeStep(fl: seq<seq<Token>>, sl: seq<seq<Token>>, expected: seq<Merged>, cap: Capture, m: Merged)
    requires MergesTo(fl, sl, expected) && |fl| == |expected|
    requires if cap.flow.Done? then FlowAt(cap.flow.tokens) == Some(m.record) else cap.snapshot.None?
    requires m.sn.Some? <==> cap.snapshot.Some? && cap.snapshot.value.Done?
    requires m.sn.Some? ==> SnapshotAt(cap.snapshot.value.tokens) == Some(Snapshot(|expected|, m.sn.value))
    ensures MergesTo(fl + (if cap.flow.Done? then [cap.flow.tokens] else []),
                     sl + (if m.sn.Some? then [cap.snapshot.value.tokens] else []), expected + [m])
  {
    assert fl + [] == fl && sl + [] == sl;
    hide SnapshotAt;
    hide FlowAt;
    hide Joined;
    JoinsMore(sl, expected, m, if m.sn.Some? then Some(cap.snapshot.value.tokens) else None);
    if cap.flow.Done? { FlowsMore(fl, expected, m, cap.flow.tokens); }
  }

  lemma FlowsMore(fl: seq<seq<Token>>, expected: seq<Merged>, m: Merged, line: seq<Token>)
    requires |fl| == |expected| && FlowAt(line) == Some(m.record)
    requires forall n :: 0 <= n < |fl| ==> FlowAt(fl[n]) == Some(expected[n].record)
    ensures forall n :: 0 <= n < |fl + [line]| ==> FlowAt((fl + [line])[n]) == Some((expected + [m])[n].record)
  {
    hide FlowAt;
  }

  lemma JoinsMore(sl: seq<seq<Token>>, expected: seq<Merged>, m: Merged, line: Option<seq<Token>>)
    requires forall k :: 0 <= k < |sl| ==> SnapshotAt(sl[k]).Some? && 0 <= SnapshotAt(sl[k]).value.step < |expected|
    requires forall n :: 0 <= n < |expected| ==> Joined(sl, n) == expected[n].sn
    requires line.Some? <==> m.sn.Some?
    requires line.Some? ==> SnapshotAt(line.value) == Some(Snapshot(|expected|, m.sn.value))
    ensures var sl1 := sl + if line.Some? then [line.value] else [];
            && (forall k :: 0 <= k < |sl1| ==> SnapshotAt(sl1[k]).Some? && 0 <= SnapshotAt(sl1[k]).value.step <= |expected|)
            && forall n :: 0 <= n <= |expected| ==> Joined(sl1, n) == (expected + [m])[n].sn
  {
    hide SnapshotAt;
    NothingJoined(sl, |expected|);
    hide Joined;
    var sl1 := sl + if line.Some? then [line.value] else [];
    forall n | 0 <= n <= |expected| ensures Joined(sl1, n) == (expected + [m])[n].sn {
      if line.Some? {
        JoinedStep(sl, line.value, n);
      } else {
        assert sl1 == sl;
      }
    }
  }

  // The last line captured threw while its flow record was written.
  predicate LastFlowTorn(cs: seq<Capture>) {
    cs != [] && cs[|cs| - 1].flow.Torn?
  }

  /** Joining the two streams gives, for every captured line in order, the record of that line
      with exactly what was collected for it, and nothing where nothing was collected. Only a
      last line whose own flow record was torn is missing. */
  lemma {:induction false} MergeIsExact(calls: seq<Call>, s: State)
    requires Fresh(s) && NoErrors(calls)
    ensures MergesTo(FlowLines(calls, s), SnapshotLines(calls, s), Expected(calls, s))
    ensures |Expected(calls, s)| == Run(calls, s).step
    ensures |Expected(calls, s)| == |FlowLines(calls, s)| + if LastFlowTorn(Captures(calls, s)) then 1 else 0
    decreases |calls|
  {
    if calls != [] {
      var head, call := calls[..|calls| - 1], calls[|calls| - 1];
      assert NoErrors(head);
      hide *;
      MergeIsExact(head, s);
      LinesStep(calls, s);
      CapturesStep(calls, s);
      ExpectedStep(calls, s);
      OnlyTheLastIsTorn(head, s);
      if Run(head, s).disabled {
        GivenUpStays(calls, s);
      } else if call.Line? {
        WholeNotTorn(Captures(head, s));
        LineIsExact(head, call, s);
      } else {
        TrackKeepsStreams(Run(head, s), call);
      }
    } else {
      NothingRecorded(calls, s);
      assert LastFlowTorn(Captures(calls, s)) == false by { NothingCaptured(s); }
    }
  }

  lemma LineIsExact(head: seq<Call>, call: Call, s: State)
    requires call.Line? && Run(head, s).guard == 0 && !Run(head, s).disabled && !LastFlowTorn(Captures(head, s))
    requires MergesTo(FlowLines(head, s), SnapshotLines(head, s), Expected(head, s))
    requires |FlowLines(head, s)| == |Expected(head, s)| == Run(head, s).step
    ensures var before := Run(head, s);
            var cap, line := CaptureOf(before, call), Merged(FlowRecordOf(before, call), ReportOf(before, call));
            var fl := FlowLines(head, s) + (if cap.flow.Done? then [cap.flow.tokens] else []);
            var sl := SnapshotLines(head, s) + (if cap.snapshot.Some? && cap.snapshot.value.Done? then [cap.snapshot.value.tokens] else []);
            var expected := Expected(head, s) + [line];
            && MergesTo(fl, sl, expected) && |expected| == Next(before, call).step
            && |expected| == |fl| + if LastFlowTorn(Captures(head, s) + [cap]) then 1 else 0
  {
    hide *;
    LineMerges(head, call, s);
    TornIsLast(Captures(head, s), CaptureOf(Run(head, s), call));
  }

  lemma WholeNotTorn(cs: seq<Capture>)
    ensures cs == [] || CapturedWhole(cs[|cs| - 1]) ==> !LastFlowTorn(cs)
  {
  }

  lemma TornIsLast(cs: seq<Capture>, cap: Capture)
    ensures LastFlowTorn(cs + [cap]) <==> cap.flow.Torn?
  {
  }

  lemma ExpectedStep(calls: seq<Call>, s: State)
    requires calls != []
    ensures var head, call := calls[..|calls| - 1], calls[|calls| - 1];
            Expected(calls, s) == (if call.Line? && !Run(head, s).disabled
                                   then Expected(head, s) + [Merged(FlowRecordOf(Run(head, s), call), ReportOf(Run(head, s), call))]
                                   else Expected(head, s))
  {
    hide Run;
    hide ReportOf;
    assert Expected(calls[..|calls| - 1], s) + [] == Expected(calls[..|calls| - 1], s);
  }

  // One more line, captured after others that are complete.
  lemma LineMerges(head: seq<Call>, call: Call, s: State)
    requires call.Line? && Run(head, s).guard == 0 && !Run(head, s).disabled
    requires MergesTo(FlowLines(head, s), SnapshotLines(head, s), Expected(head, s))
    requires |FlowLines(head, s)| == |Expected(head, s)| == Run(head, s).step
    ensures var before := Run(head, s);
            var cap := CaptureOf(before, call);
            && Next(before, call).step == before.step + 1
            && MergesTo(FlowLines(head, s) + (if cap.flow.Done? then [cap.flow.tokens] else []),
                        SnapshotLines(head, s) + (if cap.snapshot.Some? && cap.snapshot.value.Done? then [cap.snapshot.value.tokens] else []),
                        Expected(head, s) + [Merged(FlowRecordOf(before, call), ReportOf(before, call))])
  {
    hide MergesTo;
    hide CaptureOf;
    hide ReportOf;
    hide Run;
    hide Expected;
    hide FlowLines;
    hide SnapshotLines;
    var before := Run(head, s);
    LineCaptured(before, call);
    hide Next;
    CaptureReads(before, call);
    NoFlowNoSnapshot(before, call);
    MergeStep(FlowLines(head, s), SnapshotLines(head, s), Expected(head, s), CaptureOf(before, call),
              Merged(FlowRecordOf(before, call), ReportOf(before, call)));
  }

  lemma NothingRecorded(calls: seq<Call>, s: State)
    requires calls == []
    ensures FlowLines(calls, s) == [] && SnapshotLines(calls, s) == [] && MergesTo([], [], [])
  {
  }

  lemma NoFlowNoSnapshot(s: State, call: Call)
    requires call.Line?
    ensures CaptureOf(s, call).flow.Torn? ==> CaptureOf(s, call).snapshot.None?
  {
  }

  predicate FlowNeverThrows(calls: seq<Call>) {
    forall k :: 0 <= k < |calls| && calls[k].Line? ==> !calls[k].mishap.FlowThrows?
  }

  lemma {:induction false} NoFlowTorn(calls: seq<Call>, s: State)
    requires FlowNeverThrows(calls)
    ensures !LastFlowTorn(Captures(calls, s))
    decreases |calls|
  {
    hide Run;
    hide Packs;
    hide Flatten;
    if calls != [] {
      NoFlowTorn(calls[..|calls| - 1], s);
      CapturesStep(calls, s);
      hide Captures;
    }
  }

  /** The recording of every run without errors, whole or given up part way, replays: its
      finished lines decode and join to the lines executed and what they collected, all of
      them but a last one that threw while its own flow record was written. */
  lemma RecordingReplays(calls: seq<Call>, s: State)
    requires Fresh(s) && NoErrors(calls)
    ensures var t := Run(calls, s);
            && MergesTo(LinesOf(t.flow).0, LinesOf(t.snapshots).0, Expected(calls, s))
            && |Expected(calls, s)| == |LinesOf(t.flow).0| + (if LastFlowTorn(Captures(calls, s)) then 1 else 0)
            && (FlowNeverThrows(calls) ==> |LinesOf(t.flow).0| == |Expected(calls, s)|)
  {
    RecordsAreAtomic(calls, s);
    MergeIsExact(calls, s);
    if FlowNeverThrows(calls) {
      NoFlowTorn(calls, s);
    }
  }

  // What a snapshot of one field has written when it asks the object for its text.
  function UpToText(step: int, f: Field): seq<Token>
    requires f.value.Ref?
  {
    [MapBegin(2), Plain(Text("i")), Plain(Whole(step)), Plain(Text("sn")), ArrayBegin(1), MapBegin(6)]
    + [Plain(Text("o")), Plain(Whole(f.parentId)), Plain(Text("n")), Plain(Text(f.name))]
    + [Plain(Text("t")), Plain(Text("O")), Plain(Text("#c")), Plain(Text(f.value.cls)), Plain(Text("id")), Plain(Whole(f.value.hash))]
    + [Plain(Text("#toS"))]
  }

  function OneField(f: Field): Collected {
    Collected([], [], [], [], [f])
  }

  function Tokens(ds: seq<Doc>): (r: seq<Token>)
    requires forall i :: 0 <= i < |ds| ==> ds[i].Leaf?
    ensures |r| == |ds|
  {
    seq(|ds|, i requires 0 <= i < |ds| => Plain(ds[i].s))
  }

  lemma {:induction false} FlattenLeaves(ds: seq<Doc>)
    requires forall i :: 0 <= i < |ds| ==> ds[i].Leaf?
    ensures FlattenAll(ds) == Tokens(ds)
    decreases |ds|
  {
    if ds != [] {
      FlattenLeaves(ds[1..]);
      assert Tokens(ds) == [Plain(ds[0].s)] + Tokens(ds[1..]);
    }
  }

  function LeavesUpToText(f: Field): (r: seq<Doc>)
    requires f.value.Ref?
    ensures forall i :: 0 <= i < |r| ==> r[i].Leaf?
  {
    [TextDoc("o"), Leaf(Whole(f.parentId)), TextDoc("n"), TextDoc(f.name), TextDoc("t"), TextDoc("O"),
     TextDoc("#c"), TextDoc(f.value.cls), TextDoc("id"), Leaf(Whole(f.value.hash)), TextDoc("#toS")]
  }

  lemma TextIsLast(f: Field, h: Heap)
    requires f.value.Ref? && f.value.kind.OtherKind? && h.texts(f.value.address).ToText?
    ensures EntryDocs(Entries(OneField(f)), h) == [Dict(LeavesUpToText(f) + [TextOrNil(h.texts(f.value.address).s)])]
  {
    var text, v := TextOrNil(h.texts(f.value.address).s), f.value;
    assert Entries(OneField(f)) == [Modified(ShallowView.FieldOf(f.parentId, f.name), v)];
    assert OpeningDocs(ShallowView.FieldOf(f.parentId, f.name)) + ContentDocs(v, h, false) == LeavesUpToText(f) + [text];
    assert EntryDoc(ShallowView.FieldOf(f.parentId, f.name), v, h) == Dict(LeavesUpToText(f) + [text]);
  }

  // If the object has a text, the snapshot goes on behind it.
  lemma TextFollows(step: int, f: Field, h: Heap)
    requires f.value.Ref? && f.value.kind.OtherKind? && h.texts(f.value.address).ToText?
    ensures UpToText(step, f) <= Flatten(SnapshotDoc(step, OneField(f), h))
  {
    TextIsLast(f, h);
    UpToTextLeaves(step, f);
    var text := TextOrNil(h.texts(f.value.address).s);
    assert SnapshotDoc(step, OneField(f), h)
           == Dict([TextDoc("i"), Leaf(Whole(step)), TextDoc("sn"), List([Dict(LeavesUpToText(f) + [text])])]);
    assert |LeavesUpToText(f)| == 11;
    hide *;
    LastOfLast([TextDoc("i"), Leaf(Whole(step)), TextDoc("sn")], LeavesUpToText(f), text);
  }

  lemma UpToTextLeaves(step: int, f: Field)
    requires f.value.Ref?
    ensures UpToText(step, f) == [MapBegin(2)] + Tokens([TextDoc("i"), Leaf(Whole(step)), TextDoc("sn")])
                                 + [ArrayBegin(1), MapBegin(6)] + Tokens(LeavesUpToText(f))
  {
  }

  lemma LastOfLast(head: seq<Doc>, leaves: seq<Doc>, text: Doc)
    requires |head| == 3 && |leaves| == 11
    requires forall i :: 0 <= i < |head| ==> head[i].Leaf?
    requires forall i :: 0 <= i < |leaves| ==> leaves[i].Leaf?
    ensures [MapBegin(2)] + Tokens(head) + [ArrayBegin(1), MapBegin(6)] + Tokens(leaves)
            <= Flatten(Dict([head[0], head[1], head[2], List([Dict(leaves + [text])])]))
  {
    var entry := Dict(leaves + [text]);
    FlattenLeaves(leaves);
    FlattenLeaves(head);
    FlattenAppends(leaves, [text]);
    FlattenOne(entry);
    FlattenAppends(head, [List([entry])]);
    FlattenOne(List([entry]));
    assert head + [List([entry])] == [head[0], head[1], head[2], List([entry])];
    hide FlattenAll;
    hide Tokens;
    Prefixes([MapBegin(2)] + Tokens(head) + [ArrayBegin(1), MapBegin(6)] + Tokens(leaves), FlattenAll([text]) + [MapEnd] + [ArrayEnd] + [MapEnd],
             Flatten(Dict(head + [List([entry])])));
  }

  lemma Prefixes(a: seq<Token>, b: seq<Token>, whole: seq<Token>)
    requires whole == a + b
    ensures a <= whole
  {
  }

  // An error, not an exception, is thrown by the object whose text the first snapshot asks for.
  function TornRun(first: Field, h1: Heap, second: Field, h2: Heap): seq<Call>
    requires first.value.Ref?
  {
    [FieldModification(first), Line(0, 0, 1, 0, 0, h1, [], SnapshotThrows(UpToText(0, first), true)),
     FieldModification(second), Line(0, 0, 2, 1, 0, h2, [], Fine)]
  }

  lemma RunStep(calls: seq<Call>, call: Call, s: State)
    ensures Run(calls + [call], s) == Next(Run(calls, s), call)
  {
    assert (calls + [call])[..|calls|] == calls;
  }

  // A field assigned while nothing is held, and the line that collects it.
  lemma FieldThenLine(s: State, f: Field, call: Call)
    requires call.Line? && !call.mishap.FlowThrows? && !ShouldBeSkipped(f.value)
    requires s.guard == 0 && !s.disabled && s.Emptied().(byReference := s.byReference) == s
    ensures var with := Next(s, FieldModification(f));
            && with == s.(fields := [f]) && Collect(with, call.c, call.m, call.label_) == OneField(f)
            && Next(with, call).guard == 0 && Next(with, call).Emptied() == Next(with, call) && Next(with, call).step == s.step + 1
            && (call.mishap.SnapshotThrows? && call.mishap.error ==>
                  !Next(with, call).disabled && Next(with, call).snapshots == s.snapshots + Items(call.mishap.written))
            && (call.mishap.Fine? && Packs(OneField(f), call.heap) ==>
                  !Next(with, call).disabled && Next(with, call).snapshots == s.snapshots + (Items(Flatten(SnapshotDoc(s.step, OneField(f), call.heap))) + [LineEnd]))
  {
    var with := Next(s, FieldModification(f));
    hide CaptureLine;
    hide Flatten;
    hide Packs;
    LineCaptured(with, call);
    hide Next;
  }

  lemma PlainFieldPacks(f: Field, h: Heap)
    requires f.value.Boxed?
    ensures Packs(OneField(f), h) && !ShouldBeSkipped(f.value) && OneField(f).Count() == 1
  {
  }

  /** Errors pass the handlers by. When an object throws one where its text is due, capture
      goes on, and the next snapshot stands where the text would: the two make one line, and
      the stream does not hold the whole records only. */
  lemma ErrorTearsALine(first: Field, h1: Heap, second: Field, h2: Heap)
    requires first.value.Ref? && first.value.kind.OtherKind? && h1.texts(first.value.address).TextThrows?
    requires second.value.Boxed?
    ensures var calls, s := TornRun(first, h1, second, h2), Start([]);
            && !NoErrors(calls) && !Run(calls, s).disabled
            && LinesOf(Run(calls, s).snapshots).0 == [UpToText(0, first) + Flatten(SnapshotDoc(1, OneField(second), h2))]
            && LinesOf(Run(calls, s).snapshots).0 != SnapshotLines(calls, s)
  {
    var calls, s := TornRun(first, h1, second, h2), Start([]);
    var torn, rest := UpToText(0, first), Flatten(SnapshotDoc(1, OneField(second), h2));
    assert ThrowsError(calls[1]) && calls[1].mishap == SnapshotThrows(torn, true);
    StartIsFresh([]);
    TextIsLate(first);
    TornStates(first, h1, second, h2);
    TornAndContinued(calls, s, first, second, h2);
    hide *;
    AtomicUnlessErrorIsContinued(calls, s);
    TwoRecordsInALine(torn, rest);
  }

  lemma TwoRecordsInALine(torn: seq<Token>, rest: seq<Token>)
    ensures LinesOf(Items(torn) + (Items(rest) + [LineEnd])) == ([torn + rest], [])
  {
    hide LinesOf;
    LinesAfterItems([], torn);
    LinesAfterItems(Items(torn), rest);
    LinesAfterEnd(Items(torn) + Items(rest));
    NoLines();
    assert [] + Items(torn) == Items(torn) && [] + torn == torn;
    assert Items(torn) + (Items(rest) + [LineEnd]) == Items(torn) + Items(rest) + [LineEnd];
    assert [] + [torn + rest] == [torn + rest];
  }

  lemma TornAndContinued(calls: seq<Call>, s: State, first: Field, second: Field, h2: Heap)
    requires |calls| == 4 && calls[1].Line? && calls[1].mishap.SnapshotThrows? && calls[1].mishap.written != []
    requires calls[3].Line? && calls[3].mishap.Fine? && calls[3].heap == h2 && second.value.Boxed?
    requires !Run(calls[..1], s).disabled && Collect(Run(calls[..1], s), calls[1].c, calls[1].m, calls[1].label_) == OneField(first)
    requires !Run(calls[..3], s).disabled && Collect(Run(calls[..3], s), calls[3].c, calls[3].m, calls[3].label_) == OneField(second)
    ensures TornBy(false, calls, s, 1) && CompletedBy(false, calls, s, 3)
  {
    PlainFieldPacks(second, h2);
    hide Run;
    hide Packs;
    hide Resolve;
  }

  lemma NoLines()
    ensures LinesOf([]) == ([], [])
  {
  }

  lemma TextIsLate(f: Field)
    requires f.value.Ref?
    ensures UpToText(0, f) != []
  {
  }

  lemma TornStates(first: Field, h1: Heap, second: Field, h2: Heap)
    requires first.value.Ref? && first.value.kind.OtherKind? && second.value.Boxed?
    ensures var calls, s := TornRun(first, h1, second, h2), Start([]);
            && Collect(Run(calls[..1], s), 0, 0, 0) == OneField(first) && !Run(calls[..1], s).disabled
            && Collect(Run(calls[..3], s), 0, 0, 1) == OneField(second) && !Run(calls[..3], s).disabled
            && !Run(calls, s).disabled
            && Run(calls, s).snapshots == Items(UpToText(0, first)) + (Items(Flatten(SnapshotDoc(1, OneField(second), h2))) + [LineEnd])
  {
    var calls, s := TornRun(first, h1, second, h2), Start([]);
    var torn, rest := UpToText(0, first), Flatten(SnapshotDoc(1, OneField(second), h2));
    assert calls == [FieldModification(first), Line(0, 0, 1, 0, 0, h1, [], SnapshotThrows(torn, true)),
                     FieldModification(second), Line(0, 0, 2, 1, 0, h2, [], Fine)];
    assert s.Emptied().(byReference := s.byReference) == s && s.guard == 0 && !s.disabled && s.step == 0 && s.snapshots == [];
    assert !ShouldBeSkipped(first.value);
    PlainFieldPacks(second, h2);
    hide *;
    FieldThenLine(s, first, calls[1]);
    var s1 := Next(s, calls[0]);
    var s2 := Next(s1, calls[1]);
    FieldThenLine(s2, second, calls[3]);
    assert calls[..0] == [] && calls[..1] == [] + [calls[0]] && calls[..2] == calls[..1] + [calls[1]];
    assert calls[..3] == calls[..2] + [calls[2]] && calls == calls[..3] + [calls[3]];
    RunNothing(s);
    RunStep([], calls[0], s);
    RunStep(calls[..1], calls[1], s);
    RunStep(calls[..2], calls[2], s);
    RunStep(calls[..3], calls[3], s);
    assert [] + Items(torn) == Items(torn);
  }

  lemma RunNothing(s: State)
    ensures Run([], s) == s
  {
  }

  // ---------------------------------------------------------------- bytes

  // The bytes of a token may depend on what precedes it in its line.
  type Render = (seq<Token>, Token) -> seq<LineBuffer.byte>

  function Rendered(line: seq<Token>, render: Render): seq<LineBuffer.byte> {
    if line == [] then []
    else Rendered(line[..|line| - 1], render) + render(line[..|line| - 1], line[|line| - 1])
  }

  function RenderedLines(lines: seq<seq<Token>>, render: Render): (r: seq<seq<LineBuffer.byte>>)
    ensures |r| == |lines|
  {
    seq(|lines|, i requires 0 <= i < |lines| => Rendered(lines[i], render) + LineBuffer.LINE_END)
  }

  // The writes of the buffer below a stream.
  function Ops(ws: seq<Write>, render: Render): seq<LineBuffer.Op> {
    if ws == [] then []
    else
      Ops(ws[..|ws| - 1], render)
      + [match ws[|ws| - 1]
         case Item(t) => LineBuffer.Bytes(render(LinesOf(ws[..|ws| - 1]).1, t))
         case LineEnd => LineBuffer.LineEnd]
  }

  lemma OneMoreItem(lines: seq<seq<Token>>, rest: seq<Token>, t: Token, render: Render)
    ensures Rendered(rest + [t], render) == Rendered(rest, render) + render(rest, t) && Rendered([], render) == []
    ensures RenderedLines(lines + [rest], render) == RenderedLines(lines, render) + [Rendered(rest, render) + LineBuffer.LINE_END]
  {
    assert (rest + [t])[..|rest|] == rest;
  }

  lemma {:induction false} LogOfOps(ws: seq<Write>, render: Render)
    ensures LineBuffer.Log(Ops(ws, render)) == (RenderedLines(LinesOf(ws).0, render), Rendered(LinesOf(ws).1, render))
    decreases |ws|
  {
    hide Rendered;
    hide RenderedLines;
    if ws != [] {
      var head, last := ws[..|ws| - 1], ws[|ws| - 1];
      LogOfOps(head, render);
      assert Ops(ws, render)[..|Ops(ws, render)| - 1] == Ops(head, render);
      OneMoreItem(LinesOf(head).0, LinesOf(head).1, if last.Item? then last.t else Nil, render);
    } else {
      NoLog(render);
    }
  }

  lemma NoLog(render: Render)
    ensures LineBuffer.Log(Ops([], render)) == (RenderedLines([], render), Rendered([], render))
  {
  }

  lemma {:induction false} OpsOfPrefix(ws: seq<Write>, n: nat, render: Render)
    requires n <= |ws|
    ensures |Ops(ws, render)| == |ws| && Ops(ws, render)[..n] == Ops(ws[..n], render)
    decreases |ws|
  {
    if n == |ws| {
      assert ws[..n] == ws;
      if n > 0 { OpsOfPrefix(ws[..n - 1], n - 1, render); }
    } else {
      var head := ws[..|ws| - 1];
      OpsOfPrefix(head, n, render);
      assert head[..n] == ws[..n];
      assert Ops(ws, render)[..|head|] == Ops(head, render);
      assert Ops(ws, render)[..n] == Ops(head, render)[..n];
    }
  }

  lemma {:induction false} LinesOfPrefix(ws: seq<Write>, n: nat)
    requires n <= |ws|
    ensures LinesOf(ws[..n]).0 <= LinesOf(ws).0
    decreases |ws|
  {
    if n == |ws| {
      assert ws[..n] == ws;
    } else {
      var head := ws[..|ws| - 1];
      LinesOfPrefix(head, n);
      assert head[..n] == ws[..n];
    }
  }

  // The file of a stream of which the first writes were made: one more would not have fit its
  // line into a buffer. It holds the records those finished, the first of the stream.
  ghost predicate Saved(ws: seq<Write>, render: Render, file: seq<LineBuffer.byte>, made: nat) {
    && made <= |ws|
    && LineBuffer.Fits(Ops(ws[..made], render), LineBuffer.BUFFER_SIZE)
    && (made < |ws| ==> !LineBuffer.Fits(Ops(ws[..made + 1], render), LineBuffer.BUFFER_SIZE))
    && LinesOf(ws[..made]).0 <= LinesOf(ws).0
    && file == LineBuffer.Concat(RenderedLines(LinesOf(ws[..made]).0, render))
  }

  // One stream through its buffer into its file, with the last flush.
  method SaveStream(ws: seq<Write>, render: Render) returns (file: seq<LineBuffer.byte>, made: nat)
    ensures Saved(ws, render, file, made)
    ensures LineBuffer.Fits(Ops(ws, render), LineBuffer.BUFFER_SIZE) <==> made == |ws|
  {
    hide LineBuffer.Concat;
    hide LineBuffer.Fits;
    file, made := LineBuffer.Record(Ops(ws, render), LineBuffer.BUFFER_SIZE);
    OpsOfPrefix(ws, |ws|, render);
    OpsOfPrefix(ws, made, render);
    if made < |ws| { OpsOfPrefix(ws, made + 1, render); }
    LogOfOps(ws[..made], render);
    LinesOfPrefix(ws, made);
  }

  /** What the last flush leaves in the two files is whole flow records and whole snapshots of
      the run, in order, each on its line: all of them when no line outgrows a buffer, and
      otherwise those before the first that does, whether or not packing failed part way. */
  method SaveRun(calls: seq<Call>, s: State, render: Render)
    returns (flowFile: seq<LineBuffer.byte>, snapshotFile: seq<LineBuffer.byte>, flowMade: nat, snapshotsMade: nat)
    requires Fresh(s) && NoErrors(calls)
    ensures var t := Run(calls, s);
            && Saved(t.flow, render, flowFile, flowMade) && Saved(t.snapshots, render, snapshotFile, snapshotsMade)
            && LinesOf(t.flow).0 == FlowLines(calls, s) && LinesOf(t.snapshots).0 == SnapshotLines(calls, s)
            && (LineBuffer.Fits(Ops(t.flow, render), LineBuffer.BUFFER_SIZE) <==> flowMade == |t.flow|)
            && (LineBuffer.Fits(Ops(t.snapshots, render), LineBuffer.BUFFER_SIZE) <==> snapshotsMade == |t.snapshots|)
  {
    RecordsAreAtomic(calls, s);
    var t := Run(calls, s);
    hide Run;
    hide LinesOf;
    hide Saved;
    flowFile, flowMade := SaveStream(t.flow, render);
    snapshotFile, snapshotsMade := SaveStream(t.snapshots, render);
  }
}
