/**
 The recording of one thread as a state machine: the hooks that instrumented code calls, the
 guard against re-entrance, the trackers, and the two recorded streams.
 */
module Recorder {
  import opened Wrappers
  import opened Documents
  import opened ShallowView
  import opened DefinitionIndex

  // ---------------------------------------------------------------- modifications

  // The identity hash code of the value, `boxId` for a boxed one.
  datatype Field = Field(parentId: int, name: string, value: Value, boxId: int) {
    function ObjectId(): int {
      match value
      case Null => 0
      case Boxed(_) => boxId
      case Ref(_, hash, _, _) => hash
    }

    // equals() of two distinct objects: a field that holds null equals no other.
    predicate Same(other: Field) {
      name == other.name && !value.Null? && ObjectId() == other.ObjectId() && parentId == other.parentId
    }
  }

  datatype Slot = Slot(index: int, value: Value)

  datatype Variable = Variable(def: SimpleVariableDefinition, value: Value)

  predicate ShouldBeSkipped(v: Value) {
    v.Ref? && v.kind.CollectionKind? && "org.hibernate" <= v.cls
  }

  // Booleans and characters live in slots as integers; None where the conversion throws.
  function ConvertBasedOnType(desc: string, v: Value): Option<Value> {
    if desc != "Z" && desc != "C" then Some(v)
    else if v.Null? then None
    else if !(v.Boxed? && v.s.Whole?) then Some(Null)
    else if desc == "Z" then Some(Boxed(Truth(v.s.n == 1)))
    else Some(Boxed(Letter(v.s.n % 0x1_0000)))
  }

  function AddReference(references: seq<Value>, v: Value): seq<Value> {
    if v in references then references else references + [v]
  }

  function PutSlot(slots: seq<Slot>, index: int, v: Value): seq<Slot> {
    if slots == [] then [Slot(index, v)]
    else if slots[0].index == index then [Slot(index, v)] + slots[1..]
    else [slots[0]] + PutSlot(slots[1..], index, v)
  }

  // The first set compares fields, every later one only references.
  function AddField(fields: seq<Field>, byReference: bool, f: Field): seq<Field> {
    if !byReference && (exists g :: g in fields && g.Same(f)) then fields else fields + [f]
  }

  function Resolve(slots: seq<Slot>, log: seq<CompleteVariableDefinition>, c: nat, m: nat, label_: int): seq<Variable> {
    if slots == [] then []
    else
      var def := LatestOf(log, c, m, slots[0].index, label_);
      (if def.Some? then [Variable(def.value, slots[0].value)] else []) + Resolve(slots[1..], log, c, m, label_)
  }

  // ---------------------------------------------------------------- what a line collects

  datatype Collected = Collected(
    variables: seq<Variable>, arrays: seq<Value>, collections: seq<Value>, maps: seq<Value>, fields: seq<Field>)
  {
    function Count(): nat {
      |variables| + |arrays| + |collections| + |fields| + |maps|
    }
  }

  datatype Modified = Modified(opening: Opening, value: Value)

  // The order in which the entries are written; a variable whose conversion throws has none.
  function Entries(c: Collected): seq<Modified> {
    VariableEntries(c.variables) + BareEntries(c.arrays) + BareEntries(c.collections) + BareEntries(c.maps) + FieldEntries(c.fields)
  }

  function VariableEntry(v: Variable): Modified {
    Modified(Named(v.def.name), OrNull(ConvertBasedOnType(v.def.desc, v.value)))
  }

  function VariableEntries(vs: seq<Variable>): (r: seq<Modified>)
    ensures |r| == |vs|
  {
    seq(|vs|, i requires 0 <= i < |vs| => VariableEntry(vs[i]))
  }

  function BareEntries(vs: seq<Value>): (r: seq<Modified>)
    ensures |r| == |vs|
  {
    seq(|vs|, i requires 0 <= i < |vs| => Modified(Bare, vs[i]))
  }

  function FieldEntry(f: Field): Modified {
    Modified(FieldOf(f.parentId, f.name), f.value)
  }

  function FieldEntries(fs: seq<Field>): (r: seq<Modified>)
    ensures |r| == |fs|
  {
    seq(|fs|, i requires 0 <= i < |fs| => FieldEntry(fs[i]))
  }

  predicate Converts(v: Variable) {
    ConvertBasedOnType(v.def.desc, v.value).Some?
  }

  predicate EntryPacks(e: Modified, h: Heap) {
    Fits(e.opening, e.value) && ContentPacks(e.value, h, e.opening.Bare?)
  }

  predicate Packs(c: Collected, h: Heap) {
    (forall v :: v in c.variables ==> Converts(v)) && (forall e :: e in Entries(c) ==> EntryPacks(e, h))
  }

  // ---------------------------------------------------------------- the records

  function EntryDocs(es: seq<Modified>, h: Heap): (r: seq<Doc>)
    ensures |r| == |es|
  {
    seq(|es|, i requires 0 <= i < |es| => EntryDoc(es[i].opening, es[i].value, h))
  }

  function SnapshotDoc(step: int, c: Collected, h: Heap): Doc {
    Dict([TextDoc("i"), Leaf(Whole(step)), TextDoc("sn"), List(EntryDocs(Entries(c), h))])
  }

  datatype FlowRecord = FlowRecord(time: int, tag: Option<string>, c: int, m: int, line: int, depth: int)

  function TagDocs(tag: Option<string>): seq<Doc> {
    if tag.Some? then [TextDoc("tg"), TextDoc(tag.value)] else []
  }

  function FlowDoc(r: FlowRecord): Doc {
    Dict([TextDoc("t"), Leaf(Whole(r.time))] + TagDocs(r.tag)
         + [TextDoc("c"), Leaf(Whole(r.c)), TextDoc("m"), Leaf(Whole(r.m)), TextDoc("l"), Leaf(Whole(r.line)),
            TextDoc("sd"), Leaf(Whole(r.depth))])
  }

  // ---------------------------------------------------------------- the hooks

  // How a line capture can go wrong: after writing some tokens of a record something is
  // thrown, an exception or an error.
  datatype Mishap = Fine | FlowThrows(written: seq<Token>, error: bool) | SnapshotThrows(written: seq<Token>, error: bool)

  // `inner` are the hooks reached from client code that runs while the snapshot is packed.
  datatype Call =
    | Line(c: nat, m: nat, line: int, label_: int, now: int, heap: Heap, inner: seq<Call>, mishap: Mishap)
    | ArrayModification(v: Value)
    | CollectionModification(v: Value)
    | MapModification(v: Value)
    | FieldModification(f: Field)
    | VariableModification(index: int, v: Value)
    | VariableDefinition(d: CompleteVariableDefinition)
    | Tag(tag: string)
    | Dump
    | Increase(fetched: int)
    | Decrease
    | Fetch(fetched: int)

  datatype State = State(
    disabled: bool,
    guard: int,
    step: int,
    depth: int,
    variables: seq<Slot>,
    arrays: seq<Value>,
    collections: seq<Value>,
    maps: seq<Value>,
    fields: seq<Field>,
    byReference: bool,
    tag: Option<string>,
    definitions: seq<CompleteVariableDefinition>,
    flow: seq<Write>,
    snapshots: seq<Write>)
  {
    predicate StateDisabled() { guard >= 1 || disabled }

    predicate LinesDisabled() { guard > 1 || disabled }

    function Emptied(): State {
      this.(variables := [], arrays := [], collections := [], maps := [], fields := [], byReference := true)
    }
  }

  function Start(definitions: seq<CompleteVariableDefinition>): State {
    State(false, 0, 0, -1, [], [], [], [], [], false, None, definitions, [], [])
  }

  function Collect(s: State, c: nat, m: nat, label_: int): Collected {
    Collected(Resolve(s.variables, s.definitions, c, m, label_), s.arrays, s.collections, s.maps, s.fields)
  }

  function FlowRecordOf(s: State, call: Call): FlowRecord
    requires call.Line?
  {
    FlowRecord(call.now, s.tag, call.c, call.m, call.line, s.depth)
  }

  // Writes the flow record, then collects, then writes the snapshot if there is anything.
  function CaptureLine(s: State, call: Call): State
    requires call.Line?
    decreases call, 0
  {
    var s1 := s.(step := s.step + 1, tag := None);
    if call.mishap.FlowThrows? then
      s1.(flow := s.flow + Items(call.mishap.written), disabled := s.disabled || !call.mishap.error)
    else
      var s2 := s1.(flow := s.flow + Items(Flatten(FlowDoc(FlowRecordOf(s, call)))) + [LineEnd]);
      var collected := Collect(s2, call.c, call.m, call.label_);
      var s3 := s2.Emptied();
      if collected.Count() == 0 then s3
      else
        var s4 := Run(call.inner, s3);
        if call.mishap.Fine? && Packs(collected, call.heap) then
          s4.(snapshots := s4.snapshots + Items(Flatten(SnapshotDoc(s.step, collected, call.heap))) + [LineEnd])
        else if call.mishap.SnapshotThrows? then
          s4.(snapshots := s4.snapshots + Items(call.mishap.written), disabled := s4.disabled || !call.mishap.error)
        else
          s4.(disabled := true)
  }

  function Next(s: State, call: Call): State
    decreases call, 1
  {
    if call.Line? then
      var s1 := s.(guard := s.guard + 1);
      var s2 := if s1.LinesDisabled() then s1 else CaptureLine(s1, call);
      s2.(guard := s2.guard - 1)
    else if s.StateDisabled() then s
    else Track(s, call)
  }

  function Track(s: State, call: Call): State
    requires !call.Line?
  {
    match call
    case ArrayModification(v) => s.(arrays := AddReference(s.arrays, v))
    case CollectionModification(v) => s.(collections := AddReference(s.collections, v))
    case MapModification(v) => s.(maps := AddReference(s.maps, v))
    case FieldModification(f) =>
      if ShouldBeSkipped(f.value) then s else s.(fields := AddField(s.fields, s.byReference, f))
    case VariableModification(index, v) =>
      if ShouldBeSkipped(v) then s else s.(variables := PutSlot(s.variables, index, v))
    case VariableDefinition(d) =>
      // an empty range throws
      if d.fromLabel > d.toLabel then s else s.(definitions := s.definitions + [d])
    case Tag(tag) => s.(tag := Some(tag))
    case Dump => s.(variables := [])
    case Increase(fetched) => s.(depth := if s.depth == -1 then fetched else s.depth + 1)
    case Decrease => s.(depth := s.depth - 1)
    case Fetch(fetched) => s.(depth := fetched)
  }

  function Run(calls: seq<Call>, s: State): State
    decreases calls, 2
  {
    if calls == [] then s else Next(Run(calls[..|calls| - 1], s), calls[|calls| - 1])
  }

  // ---------------------------------------------------------------- re-entrance

  /** Whatever client code does while a line is captured changes nothing: no step, tracker,
      depth or stream, and the guard comes back on every path. */
  lemma {:induction false} InnerCallsAreSilent(calls: seq<Call>, s: State)
    requires s.guard >= 1 || s.disabled
    ensures Run(calls, s) == s
    decreases |calls|
  {
    if calls != [] {
      InnerCallsAreSilent(calls[..|calls| - 1], s);
    }
  }

  lemma GuardRestored(s: State, call: Call)
    requires s.guard >= 0
    ensures Next(s, call).guard == s.guard
  {
    if call.Line? && s.guard == 0 && !s.disabled {
      CaptureKeepsGuard(s.(guard := 1), call);
    }
  }

  lemma CaptureKeepsGuard(s: State, call: Call)
    requires call.Line? && s.guard >= 1
    ensures CaptureLine(s, call).guard == s.guard
  {
    var s2 := s.(step := s.step + 1, tag := None, flow := s.flow + Items(Flatten(FlowDoc(FlowRecordOf(s, call)))) + [LineEnd]);
    InnerCallsAreSilent(call.inner, s2.Emptied());
  }

  // ---------------------------------------------------------------- captures

  // What one captured line contributes to a stream: a whole record, or a part of one.
  datatype Attempt = Done(tokens: seq<Token>) | Torn(tokens: seq<Token>)

  function Writes(a: Attempt): seq<Write> {
    match a
    case Done(ts) => Items(ts) + [LineEnd]
    case Torn(ts) => Items(ts)
  }

  datatype Capture = Capture(flow: Attempt, snapshot: Option<Attempt>)

  function CaptureOf(s: State, call: Call): Capture
    requires call.Line?
  {
    if call.mishap.FlowThrows? then Capture(Torn(call.mishap.written), None)
    else
      var collected := Collect(s, call.c, call.m, call.label_);
      Capture(
        Done(Flatten(FlowDoc(FlowRecordOf(s, call)))),
        if collected.Count() == 0 then None
        else if call.mishap.Fine? && Packs(collected, call.heap) then
          Some(Done(Flatten(SnapshotDoc(s.step, collected, call.heap))))
        else if call.mishap.SnapshotThrows? then Some(Torn(call.mishap.written))
        else Some(Torn([])))
  }

  predicate ThrowsError(call: Call) {
    call.Line? && !call.mishap.Fine? && call.mishap.error
  }

  predicate NoErrors(calls: seq<Call>) {
    forall k :: 0 <= k < |calls| ==> !ThrowsError(calls[k])
  }

  predicate CapturedWhole(c: Capture) {
    c.flow.Done? && (c.snapshot.Some? ==> c.snapshot.value.Done?)
  }

  // The captures of a run, in order.
  function Captures(calls: seq<Call>, s: State): seq<Capture> {
    if calls == [] then []
    else
      var before, call := Run(calls[..|calls| - 1], s), calls[|calls| - 1];
      Captures(calls[..|calls| - 1], s) + if call.Line? && !before.disabled then [CaptureOf(before, call)] else []
  }

  function AttemptWrites(attempts: seq<Attempt>): seq<Write> {
    if attempts == [] then [] else AttemptWrites(attempts[..|attempts| - 1]) + Writes(attempts[|attempts| - 1])
  }

  function FlowAttempts(cs: seq<Capture>): (r: seq<Attempt>)
    ensures |r| == |cs|
  {
    seq(|cs|, i requires 0 <= i < |cs| => cs[i].flow)
  }

  function SnapshotAttempts(cs: seq<Capture>): seq<Attempt> {
    if cs == [] then []
    else SnapshotAttempts(cs[..|cs| - 1]) + (if cs[|cs| - 1].snapshot.Some? then [cs[|cs| - 1].snapshot.value] else [])
  }

  // A line capture from outside, spelled out.
  lemma LineCaptured(s: State, call: Call)
    requires call.Line? && s.guard == 0 && !s.disabled
    ensures var cap := CaptureOf(s, call);
            var after := Next(s, call);
            && after.step == s.step + 1 && after.guard == 0 && after.depth == s.depth && after.tag == None
            && after.definitions == s.definitions
            && after.flow == s.flow + Writes(cap.flow)
            && after.snapshots == s.snapshots + (if cap.snapshot.Some? then Writes(cap.snapshot.value) else [])
            && (cap.flow.Done? ==> after.Emptied() == after)
            && (after.disabled <==> !CapturedWhole(cap) && !ThrowsError(call))
  {
    var s1 := s.(guard := 1);
    var cap := CaptureOf(s, call);
    assert FlowRecordOf(s1, call) == FlowRecordOf(s, call);
    hide Flatten;
    hide FlowDoc;
    hide SnapshotDoc;
    hide Resolve;
    hide Packs;
    assert s.flow + Items(Flatten(FlowDoc(FlowRecordOf(s, call)))) + [LineEnd] == s.flow + (Items(Flatten(FlowDoc(FlowRecordOf(s, call)))) + [LineEnd]);
    var s2 := s1.(step := s.step + 1, tag := None, flow := s.flow + Items(Flatten(FlowDoc(FlowRecordOf(s, call)))) + [LineEnd]);
    InnerCallsAreSilent(call.inner, s2.Emptied());
    var collected := Collect(s2, call.c, call.m, call.label_);
    assert collected == Collect(s, call.c, call.m, call.label_);
    var ts := Items(Flatten(SnapshotDoc(s.step, collected, call.heap)));
    assert s.snapshots + ts + [LineEnd] == s.snapshots + (ts + [LineEnd]);
  }

  /** The streams are, in order, what the captured lines contributed, and the step counts
      the captured lines. */
  lemma {:induction false} StreamsAreCaptures(calls: seq<Call>, s: State)
    requires s.guard == 0 && s.flow == [] && s.snapshots == [] && s.step == 0
    ensures var after := Run(calls, s);
            && after.guard == 0 && after.step == |Captures(calls, s)|
            && after.flow == AttemptWrites(FlowAttempts(Captures(calls, s)))
            && after.snapshots == AttemptWrites(SnapshotAttempts(Captures(calls, s)))
    decreases |calls|
  {
    if calls != [] {
      var head, call := calls[..|calls| - 1], calls[|calls| - 1];
      StreamsAreCaptures(head, s);
      var before := Run(head, s);
      if call.Line? {
        if before.disabled {
          assert Captures(calls, s) == Captures(head, s);
        } else {
          LineCaptured(before, call);
          CaptureAdded(Captures(head, s), CaptureOf(before, call));
        }
      } else {
        TrackKeepsStreams(before, call);
        assert Captures(calls, s) == Captures(head, s);
      }
    }
  }

  lemma CaptureAdded(cs: seq<Capture>, c: Capture)
    ensures AttemptWrites(FlowAttempts(cs + [c])) == AttemptWrites(FlowAttempts(cs)) + Writes(c.flow)
    ensures AttemptWrites(SnapshotAttempts(cs + [c])) ==
            AttemptWrites(SnapshotAttempts(cs)) + (if c.snapshot.Some? then Writes(c.snapshot.value) else [])
  {
    var all := cs + [c];
    assert all[..|all| - 1] == cs;
    assert FlowAttempts(all)[..|all| - 1] == FlowAttempts(cs);
    var before := SnapshotAttempts(cs);
    if c.snapshot.Some? {
      assert (before + [c.snapshot.value])[..|before|] == before;
    } else {
      assert SnapshotAttempts(all) == before;
    }
  }

  lemma TrackKeepsStreams(s: State, call: Call)
    requires !call.Line?
    ensures var t := Next(s, call);
            && t.guard == s.guard && t.step == s.step && t.flow == s.flow && t.snapshots == s.snapshots
            && t.disabled == s.disabled && t.byReference == s.byReference
  {
  }
}
