/**
 The objects behind the hooks: the trackers, the collector, the state of a thread and the
 flow. Each method does to the fields what the state machine does to the state.
 */
module FlowCapture {
  import opened Wrappers
  import opened Documents
  import opened ShallowView
  import opened ObjectsPacker
  import opened Pairing
  import DefinitionIndex
  import opened Recorder

  // ---------------------------------------------------------------- trackers

  // Collections of Hibernate are left alone.
  method ShouldBeSkippedByCapture(value: Value) returns (skipped: bool)
    ensures skipped <==> value.Ref? && value.kind.CollectionKind? && "org.hibernate" <= value.cls
  {
    skipped := false;
    match value
    case Ref(_, _, cls, CollectionKind) => skipped := "org.hibernate" <= cls;
    case _ =>
  }

  // Of arrays, of collections and of maps, by reference. Collecting swaps the set for a new one.
  class ReferenceModificationTracker {
    var modifiedByReference: seq<Value>

    constructor ()
      ensures modifiedByReference == []
    {
      modifiedByReference := [];
    }

    method TrackModification(value: Value)
      modifies this
      ensures modifiedByReference == AddReference(old(modifiedByReference), value)
    {
      if value !in modifiedByReference {
        modifiedByReference := modifiedByReference + [value];
      }
    }

    method Collect() returns (collected: seq<Value>)
      modifies this
      ensures collected == old(modifiedByReference) && modifiedByReference == []
    {
      collected := modifiedByReference;
      modifiedByReference := [];
    }
  }

  class VariableModificationTracker {
    var modifiedVariablesByIndex: seq<Slot>

    constructor ()
      ensures modifiedVariablesByIndex == []
    {
      modifiedVariablesByIndex := [];
    }

    method TrackVariableModification(index: int, value: Value)
      modifies this
      ensures modifiedVariablesByIndex ==
              if ShouldBeSkipped(value) then old(modifiedVariablesByIndex) else PutSlot(old(modifiedVariablesByIndex), index, value)
    {
      var skipped := ShouldBeSkippedByCapture(value);
      if skipped {
        return;
      }
      modifiedVariablesByIndex := PutSlot(modifiedVariablesByIndex, index, value);
    }

    // A value whose slot no definition covers at the label is dropped.
    method Collect(lookup: DefinitionIndex.VariableDefinitionLookup, classIndex: nat, methodIndex: nat, atLabel: int)
      returns (collected: seq<Variable>)
      requires lookup.Valid()
      modifies this
      ensures collected == Resolve(old(modifiedVariablesByIndex), lookup.log, classIndex, methodIndex, atLabel)
      ensures modifiedVariablesByIndex == []
    {
      hide SzudzikPairing;
      var toBeProcessed := modifiedVariablesByIndex;
      modifiedVariablesByIndex := [];
      collected := [];
      for i := 0 to |toBeProcessed|
        invariant lookup.Valid() && lookup.log == old(lookup.log) && modifiedVariablesByIndex == []
        invariant collected + Resolve(toBeProcessed[i..], lookup.log, classIndex, methodIndex, atLabel)
                  == Resolve(toBeProcessed, lookup.log, classIndex, methodIndex, atLabel)
      {
        var entry := toBeProcessed[i];
        assert toBeProcessed[i..][1..] == toBeProcessed[i + 1..] && toBeProcessed[i..][0] == entry;
        var def := lookup.LookupVariableDefinition(SzudzikPairing(classIndex, methodIndex), entry.index, atLabel);
        DefinitionIndex.MethodsNeverCollide(lookup.log, classIndex, methodIndex, entry.index, atLabel);
        ghost var rest := Resolve(toBeProcessed[i + 1..], lookup.log, classIndex, methodIndex, atLabel);
        if def.Some? {
          assert collected + ([Variable(def.value, entry.value)] + rest) == collected + [Variable(def.value, entry.value)] + rest;
          collected := collected + [Variable(def.value, entry.value)];
        } else {
          assert [] + rest == rest;
        }
      }
      assert toBeProcessed[|toBeProcessed|..] == [];
      assert collected + [] == collected;
    }

    method DumpAll()
      modifies this
      ensures modifiedVariablesByIndex == []
    {
      modifiedVariablesByIndex := [];
    }
  }

  // The first set compares by equals(), its successors by reference.
  class FieldModificationTracker {
    var modifiedFields: seq<Field>
    var byReference: bool

    constructor ()
      ensures modifiedFields == [] && !byReference
    {
      modifiedFields, byReference := [], false;
    }

    method TrackFieldAssignment(f: Field)
      modifies this
      ensures byReference == old(byReference)
      ensures modifiedFields == if ShouldBeSkipped(f.value) then old(modifiedFields) else AddField(old(modifiedFields), byReference, f)
    {
      var skipped := ShouldBeSkippedByCapture(f.value);
      if skipped {
        return;
      }
      var known := false;
      if !byReference {
        for i := 0 to |modifiedFields|
          invariant known <==> exists g :: g in modifiedFields[..i] && g.Same(f)
        {
          assert modifiedFields[..i + 1] == modifiedFields[..i] + [modifiedFields[i]];
          if modifiedFields[i].Same(f) {
            known := true;
          }
        }
        assert modifiedFields[..|modifiedFields|] == modifiedFields;
      }
      if !known {
        modifiedFields := modifiedFields + [f];
      }
    }

    method Collect() returns (collected: seq<Field>)
      modifies this
      ensures collected == old(modifiedFields) && modifiedFields == [] && byReference
    {
      collected := modifiedFields;
      modifiedFields, byReference := [], true;
    }
  }

  class TagTracker {
    var tag: Option<string>

    constructor ()
      ensures tag == None
    {
      tag := None;
    }

    method TrackTag(tag: string)
      modifies this
      ensures this.tag == Some(tag)
    {
      this.tag := Some(tag);
    }

    method ConsumeTag() returns (consumedTag: Option<string>)
      modifies this
      ensures consumedTag == old(tag) && tag == None
    {
      consumedTag := tag;
      tag := None;
    }
  }

  // ---------------------------------------------------------------- the state of a thread

  class FlowPerThread {
    const variableTracker: VariableModificationTracker
    const fieldModificationTracker: FieldModificationTracker
    const arrayModificationTracker: ReferenceModificationTracker
    const collectionModificationTracker: ReferenceModificationTracker
    const mapModificationTracker: ReferenceModificationTracker
    const tagTracker: TagTracker
    const flowPacker: JSONPacker
    const snapshotPacker: JSONPacker
    var step: int
    var entriesWithinCaptureCode: int
    var stackTraceDepth: int

    constructor ()
      ensures step == 0 && entriesWithinCaptureCode == 0 && stackTraceDepth == -1
      ensures fresh(variableTracker) && fresh(fieldModificationTracker) && fresh(arrayModificationTracker)
              && fresh(collectionModificationTracker) && fresh(mapModificationTracker) && fresh(tagTracker)
              && fresh(flowPacker) && fresh(snapshotPacker)
      ensures Separate()
      ensures variableTracker.modifiedVariablesByIndex == [] && fieldModificationTracker.modifiedFields == []
              && !fieldModificationTracker.byReference
              && arrayModificationTracker.modifiedByReference == [] && collectionModificationTracker.modifiedByReference == []
              && mapModificationTracker.modifiedByReference == [] && tagTracker.tag == None
              && flowPacker.Stream() == [] && snapshotPacker.Stream() == []
              && flowPacker.tokens == [] && snapshotPacker.tokens == [] && flowPacker.stack == [] && snapshotPacker.stack == []
    {
      variableTracker := new VariableModificationTracker();
      fieldModificationTracker := new FieldModificationTracker();
      arrayModificationTracker := new ReferenceModificationTracker();
      collectionModificationTracker := new ReferenceModificationTracker();
      mapModificationTracker := new ReferenceModificationTracker();
      tagTracker := new TagTracker();
      flowPacker := new JSONPacker();
      snapshotPacker := new JSONPacker();
      step, entriesWithinCaptureCode, stackTraceDepth := 0, 0, -1;
    }

    predicate Separate() {
      && arrayModificationTracker != collectionModificationTracker
      && arrayModificationTracker != mapModificationTracker
      && collectionModificationTracker != mapModificationTracker
      && flowPacker != snapshotPacker
    }

    function Footprint(): set<object> {
      {this, variableTracker, fieldModificationTracker, arrayModificationTracker, collectionModificationTracker,
       mapModificationTracker, tagTracker, flowPacker, snapshotPacker}
    }

    // Nothing but what is held by the trackers, the streams and the counters.
    ghost function View(disabled: bool, definitions: seq<DefinitionIndex.CompleteVariableDefinition>): State
      reads Footprint()
    {
      State(disabled, entriesWithinCaptureCode, step, stackTraceDepth,
            variableTracker.modifiedVariablesByIndex, arrayModificationTracker.modifiedByReference,
            collectionModificationTracker.modifiedByReference, mapModificationTracker.modifiedByReference,
            fieldModificationTracker.modifiedFields, fieldModificationTracker.byReference, tagTracker.tag, definitions,
            flowPacker.Stream(), snapshotPacker.Stream())
    }

    method NextStep() returns (current: int)
      modifies this`step
      ensures current == old(step) && step == old(step) + 1
    {
      current := step;
      step := step + 1;
    }

    method DisableCaptureInCaseJavaAgentCallsClientCode()
      modifies this`entriesWithinCaptureCode
      ensures entriesWithinCaptureCode == old(entriesWithinCaptureCode) + 1
    {
      entriesWithinCaptureCode := entriesWithinCaptureCode + 1;
    }

    method ReenableCapture()
      modifies this`entriesWithinCaptureCode
      ensures entriesWithinCaptureCode == old(entriesWithinCaptureCode) - 1
    {
      entriesWithinCaptureCode := entriesWithinCaptureCode - 1;
    }

    // The depth is fetched when it is -1, and followed otherwise.
    method Increase(fetched: int)
      modifies this`stackTraceDepth
      ensures stackTraceDepth == if old(stackTraceDepth) == -1 then fetched else old(stackTraceDepth) + 1
    {
      if stackTraceDepth == -1 {
        Fetch(fetched);
      } else {
        stackTraceDepth := stackTraceDepth + 1;
      }
    }

    method Decrease()
      modifies this`stackTraceDepth
      ensures stackTraceDepth == old(stackTraceDepth) - 1
    {
      stackTraceDepth := stackTraceDepth - 1;
    }

    method Fetch(fetched: int)
      modifies this`stackTraceDepth
      ensures stackTraceDepth == fetched
    {
      stackTraceDepth := fetched;
    }

    // The collector empties every tracker.
    method CollectObjects(lookup: DefinitionIndex.VariableDefinitionLookup, classIndex: nat, methodIndex: nat, atLabel: int)
      returns (collected: Collected)
      requires Separate() && lookup.Valid()
      modifies variableTracker, fieldModificationTracker, arrayModificationTracker, collectionModificationTracker, mapModificationTracker
      ensures collected == Recorder.Collect(old(View(false, lookup.log)), classIndex, methodIndex, atLabel)
      ensures forall d, log :: View(d, log) == old(View(d, log)).Emptied()
    {
      var variables := variableTracker.Collect(lookup, classIndex, methodIndex, atLabel);
      var arrays := arrayModificationTracker.Collect();
      var collections := collectionModificationTracker.Collect();
      var maps := mapModificationTracker.Collect();
      var fields := fieldModificationTracker.Collect();
      collected := Collected(variables, arrays, collections, maps, fields);
    }
  }

  // ---------------------------------------------------------------- writing what was collected

  lemma DocsAppend(a: seq<Modified>, b: seq<Modified>, h: Heap)
    ensures EntryDocs(a + b, h) == EntryDocs(a, h) + EntryDocs(b, h)
  {
  }

  predicate AllPack(es: seq<Modified>, h: Heap) {
    forall e :: e in es ==> EntryPacks(e, h)
  }

  method PackModified(es: seq<Modified>, h: Heap, p: JSONPacker) returns (ok: bool)
    modifies p`tokens, p`stack
    ensures old(p.tokens) <= p.tokens
    ensures ok <==> Room(old(p.stack), |es|) && AllPack(es, h)
    ensures ok ==> Wrote(old(p.tokens), old(p.stack), p.tokens, p.stack, EntryDocs(es, h))
  {
    hide Wrote;
    hide EntryDoc;
    hide EntryPacks;
    ok := true;
    WroteNothing(p.tokens, p.stack);
    assert EntryDocs(es[..0], h) == [];
    for i := 0 to |es|
      invariant ok && old(p.tokens) <= p.tokens
      invariant AllPack(es[..i], h)
      invariant Wrote(old(p.tokens), old(p.stack), p.tokens, p.stack, EntryDocs(es[..i], h))
    {
      ghost var t, s := p.tokens, p.stack;
      ok := PackEntry(es[i].opening, es[i].value, h, p);
      assert EntryPacks(es[i], h) == (Fits(es[i].opening, es[i].value) && ContentPacks(es[i].value, h, es[i].opening.Bare?)) by {
        EntryPacksMeans(es[i], h);
      }
      WroteThen(old(p.tokens), old(p.stack), t, s, p.tokens, p.stack, EntryDocs(es[..i], h), EntryDocs([es[i]], h));
      assert EntryDocs([es[i]], h) == [EntryDoc(es[i].opening, es[i].value, h)];
      assert es[..i + 1] == es[..i] + [es[i]];
      DocsAppend(es[..i], [es[i]], h);
      assert es[i] in es;
      if !ok { return; }
    }
    assert es[..|es|] == es;
    RoomLeft(old(p.tokens), old(p.stack), p.tokens, p.stack, EntryDocs(es, h));
  }

  lemma EntryPacksMeans(e: Modified, h: Heap)
    ensures EntryPacks(e, h) == (Fits(e.opening, e.value) && ContentPacks(e.value, h, e.opening.Bare?))
  {
  }

  // The value as its type has it. A value that is no int is caught and read as null; null throws.
  method ConvertByDescriptor(desc: string, value: Value) returns (ok: bool, converted: Value)
    ensures ok <==> !(desc == "Z" || desc == "C") || value != ShallowView.Null
    ensures desc != "Z" && desc != "C" ==> converted == value
    ensures ok && desc == "Z" ==>
              converted == if value.Boxed? && value.s.Whole? then Boxed(Truth(value.s.n == 1)) else ShallowView.Null
    ensures ok && desc == "C" ==>
              converted == if value.Boxed? && value.s.Whole? then Boxed(Letter(value.s.n % 0x1_0000)) else ShallowView.Null
  {
    ok, converted := true, value;
    if desc == "Z" || desc == "C" {
      match value {
        case Null => ok := false;
        case Boxed(Whole(n)) => converted := Boxed(if desc == "Z" then Truth(n == 1) else Letter(n % 0x1_0000));
        case _ => converted := ShallowView.Null;
      }
    }
  }

  // Converting a value for its type may throw.
  method PackVariables(vs: seq<Variable>, h: Heap, p: JSONPacker) returns (ok: bool)
    modifies p`tokens, p`stack
    ensures old(p.tokens) <= p.tokens
    ensures ok <==> Room(old(p.stack), |vs|) && (forall v :: v in vs ==> Converts(v)) && AllPack(VariableEntries(vs), h)
    ensures ok ==> Wrote(old(p.tokens), old(p.stack), p.tokens, p.stack, EntryDocs(VariableEntries(vs), h))
  {
    hide Wrote;
    hide EntryDoc;
    hide EntryPacks;
    ok := true;
    WroteNothing(p.tokens, p.stack);
    assert EntryDocs(VariableEntries(vs[..0]), h) == [];
    for i := 0 to |vs|
      invariant ok && old(p.tokens) <= p.tokens
      invariant forall v :: v in vs[..i] ==> Converts(v)
      invariant AllPack(VariableEntries(vs[..i]), h)
      invariant Wrote(old(p.tokens), old(p.stack), p.tokens, p.stack, EntryDocs(VariableEntries(vs[..i]), h))
    {
      ghost var t, s := p.tokens, p.stack;
      var converts, value := ConvertByDescriptor(vs[i].def.desc, vs[i].value);
      assert vs[i] in vs;
      if !converts {
        assert !Converts(vs[i]);
        return false;
      }
      ghost var e := VariableEntry(vs[i]);
      ok := PackEntry(Named(vs[i].def.name), value, h, p);
      EntryPacksMeans(e, h);
      WroteThen(old(p.tokens), old(p.stack), t, s, p.tokens, p.stack, EntryDocs(VariableEntries(vs[..i]), h), EntryDocs([e], h));
      assert EntryDocs([e], h) == [EntryDoc(e.opening, e.value, h)];
      assert VariableEntries(vs[..i + 1]) == VariableEntries(vs[..i]) + [e];
      DocsAppend(VariableEntries(vs[..i]), [e], h);
      assert VariableEntries(vs)[i] == e && e in VariableEntries(vs);
      if !ok { return; }
    }
    assert vs[..|vs|] == vs;
    RoomLeft(old(p.tokens), old(p.stack), p.tokens, p.stack, EntryDocs(VariableEntries(vs), h));
  }

  // Variables, arrays, collections, maps, fields.
  method Consume(c: Collected, h: Heap, p: JSONPacker) returns (ok: bool)
    modifies p`tokens, p`stack
    ensures old(p.tokens) <= p.tokens
    ensures ok <==> Room(old(p.stack), c.Count()) && Packs(c, h)
    ensures ok ==> Wrote(old(p.tokens), old(p.stack), p.tokens, p.stack, EntryDocs(Entries(c), h))
  {
    hide Wrote;
    hide EntryDocs;
    hide EntryPacks;
    hide Converts;
    var bare := BareEntries(c.arrays) + BareEntries(c.collections) + BareEntries(c.maps) + FieldEntries(c.fields);
    assert Entries(c) == VariableEntries(c.variables) + bare;
    PacksMeans(c, h, bare);
    ok := PackVariables(c.variables, h, p);
    if !ok { return; }
    ghost var t, s := p.tokens, p.stack;
    ok := PackModified(bare, h, p);
    WroteThen(old(p.tokens), old(p.stack), t, s, p.tokens, p.stack, EntryDocs(VariableEntries(c.variables), h), EntryDocs(bare, h));
    DocsAppend(VariableEntries(c.variables), bare, h);
  }

  lemma PacksMeans(c: Collected, h: Heap, bare: seq<Modified>)
    requires Entries(c) == VariableEntries(c.variables) + bare
    ensures Packs(c, h) <==> (forall v :: v in c.variables ==> Converts(v)) && AllPack(VariableEntries(c.variables), h) && AllPack(bare, h)
  {
    hide EntryPacks;
    hide Converts;
    assert forall e :: e in Entries(c) <==> e in VariableEntries(c.variables) || e in bare;
  }

  // The flow record; nothing in it can throw.
  method PackFlowRecord(r: FlowRecord, p: JSONPacker)
    requires p.stack == [] && p.tokens == []
    modifies p
    ensures p.stack == [] && p.tokens == []
    ensures p.Stream() == old(p.Stream()) + Items(Flatten(FlowDoc(r))) + [LineEnd]
  {
    hide Wrote;
    hide Flatten;
    hide FlattenAll;
    var size := 5 + if r.tag.Some? then 1 else 0;
    var ok := p.WriteMapBegin(size);
    ghost var t1, s1 := p.tokens, p.stack;
    ok := p.WriteEntry("t", Whole(r.time));
    ghost var t2, s2, d2 := p.tokens, p.stack, [TextDoc("t"), Leaf(Whole(r.time))];
    ghost var d3 := d2 + TagDocs(r.tag);
    if r.tag.Some? {
      ok := p.WriteEntry("tg", Text(r.tag.value));
      WroteThen(t1, s1, t2, s2, p.tokens, p.stack, d2, TagDocs(r.tag));
    } else {
      assert d3 == d2;
    }
    ghost var t3, s3 := p.tokens, p.stack;
    ok := p.WriteEntry("c", Whole(r.c));
    WroteThen(t1, s1, t3, s3, p.tokens, p.stack, d3, [TextDoc("c"), Leaf(Whole(r.c))]);
    ghost var t4, s4, d4 := p.tokens, p.stack, d3 + [TextDoc("c"), Leaf(Whole(r.c))];
    ok := p.WriteEntry("m", Whole(r.m));
    WroteThen(t1, s1, t4, s4, p.tokens, p.stack, d4, [TextDoc("m"), Leaf(Whole(r.m))]);
    ghost var t5, s5, d5 := p.tokens, p.stack, d4 + [TextDoc("m"), Leaf(Whole(r.m))];
    ok := p.WriteEntry("l", Whole(r.line));
    WroteThen(t1, s1, t5, s5, p.tokens, p.stack, d5, [TextDoc("l"), Leaf(Whole(r.line))]);
    ghost var t6, s6, d6 := p.tokens, p.stack, d5 + [TextDoc("l"), Leaf(Whole(r.line))];
    ok := p.WriteEntry("sd", Whole(r.depth));
    WroteThen(t1, s1, t6, s6, p.tokens, p.stack, d6, [TextDoc("sd"), Leaf(Whole(r.depth))]);
    ghost var d7 := d6 + [TextDoc("sd"), Leaf(Whole(r.depth))];
    assert d7 == FlowDoc(r).items;
    WroteMap([], [], size, p.tokens, p.stack, d7);
    ok := p.WriteMapEnd();
    OneDocWritten(p.tokens, p.stack, FlowDoc(r));
    assert old(p.Stream()) == p.out by { NoItems(p.out); }
    p.EndJSONLine();
  }

  // Step, then the collected entries, their number declared first.
  method PackSnapshotRecord(c: Collected, step: int, h: Heap, p: JSONPacker) returns (ok: bool)
    requires p.stack == [] && p.tokens == []
    modifies p
    ensures ok <==> Packs(c, h)
    ensures ok ==> p.stack == [] && p.tokens == []
                   && p.Stream() == old(p.Stream()) + Items(Flatten(SnapshotDoc(step, c, h))) + [LineEnd]
    ensures !ok ==> p.Stream() == old(p.Stream()) + Items(p.tokens)
  {
    hide Wrote;
    hide Flatten;
    hide FlattenAll;
    hide Packs;
    hide Entries;
    assert old(p.Stream()) == p.out by { NoItems(p.out); }
    ok := p.WriteMapBegin(2);
    ghost var t1, s1 := p.tokens, p.stack;
    ok := p.WriteEntry("i", Whole(step));
    ghost var t2, s2, d2 := p.tokens, p.stack, [TextDoc("i"), Leaf(Whole(step))];
    ok := p.Write(Text("sn"));
    WroteThen(t1, s1, t2, s2, p.tokens, p.stack, d2, [TextDoc("sn")]);
    ghost var t3, s3, d3 := p.tokens, p.stack, d2 + [TextDoc("sn")];
    RoomLeft(t1, s1, t3, s3, d3);
    WroteThen(t1, s1, t3, s3, t3, s3, d3, [NilDoc]);
    ok := p.WriteArrayBegin(c.Count());
    ghost var entries, docs := Entries(c), EntryDocs(Entries(c), h);
    CountIsEntries(c);
    hide EntryDocs;
    ok := Consume(c, h, p);
    if !ok { return; }
    WroteList(t3, s3, c.Count(), p.tokens, p.stack, docs);
    NoNils();
    ok := p.WriteArrayEnd(true);
    WroteThen(t1, s1, t3, s3, p.tokens, p.stack, d3, [List(docs)]);
    assert d3 + [List(docs)] == SnapshotDoc(step, c, h).items;
    WroteMap([], [], 2, p.tokens, p.stack, d3 + [List(docs)]);
    ok := p.WriteMapEnd();
    OneDocWritten(p.tokens, p.stack, SnapshotDoc(step, c, h));
    p.EndJSONLine();
  }

  lemma CountIsEntries(c: Collected)
    ensures |Entries(c)| == c.Count()
  {
  }

  lemma NoItems(ws: seq<Write>)
    ensures ws + Items([]) == ws
  {
  }

  lemma OneDocWritten(t: seq<Token>, s: seq<Level>, d: Doc)
    requires Wrote([], [], t, s, [d])
    ensures t == Flatten(d) && s == []
  {
    FlattenOne(d);
    assert [] + Flatten(d) == Flatten(d);
  }

  // ---------------------------------------------------------------- the flow

  class Flow {
    const perThread: FlowPerThread
    const lookup: DefinitionIndex.VariableDefinitionLookup
    var allCaptureDisabled: bool

    constructor ()
      ensures Valid() && View() == Start([]) && fresh(Footprint())
    {
      perThread := new FlowPerThread();
      lookup := new DefinitionIndex.VariableDefinitionLookup();
      allCaptureDisabled := false;
    }

    function Footprint(): set<object> {
      perThread.Footprint() + {this, lookup}
    }

    // Outside a capture the packers are between records, unless capture has been given up.
    ghost predicate Valid()
      reads Footprint()
    {
      && perThread.Separate() && lookup.Valid()
      && perThread.entriesWithinCaptureCode >= 0
      && (perThread.entriesWithinCaptureCode == 0 && !allCaptureDisabled ==>
            perThread.flowPacker.stack == [] && perThread.snapshotPacker.stack == []
            && perThread.flowPacker.tokens == [] && perThread.snapshotPacker.tokens == [])
    }

    ghost function View(): State
      reads Footprint()
    {
      perThread.View(allCaptureDisabled, lookup.log)
    }

    // While a line is captured no hook touches the packers.
    twostate predicate PackersKept()
      reads Footprint()
    {
      old(perThread.entriesWithinCaptureCode) >= 1 ==>
        && perThread.flowPacker.tokens == old(perThread.flowPacker.tokens)
        && perThread.flowPacker.stack == old(perThread.flowPacker.stack)
        && perThread.flowPacker.out == old(perThread.flowPacker.out)
        && perThread.snapshotPacker.tokens == old(perThread.snapshotPacker.tokens)
        && perThread.snapshotPacker.stack == old(perThread.snapshotPacker.stack)
        && perThread.snapshotPacker.out == old(perThread.snapshotPacker.out)
    }

    predicate CapturingStateDisabled()
      reads this, perThread
    {
      perThread.entriesWithinCaptureCode >= 1 || allCaptureDisabled
    }

    predicate CapturingLinesDisabled()
      reads this, perThread
    {
      perThread.entriesWithinCaptureCode > 1 || allCaptureDisabled
    }

    method CaptureArrayModification(value: Value)
      requires Valid()
      modifies Footprint()
      ensures Valid() && View() == Next(old(View()), ArrayModification(value)) && PackersKept()
    {
      if CapturingStateDisabled() { return; }
      perThread.arrayModificationTracker.TrackModification(value);
    }

    method CaptureCollectionModification(value: Value)
      requires Valid()
      modifies Footprint()
      ensures Valid() && View() == Next(old(View()), CollectionModification(value)) && PackersKept()
    {
      if CapturingStateDisabled() { return; }
      perThread.collectionModificationTracker.TrackModification(value);
    }

    method CaptureMapModification(value: Value)
      requires Valid()
      modifies Footprint()
      ensures Valid() && View() == Next(old(View()), MapModification(value)) && PackersKept()
    {
      if CapturingStateDisabled() { return; }
      perThread.mapModificationTracker.TrackModification(value);
    }

    method CaptureFieldModification(f: Field)
      requires Valid()
      modifies Footprint()
      ensures Valid() && View() == Next(old(View()), FieldModification(f)) && PackersKept()
    {
      if CapturingStateDisabled() { return; }
      perThread.fieldModificationTracker.TrackFieldAssignment(f);
    }

    method CaptureVariableModification(value: Value, index: int)
      requires Valid()
      modifies Footprint()
      ensures Valid() && View() == Next(old(View()), VariableModification(index, value)) && PackersKept()
    {
      if CapturingStateDisabled() { return; }
      perThread.variableTracker.TrackVariableModification(index, value);
    }

    method CaptureTag(tag: string)
      requires Valid()
      modifies Footprint()
      ensures Valid() && View() == Next(old(View()), Tag(tag)) && PackersKept()
    {
      if CapturingStateDisabled() { return; }
      perThread.tagTracker.TrackTag(tag);
    }

    method DumpLeftoverVariableStateAtMethodExit()
      requires Valid()
      modifies Footprint()
      ensures Valid() && View() == Next(old(View()), Dump) && PackersKept()
    {
      if CapturingStateDisabled() { return; }
      perThread.variableTracker.DumpAll();
    }

    method Increase(fetched: int)
      requires Valid()
      modifies Footprint()
      ensures Valid() && View() == Next(old(View()), Recorder.Increase(fetched)) && PackersKept()
    {
      if CapturingStateDisabled() { return; }
      perThread.Increase(fetched);
    }

    method Decrease()
      requires Valid()
      modifies Footprint()
      ensures Valid() && View() == Next(old(View()), Recorder.Decrease) && PackersKept()
    {
      if CapturingStateDisabled() { return; }
      perThread.Decrease();
    }

    method Fetch(fetched: int)
      requires Valid()
      modifies Footprint()
      ensures Valid() && View() == Next(old(View()), Recorder.Fetch(fetched)) && PackersKept()
    {
      if CapturingStateDisabled() { return; }
      perThread.Fetch(fetched);
    }

    method CaptureVariableDefinition(d: DefinitionIndex.CompleteVariableDefinition)
      requires Valid()
      modifies Footprint()
      ensures Valid() && View() == Next(old(View()), VariableDefinition(d)) && PackersKept()
    {
      if CapturingStateDisabled() { return; }
      if d.fromLabel <= d.toLabel {
        lookup.TrackVariableDefinition(d);
      }
    }

    // Client code that runs while a line is captured: its hooks do nothing.
    method PerformInner(inner: seq<Call>)
      requires Valid() && perThread.entriesWithinCaptureCode >= 1
      modifies Footprint()
      ensures Valid() && View() == old(View()) && PackersKept()
      decreases inner, 1
    {
      for i := 0 to |inner|
        invariant Valid() && View() == old(View()) && PackersKept()
      {
        Perform(inner[i]);
      }
    }

    method Perform(call: Call)
      requires Valid() && perThread.entriesWithinCaptureCode >= 1
      modifies Footprint()
      ensures Valid() && View() == old(View()) && PackersKept()
      decreases call, 0
    {
      match call
      case Line(c, m, line, label_, now, heap, inner, _) => var mishap := CaptureLineExecution(c, m, line, label_, now, heap, inner);
      case ArrayModification(v) => CaptureArrayModification(v);
      case CollectionModification(v) => CaptureCollectionModification(v);
      case MapModification(v) => CaptureMapModification(v);
      case FieldModification(f) => CaptureFieldModification(f);
      case VariableModification(index, v) => CaptureVariableModification(v, index);
      case VariableDefinition(d) => CaptureVariableDefinition(d);
      case Tag(tag) => CaptureTag(tag);
      case Dump => DumpLeftoverVariableStateAtMethodExit();
      case Increase(fetched) => Increase(fetched);
      case Decrease => Decrease();
      case Fetch(fetched) => Fetch(fetched);
    }

    method PackFlow(classIndex: nat, methodIndex: nat, lineNumber: int, now: int)
      requires Valid() && perThread.flowPacker.stack == [] && perThread.flowPacker.tokens == []
      modifies perThread.tagTracker, perThread.flowPacker
      ensures Valid() && perThread.flowPacker.stack == [] && perThread.flowPacker.tokens == []
      ensures View() == old(View()).(tag := None, flow := old(View()).flow
                + Items(Flatten(FlowDoc(FlowRecord(now, old(View()).tag, classIndex, methodIndex, lineNumber, old(View()).depth)))) + [LineEnd])
    {
      hide Flatten;
      hide FlowDoc;
      var tag := perThread.tagTracker.ConsumeTag();
      PackFlowRecord(FlowRecord(now, tag, classIndex, methodIndex, lineNumber, perThread.stackTraceDepth), perThread.flowPacker);
    }

    // Writes nothing when nothing was collected; answers false, with what was written, when
    // packing throws.
    method PackSnapshot(collected: Collected, nextStep: int, heap: Heap, inner: seq<Call>)
      returns (ok: bool, ghost written: seq<Token>)
      requires Valid() && perThread.entriesWithinCaptureCode >= 1
      requires perThread.snapshotPacker.stack == [] && perThread.snapshotPacker.tokens == []
      modifies Footprint()
      ensures Valid() && perThread.flowPacker.stack == old(perThread.flowPacker.stack)
              && perThread.flowPacker.tokens == old(perThread.flowPacker.tokens)
      ensures ok ==> perThread.snapshotPacker.stack == [] && perThread.snapshotPacker.tokens == []
      ensures ok <==> collected.Count() == 0 || Packs(collected, heap)
      ensures View() ==
              if collected.Count() == 0 then old(View())
              else if ok then old(View()).(snapshots := old(View()).snapshots + Items(Flatten(SnapshotDoc(nextStep, collected, heap))) + [LineEnd])
              else old(View()).(snapshots := old(View()).snapshots + Items(written))
      decreases inner, 2
    {
      ok, written := true, [];
      if collected.Count() > 0 {
        PerformInner(inner);
        ok := PackSnapshotRecord(collected, nextStep, heap, perThread.snapshotPacker);
        written := perThread.snapshotPacker.tokens;
      }
    }

    /** The whole of a line capture, the guard around it included; an exception from packing
        ends all capture. */
    method CaptureLineExecution(classIndex: nat, methodIndex: nat, lineNumber: int, labelNumber: int, now: int,
                                heap: Heap, inner: seq<Call>)
      returns (ghost mishap: Mishap)
      requires Valid()
      modifies Footprint()
      ensures Valid() && PackersKept()
      ensures View() == Next(old(View()), Line(classIndex, methodIndex, lineNumber, labelNumber, now, heap, inner, mishap))
      ensures mishap.Fine? || (mishap.SnapshotThrows? && !mishap.error)
      ensures old(View()).guard == 0 && !old(View()).disabled ==>
                var collected := Collect(old(View()), classIndex, methodIndex, labelNumber);
                mishap.Fine? <==> collected.Count() == 0 || Packs(collected, heap)
      ensures old(View()).guard >= 1 ==> View() == old(View())
      decreases inner, 4
    {
      mishap := Fine;
      perThread.DisableCaptureInCaseJavaAgentCallsClientCode();
      if !CapturingLinesDisabled() {
        mishap := CaptureWithinGuard(classIndex, methodIndex, lineNumber, labelNumber, now, heap, inner);
      }
      hide CaptureLine;
      hide Packs;
      hide Resolve;
      perThread.ReenableCapture();
    }

    method CaptureWithinGuard(classIndex: nat, methodIndex: nat, lineNumber: int, labelNumber: int, now: int,
                              heap: Heap, inner: seq<Call>)
      returns (ghost mishap: Mishap)
      requires Valid() && perThread.entriesWithinCaptureCode == 1 && !allCaptureDisabled
      requires perThread.flowPacker.stack == [] && perThread.snapshotPacker.stack == []
               && perThread.flowPacker.tokens == [] && perThread.snapshotPacker.tokens == []
      modifies Footprint()
      ensures Valid() && perThread.entriesWithinCaptureCode == 1
      ensures View() == CaptureLine(old(View()), Line(classIndex, methodIndex, lineNumber, labelNumber, now, heap, inner, mishap))
      ensures mishap.Fine? || (mishap.SnapshotThrows? && !mishap.error)
      ensures var collected := Collect(old(View()), classIndex, methodIndex, labelNumber);
              mishap.Fine? <==> collected.Count() == 0 || Packs(collected, heap)
      ensures !allCaptureDisabled ==>
                perThread.flowPacker.stack == [] && perThread.snapshotPacker.stack == []
                && perThread.flowPacker.tokens == [] && perThread.snapshotPacker.tokens == []
      decreases inner, 3
    {
      hide Flatten;
      hide FlowDoc;
      hide SnapshotDoc;
      hide Packs;
      hide Resolve;
      hide DefinitionIndex.Find;
      hide DefinitionIndex.RangesOf;
      hide DefinitionIndex.Latest;
      hide DefinitionIndex.Ordered;
      hide DefinitionIndex.WithinDefinitions;
      ghost var s := View();
      mishap := Fine;
      var nextStep := perThread.NextStep();
      PackFlow(classIndex, methodIndex, lineNumber, now);
      ghost var s2 := View();
      var collected := perThread.CollectObjects(lookup, classIndex, methodIndex, labelNumber);
      assert View() == s2.Emptied() && collected == Recorder.Collect(s, classIndex, methodIndex, labelNumber);
      hide Recorder.Collect;
      var ok, written := PackSnapshot(collected, nextStep, heap, inner);
      if !ok {
        mishap := SnapshotThrows(written, false);
        allCaptureDisabled := true;
      }
      CaptureLineSpelledOut(s, Line(classIndex, methodIndex, lineNumber, labelNumber, now, heap, inner, mishap));
      hide CaptureLine;
    }
  }

  lemma CaptureLineSpelledOut(s: State, call: Call)
    requires call.Line? && !call.mishap.FlowThrows? && s.guard >= 1
    ensures var flow := s.flow + Items(Flatten(FlowDoc(FlowRecord(call.now, s.tag, call.c, call.m, call.line, s.depth)))) + [LineEnd];
            var s3 := s.(step := s.step + 1, tag := None, flow := flow).Emptied();
            var collected := Collect(s, call.c, call.m, call.label_);
            CaptureLine(s, call) ==
            if collected.Count() == 0 then s3
            else if call.mishap.Fine? && Packs(collected, call.heap) then
              s3.(snapshots := s.snapshots + Items(Flatten(SnapshotDoc(s.step, collected, call.heap))) + [LineEnd])
            else if call.mishap.SnapshotThrows? then
              s3.(snapshots := s.snapshots + Items(call.mishap.written), disabled := s.disabled || !call.mishap.error)
            else s3.(disabled := true)
  {
    hide Flatten;
    hide FlowDoc;
    hide SnapshotDoc;
    hide Packs;
    hide Resolve;
    var flow := s.flow + Items(Flatten(FlowDoc(FlowRecordOf(s, call)))) + [LineEnd];
    var s2 := s.(step := s.step + 1, tag := None, flow := flow);
    InnerCallsAreSilent(call.inner, s2.Emptied());
    assert Collect(s2, call.c, call.m, call.label_) == Collect(s, call.c, call.m, call.label_);
  }
}
