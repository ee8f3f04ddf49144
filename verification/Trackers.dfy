/**
 What the trackers hold between two lines, told from the calls alone: each modification since
 the last line, once.
 */
module Trackers {
  import opened Wrappers
  import opened ShallowView
  import opened DefinitionIndex
  import opened Recorder
  import opened Recordings

  // No error was thrown and capture has not been given up.
  predicate Calm(calls: seq<Call>, s: State) {
    Fresh(s) && NoErrors(calls) && !Run(calls, s).disabled
  }

  // Nothing was captured after the k-th call.
  predicate NoLineAfter(calls: seq<Call>, k: nat) {
    forall j :: k < j < |calls| ==> !calls[j].Line?
  }

  // The state before the last call, and what the last call does to it.
  lemma LastStep(calls: seq<Call>, s: State)
    requires s.guard == 0 && !s.disabled && NoErrors(calls) && !Run(calls, s).disabled && calls != []
    ensures var head, call := calls[..|calls| - 1], calls[|calls| - 1];
            && NoErrors(head) && !Run(head, s).disabled && Run(head, s).guard == 0
            && (if call.Line? then Run(calls, s) == Run(calls, s).Emptied() && Run(calls, s).tag == None && Run(calls, s).depth == Run(head, s).depth
                                   && Run(calls, s).definitions == Run(head, s).definitions
                else Run(calls, s) == Track(Run(head, s), call))
  {
    var head, call := calls[..|calls| - 1], calls[|calls| - 1];
    hide CaptureOf;
    hide Captures;
    OnlyTheLastIsTorn(head, s);
    var before := Run(head, s);
    if before.disabled {
      GivenUpStays(calls, s);
    } else if call.Line? {
      LineCaptured(before, call);
    }
  }

  lemma CalmStep(calls: seq<Call>, s: State)
    requires calls != [] && Calm(calls, s)
    ensures var head, call := calls[..|calls| - 1], calls[|calls| - 1];
            && Calm(head, s) && Run(head, s).guard == 0
            && (if call.Line? then Run(calls, s) == Run(calls, s).Emptied() && Run(calls, s).tag == None && Run(calls, s).depth == Run(head, s).depth
                                   && Run(calls, s).definitions == Run(head, s).definitions
                else Run(calls, s) == Track(Run(head, s), call))
  {
    hide Run;
    LastStep(calls, s);
  }

  // ---------------------------------------------------------------- arrays, collections and maps

  predicate Distinct<T(==)>(s: seq<T>) {
    forall i, j :: 0 <= i < j < |s| ==> s[i] != s[j]
  }

  lemma AddedOnce(references: seq<Value>, v: Value)
    requires Distinct(references)
    ensures Distinct(AddReference(references, v))
    ensures forall w :: w in AddReference(references, v) <==> w in references || w == v
    ensures references <= AddReference(references, v)
  {
  }

  ghost predicate ArrayPending(calls: seq<Call>, v: Value) {
    exists k :: 0 <= k < |calls| && calls[k].ArrayModification? && calls[k].v == v && NoLineAfter(calls, k)
  }

  ghost predicate CollectionPending(calls: seq<Call>, v: Value) {
    exists k :: 0 <= k < |calls| && calls[k].CollectionModification? && calls[k].v == v && NoLineAfter(calls, k)
  }

  ghost predicate MapPending(calls: seq<Call>, v: Value) {
    exists k :: 0 <= k < |calls| && calls[k].MapModification? && calls[k].v == v && NoLineAfter(calls, k)
  }

  lemma PendingStep(calls: seq<Call>, v: Value)
    requires calls != []
    ensures var head, call := calls[..|calls| - 1], calls[|calls| - 1];
            && (ArrayPending(calls, v) <==> !call.Line? && (ArrayPending(head, v) || (call.ArrayModification? && call.v == v)))
            && (CollectionPending(calls, v) <==> !call.Line? && (CollectionPending(head, v) || (call.CollectionModification? && call.v == v)))
            && (MapPending(calls, v) <==> !call.Line? && (MapPending(head, v) || (call.MapModification? && call.v == v)))
  {
    var head, call := calls[..|calls| - 1], calls[|calls| - 1];
    var last := |calls| - 1;
    assert NoLineAfter(calls, last);
    assert forall k :: 0 <= k < last ==> calls[k] == head[k];
    assert forall k :: 0 <= k < last ==> (NoLineAfter(calls, k) <==> NoLineAfter(head, k) && !call.Line?);
  }

  /** An array, collection or map is held exactly when it was modified since the last line,
      and then once. */
  lemma {:induction false} ReferencesExactly(calls: seq<Call>, s: State)
    requires Calm(calls, s)
    ensures var t := Run(calls, s);
            && Distinct(t.arrays) && Distinct(t.collections) && Distinct(t.maps)
            && (forall v :: v in t.arrays <==> ArrayPending(calls, v))
            && (forall v :: v in t.collections <==> CollectionPending(calls, v))
            && (forall v :: v in t.maps <==> MapPending(calls, v))
    decreases |calls|
  {
    hide Calm;
    hide ArrayPending;
    hide CollectionPending;
    hide MapPending;
    if calls != [] {
      CalmStep(calls, s);
      var head, call := calls[..|calls| - 1], calls[|calls| - 1];
      ReferencesExactly(head, s);
      forall v
        ensures ArrayPending(calls, v) <==> !call.Line? && (ArrayPending(head, v) || (call.ArrayModification? && call.v == v))
        ensures CollectionPending(calls, v) <==> !call.Line? && (CollectionPending(head, v) || (call.CollectionModification? && call.v == v))
        ensures MapPending(calls, v) <==> !call.Line? && (MapPending(head, v) || (call.MapModification? && call.v == v))
      {
        PendingStep(calls, v);
      }
      hide Run;
      hide AddReference;
      if call.ArrayModification? { AddedOnce(Run(head, s).arrays, call.v); }
      if call.CollectionModification? { AddedOnce(Run(head, s).collections, call.v); }
      if call.MapModification? { AddedOnce(Run(head, s).maps, call.v); }
    } else {
      NothingPending(calls, s);
    }
  }

  lemma NothingPending(calls: seq<Call>, s: State)
    requires calls == [] && Calm(calls, s)
    ensures s.Emptied().(byReference := false) == s && Run(calls, s) == s
    ensures forall v :: !ArrayPending(calls, v) && !CollectionPending(calls, v) && !MapPending(calls, v)
  {
  }

  /** Exactly once: the next captured line reports each array modified since the line before
      once, and no other array. */
  lemma ArrayReportedOnce(calls: seq<Call>, s: State, c: nat, m: nat, label_: int, v: Value)
    requires Calm(calls, s)
    ensures multiset(Collect(Run(calls, s), c, m, label_).arrays)[v] == if ArrayPending(calls, v) then 1 else 0
    ensures multiset(Collect(Run(calls, s), c, m, label_).collections)[v] == if CollectionPending(calls, v) then 1 else 0
    ensures multiset(Collect(Run(calls, s), c, m, label_).maps)[v] == if MapPending(calls, v) then 1 else 0
  {
    ReferencesExactly(calls, s);
    var t := Run(calls, s);
    hide Run;
    hide Calm;
    hide ArrayPending;
    hide CollectionPending;
    hide MapPending;
    CountDistinct(t.arrays, v);
    CountDistinct(t.collections, v);
    CountDistinct(t.maps, v);
  }

  lemma {:induction false} CountDistinct<T>(s: seq<T>, v: T)
    requires Distinct(s)
    ensures multiset(s)[v] == if v in s then 1 else 0
    decreases |s|
  {
    if s != [] {
      assert s == [s[0]] + s[1..];
      CountDistinct(s[1..], v);
    }
  }

  // ---------------------------------------------------------------- variables

  // The call ends what is known of the slot.
  predicate Supersedes(call: Call, index: int) {
    call.Line? || call.Dump? || (call.VariableModification? && call.index == index && !ShouldBeSkipped(call.v))
  }

  predicate Sets(call: Call, index: int, v: Value) {
    call.VariableModification? && call.index == index && call.v == v && !ShouldBeSkipped(v)
  }

  predicate NothingSupersedes(calls: seq<Call>, k: nat, index: int) {
    forall j :: k < j < |calls| ==> !Supersedes(calls[j], index)
  }

  ghost predicate VariablePending(calls: seq<Call>, index: int, v: Value) {
    exists k :: 0 <= k < |calls| && Sets(calls[k], index, v) && NothingSupersedes(calls, k, index)
  }

  lemma VariablePendingStep(calls: seq<Call>, index: int, v: Value)
    requires calls != []
    ensures var head, call := calls[..|calls| - 1], calls[|calls| - 1];
            VariablePending(calls, index, v) <==>
            Sets(call, index, v) || (VariablePending(head, index, v) && !Supersedes(call, index))
  {
    var head, call := calls[..|calls| - 1], calls[|calls| - 1];
    var last := |calls| - 1;
    hide Supersedes;
    hide Sets;
    assert NothingSupersedes(calls, last, index);
    assert forall k :: 0 <= k < last ==> calls[k] == head[k];
    assert forall k :: 0 <= k < last ==> (NothingSupersedes(calls, k, index) <==> NothingSupersedes(head, k, index) && !Supersedes(call, index));
  }

  predicate OneValuePerSlot(slots: seq<Slot>) {
    forall i, j :: 0 <= i < j < |slots| ==> slots[i].index != slots[j].index
  }

  lemma {:induction false} SlotsAfterPut(slots: seq<Slot>, index: int, v: Value, x: Slot)
    requires OneValuePerSlot(slots)
    ensures x in PutSlot(slots, index, v) <==> x == Slot(index, v) || (x in slots && x.index != index)
    decreases |slots|
  {
    if slots != [] {
      var rest := slots[1..];
      SlotsAfterPut(rest, index, v, x);
      assert x in slots <==> x == slots[0] || x in rest;
      if slots[0].index == index {
        assert forall i :: 0 <= i < |rest| ==> rest[i] == slots[i + 1];
      }
    }
  }

  lemma {:induction false} SlotPut(slots: seq<Slot>, index: int, v: Value)
    requires OneValuePerSlot(slots)
    ensures OneValuePerSlot(PutSlot(slots, index, v))
    ensures forall x :: x in PutSlot(slots, index, v) <==> x == Slot(index, v) || (x in slots && x.index != index)
    decreases |slots|
  {
    forall x ensures x in PutSlot(slots, index, v) <==> x == Slot(index, v) || (x in slots && x.index != index) {
      SlotsAfterPut(slots, index, v, x);
    }
    if slots != [] {
      var rest := slots[1..];
      RestIsOther(slots);
      if slots[0].index == index {
        OtherSlotAdded(Slot(index, v), rest);
      } else {
        SlotPut(rest, index, v);
        assert forall i :: 0 <= i < |PutSlot(rest, index, v)| ==> PutSlot(rest, index, v)[i] in PutSlot(rest, index, v);
        OtherSlotAdded(slots[0], PutSlot(rest, index, v));
      }
    }
  }

  lemma RestIsOther(slots: seq<Slot>)
    requires slots != [] && OneValuePerSlot(slots)
    ensures OneValuePerSlot(slots[1..]) && forall x :: x in slots[1..] ==> x.index != slots[0].index
  {
  }

  lemma OtherSlotAdded(x: Slot, slots: seq<Slot>)
    requires OneValuePerSlot(slots) && forall i :: 0 <= i < |slots| ==> slots[i].index != x.index
    ensures OneValuePerSlot([x] + slots)
  {
  }

  /** A slot is held exactly with the last value set since the last line or method exit. */
  lemma {:induction false} VariablesExactly(calls: seq<Call>, s: State)
    requires Calm(calls, s)
    ensures OneValuePerSlot(Run(calls, s).variables)
    ensures forall index, v :: Slot(index, v) in Run(calls, s).variables <==> VariablePending(calls, index, v)
    decreases |calls|
  {
    hide Calm;
    hide VariablePending;
    hide OneValuePerSlot;
    hide PutSlot;
    hide ShouldBeSkipped;
    if calls != [] {
      CalmStep(calls, s);
      var head, call := calls[..|calls| - 1], calls[|calls| - 1];
      VariablesExactly(head, s);
      var before := Run(head, s).variables;
      if call.VariableModification? { SlotPut(before, call.index, call.v); }
      NoSlots();
      forall index, v ensures Slot(index, v) in Run(calls, s).variables <==> VariablePending(calls, index, v) {
        VariablePendingStep(calls, index, v);
      }
    } else {
      NoVariablePending(calls, s);
      NoSlots();
    }
  }

  lemma NoSlots()
    ensures OneValuePerSlot([])
  {
  }

  lemma NoVariablePending(calls: seq<Call>, s: State)
    requires calls == [] && Calm(calls, s)
    ensures Run(calls, s).variables == [] && forall index, v :: !VariablePending(calls, index, v)
  {
  }

  lemma {:induction false} PutHolds(slots: seq<Slot>, index: int, v: Value)
    ensures Slot(index, v) in PutSlot(slots, index, v)
    decreases |slots|
  {
    if slots != [] && slots[0].index != index {
      PutHolds(slots[1..], index, v);
    }
  }

  /** Collections whose class name starts with `org.hibernate` are the only values left out,
      of the variables and of the fields. */
  lemma SkippedExactly(s: State, index: int, v: Value, f: Field)
    requires s.guard == 0 && !s.disabled
    ensures if v.Ref? && v.kind.CollectionKind? && |v.cls| >= 13 && v.cls[..13] == "org.hibernate"
            then Next(s, VariableModification(index, v)) == s
            else Slot(index, v) in Next(s, VariableModification(index, v)).variables
    ensures if f.value.Ref? && f.value.kind.CollectionKind? && |f.value.cls| >= 13 && f.value.cls[..13] == "org.hibernate"
            then Next(s, FieldModification(f)) == s
            else s.byReference ==> Next(s, FieldModification(f)).fields == s.fields + [f]
  {
    PutHolds(s.variables, index, v);
    hide PutSlot;
  }

  // Definition k of the log is the last in scope, and the variable is reported as it says.
  predicate ReportedAs(log: seq<CompleteVariableDefinition>, k: nat, c: nat, m: nat, slot: Slot, label_: int, v: Variable) {
    && LastInScope(log, k, c, m, slot.index, label_) && v.value == slot.value
    && v.def.name == log[k].name && v.def.desc == log[k].desc && v.def.fromLabel == log[k].fromLabel && v.def.slot == log[k].slot
  }

  lemma ResolvedExactly(log: seq<CompleteVariableDefinition>, c: nat, m: nat, slot: Slot, label_: int, v: Variable)
    ensures (exists k: nat :: ReportedAs(log, k, c, m, slot, label_, v))
            <==> slot.value == v.value && LatestOf(log, c, m, slot.index, label_) == Some(v.def)
  {
    hide InScope;
    LatestExactly(log, c, m, slot.index, label_, v.def);
    hide LatestOf;
    if slot.value == v.value && LatestOf(log, c, m, slot.index, label_) == Some(v.def) {
      var k: nat :| LastInScope(log, k, c, m, slot.index, label_)
                    && v.def.name == log[k].name && v.def.desc == log[k].desc && v.def.fromLabel == log[k].fromLabel && v.def.slot == log[k].slot;
      assert ReportedAs(log, k, c, m, slot, label_, v);
    }
    if k: nat :| ReportedAs(log, k, c, m, slot, label_, v) {
      assert LastInScope(log, k, c, m, slot.index, label_);
    }
  }

  /** A variable is reported exactly when its slot holds the value and some definition is in
      scope at the label of the line, and with the name and type of the last of these. */
  lemma {:induction false} VariableReportedExactly(slots: seq<Slot>, log: seq<CompleteVariableDefinition>, c: nat, m: nat, label_: int,
                                                   v: Variable)
    ensures v in Resolve(slots, log, c, m, label_) <==>
            exists i, k: nat :: 0 <= i < |slots| && ReportedAs(log, k, c, m, slots[i], label_, v)
    decreases |slots|
  {
    hide LatestOf;
    hide ReportedAs;
    if slots != [] {
      var rest := slots[1..];
      VariableReportedExactly(rest, log, c, m, label_, v);
      ResolvedExactly(log, c, m, slots[0], label_, v);
      forall i, k: nat | 0 <= i < |slots| && ReportedAs(log, k, c, m, slots[i], label_, v)
        ensures v in Resolve(slots, log, c, m, label_)
      {
        if i > 0 { assert rest[i - 1] == slots[i]; }
      }
      if v in Resolve(rest, log, c, m, label_) {
        var i, k: nat :| 0 <= i < |rest| && ReportedAs(log, k, c, m, rest[i], label_, v);
        assert slots[i + 1] == rest[i];
      }
      if v in Resolve(slots, log, c, m, label_) && v !in Resolve(rest, log, c, m, label_) {
        var k: nat :| ReportedAs(log, k, c, m, slots[0], label_, v);
      }
    }
  }

  // ---------------------------------------------------------------- fields

  // The fields assigned since the last line, in order.
  function FieldsSince(calls: seq<Call>): seq<Field> {
    if calls == [] then []
    else
      var head, call := calls[..|calls| - 1], calls[|calls| - 1];
      if call.Line? then []
      else if call.FieldModification? && !ShouldBeSkipped(call.f.value) then FieldsSince(head) + [call.f]
      else FieldsSince(head)
  }

  predicate AnyLine(calls: seq<Call>) {
    exists k :: 0 <= k < |calls| && calls[k].Line?
  }

  lemma AnyLineStep(calls: seq<Call>)
    requires calls != []
    ensures AnyLine(calls) <==> AnyLine(calls[..|calls| - 1]) || calls[|calls| - 1].Line?
  {
    var head := calls[..|calls| - 1];
    assert forall k :: 0 <= k < |head| ==> calls[k] == head[k];
    if call :| call in head && call.Line? {
      var k :| 0 <= k < |head| && head[k] == call;
      assert calls[k].Line?;
    }
    if calls[|head|].Line? { assert AnyLine(calls); }
  }

  // Each assigned field is held, itself or as an equal one; nothing else is; no two are equal.
  predicate HeldUpToEquality(held: seq<Field>, stored: seq<Field>) {
    && (forall f :: f in stored ==> exists g :: g in held && (g == f || g.Same(f)))
    && (forall g :: g in held ==> g in stored)
    && (forall i, j :: 0 <= i < j < |held| ==> !held[i].Same(held[j]))
  }

  /** Before the first line a second assignment is dropped exactly when it is to the field of
      the same name of the same object, and assigns the same object or box once more. */
  lemma EqualFieldsExactly(f: Field, g: Field)
    ensures var same := f.name == g.name && f.parentId == g.parentId
                        && (match f.value
                            case Null => false
                            case Boxed(_) => f.boxId == (match g.value case Null => 0 case Boxed(_) => g.boxId case Ref(_, hash, _, _) => hash)
                            case Ref(_, id, _, _) => id == (match g.value case Null => 0 case Boxed(_) => g.boxId case Ref(_, hash, _, _) => hash));
            AddField(AddField([], false, f), false, g) == if same then [f] else [f, g]
  {
    assert AddField([], false, f) == [f];
    assert f in [f] && AddField([f], false, g) == if f.Same(g) then [f] else [f, g];
  }

  lemma FieldHeld(held: seq<Field>, stored: seq<Field>, f: Field)
    requires HeldUpToEquality(held, stored)
    ensures HeldUpToEquality(AddField(held, false, f), stored + [f])
  {
    var now := AddField(held, false, f);
    forall e | e in stored + [f] ensures exists g :: g in now && (g == e || g.Same(e)) {
      if e in stored {
        var g :| g in held && (g == e || g.Same(e));
        assert g in now;
      } else if now != held {
        assert now[|held|] == f && e == f;
        assert f in now;
      } else {
        var g :| g in held && g.Same(f);
        assert g in now && e == f;
      }
    }
    assert forall i :: 0 <= i < |held| ==> held[i] in held;
  }

  /** Once a line has been captured the fields held are the assignments since the last line,
      every one of them; before that, equal ones are held once. */
  lemma {:induction false} FieldsExactly(calls: seq<Call>, s: State)
    requires Calm(calls, s)
    ensures Run(calls, s).byReference <==> AnyLine(calls)
    ensures AnyLine(calls) ==> Run(calls, s).fields == FieldsSince(calls)
    ensures !AnyLine(calls) ==> HeldUpToEquality(Run(calls, s).fields, FieldsSince(calls))
    decreases |calls|
  {
    hide Calm;
    hide HeldUpToEquality;
    hide ShouldBeSkipped;
    if calls != [] {
      CalmStep(calls, s);
      var head, call := calls[..|calls| - 1], calls[|calls| - 1];
      FieldsExactly(head, s);
      AnyLineStep(calls);
      if call.FieldModification? && !AnyLine(head) {
        FieldHeld(Run(head, s).fields, FieldsSince(head), call.f);
      }
    } else {
      NoFields(calls, s);
    }
  }

  lemma NoFields(calls: seq<Call>, s: State)
    requires calls == [] && Calm(calls, s)
    ensures Run(calls, s).fields == [] && !Run(calls, s).byReference && HeldUpToEquality([], [])
  {
  }

  // ---------------------------------------------------------------- tags

  ghost predicate TagPending(calls: seq<Call>, tag: string) {
    exists k :: 0 <= k < |calls| && calls[k].Tag? && calls[k].tag == tag
                && forall j :: k < j < |calls| ==> !calls[j].Line? && !calls[j].Tag?
  }

  lemma TagPendingStep(calls: seq<Call>, tag: string)
    requires calls != []
    ensures var head, call := calls[..|calls| - 1], calls[|calls| - 1];
            TagPending(calls, tag) <==>
            (call.Tag? && call.tag == tag) || (TagPending(head, tag) && !call.Line? && !call.Tag?)
  {
    var head, call := calls[..|calls| - 1], calls[|calls| - 1];
    assert forall k :: 0 <= k < |head| ==> calls[k] == head[k];
    if call.Tag? && call.tag == tag {
      assert calls[|head|].Tag?;
    }
    if TagPending(head, tag) && !call.Line? && !call.Tag? {
      var k :| 0 <= k < |head| && head[k].Tag? && head[k].tag == tag && forall j :: k < j < |head| ==> !head[j].Line? && !head[j].Tag?;
      assert calls[k].Tag?;
    }
  }

  /** A tag goes into the flow record of the next line and of no other, the last one if there
      are several. */
  lemma {:induction false} TagsExactly(calls: seq<Call>, s: State)
    requires Calm(calls, s) && s.tag == None
    ensures forall tag :: Run(calls, s).tag == Some(tag) <==> TagPending(calls, tag)
    decreases |calls|
  {
    hide Calm;
    hide TagPending;
    if calls != [] {
      CalmStep(calls, s);
      TagsExactly(calls[..|calls| - 1], s);
      forall tag ensures Run(calls, s).tag == Some(tag) <==> TagPending(calls, tag) {
        TagPendingStep(calls, tag);
      }
    } else {
      NoTagPending(calls, s);
    }
  }

  lemma NoTagPending(calls: seq<Call>, s: State)
    requires calls == []
    ensures Run(calls, s) == s && forall tag :: !TagPending(calls, tag)
  {
  }

  // ---------------------------------------------------------------- depth

  // Entries less exits.
  function Height(calls: seq<Call>): int {
    if calls == [] then 0
    else
      Height(calls[..|calls| - 1])
      + (if calls[|calls| - 1].Increase? then 1 else if calls[|calls| - 1].Decrease? then -1 else 0)
  }

  // Methods exit after they are entered, and no handler fetches the depth anew.
  predicate Nested(calls: seq<Call>) {
    (forall n :: 0 <= n <= |calls| ==> Height(calls[..n]) >= 0) && forall k :: 0 <= k < |calls| ==> !calls[k].Fetch?
  }

  /** Once known, the depth follows entries and exits, so it is back where it was when every
      method entered has been left. */
  lemma {:induction false} DepthFollows(calls: seq<Call>, s: State)
    requires s.guard == 0 && !s.disabled && NoErrors(calls) && !Run(calls, s).disabled && Nested(calls) && s.depth >= 0
    ensures Run(calls, s).depth == s.depth + Height(calls)
    decreases |calls|
  {
    if calls != [] {
      var head, call := calls[..|calls| - 1], calls[|calls| - 1];
      LastStep(calls, s);
      NestedHead(calls);
      DepthFollows(head, s);
      hide Height;
      if !call.Line? { DepthStep(Run(head, s), call); }
    }
  }

  lemma NestedHead(calls: seq<Call>)
    requires Nested(calls) && calls != []
    ensures var head, call := calls[..|calls| - 1], calls[|calls| - 1];
            && Nested(head) && Height(head) >= 0 && !call.Fetch?
            && Height(calls) == Height(head) + (if call.Increase? then 1 else if call.Decrease? then -1 else 0)
  {
    var head := calls[..|calls| - 1];
    assert forall n :: 0 <= n <= |head| ==> head[..n] == calls[..n];
    assert head[..|head|] == head;
  }

  lemma DepthStep(s: State, call: Call)
    requires !call.Line? && !call.Fetch? && s.depth >= 0
    ensures Track(s, call).depth == s.depth + (if call.Increase? then 1 else if call.Decrease? then -1 else 0)
  {
  }

  // ---------------------------------------------------------------- definitions

  function DefinitionsIn(calls: seq<Call>): seq<CompleteVariableDefinition> {
    if calls == [] then []
    else
      DefinitionsIn(calls[..|calls| - 1])
      + (if calls[|calls| - 1].VariableDefinition? && calls[|calls| - 1].d.fromLabel <= calls[|calls| - 1].d.toLabel
         then [calls[|calls| - 1].d] else [])
  }

  // The definitions known are those made outside line captures, in order.
  lemma {:induction false} DefinitionsFollow(calls: seq<Call>, s: State)
    requires Calm(calls, s)
    ensures Run(calls, s).definitions == s.definitions + DefinitionsIn(calls)
    decreases |calls|
  {
    hide Calm;
    if calls != [] {
      CalmStep(calls, s);
      DefinitionsFollow(calls[..|calls| - 1], s);
    } else {
      assert s.definitions + [] == s.definitions;
    }
  }
}
