/**
 What a trace tells of each line, event by event: which modifications fall between two lines,
 and how each is collected.
 */
module Telling {
  import opened Wrappers
  import J = Jvm
  import Trace
  import View = ShallowView
  import DefinitionIndex
  import opened Recorder
  import opened Trackers
  import opened Composition

  predicate NoLine(t: seq<J.Event>) {
    forall k :: 0 <= k < |t| ==> !t[k].LineExecuted?
  }

  // The events up to and with a line, or none.
  predicate EndsWithLine(t: seq<J.Event>) {
    t == [] || t[|t| - 1].LineExecuted?
  }

  // Event by event, the values of the events.
  predicate ArraysOf(es: seq<J.Event>, vs: seq<J.Value>) {
    |es| == |vs| && forall k :: 0 <= k < |es| ==> es[k] == J.ArrayModified(vs[k])
  }

  predicate CollectionsOf(es: seq<J.Event>, vs: seq<J.Value>) {
    |es| == |vs| && forall k :: 0 <= k < |es| ==> es[k] == J.CollectionModified(vs[k])
  }

  predicate MapsOf(es: seq<J.Event>, vs: seq<J.Value>) {
    |es| == |vs| && forall k :: 0 <= k < |es| ==> es[k] == J.MapModified(vs[k])
  }

  // What was modified is what the events say, in their order.
  ghost predicate SinceOf(b: seq<J.Event>, since: Since) {
    && ArraysOf(Trace.Only(Trace.Arrays, b), since.arrays)
    && CollectionsOf(Trace.Only(Trace.Collections, b), since.collections)
    && MapsOf(Trace.Only(Trace.Maps, b), since.maps)
    && since.fields == Trace.Only(Trace.Fields, b)
  }

  lemma OnlyMore(c: Trace.EventClass, b: seq<J.Event>, e: J.Event)
    ensures Trace.Only(c, b + [e]) == Trace.Only(c, b) + if Trace.Belongs(c, e) then [e] else []
  {
    Trace.OnlyAppends(c, b, [e]);
    Trace.OnlyOne(c, e);
  }

  lemma SinceMore(b: seq<J.Event>, since: Since, e: J.Event)
    requires SinceOf(b, since) && !e.LineExecuted?
    ensures SinceOf(b + [e], Modify(since, e))
  {
    OnlyMore(Trace.Arrays, b, e);
    OnlyMore(Trace.Collections, b, e);
    OnlyMore(Trace.Maps, b, e);
    OnlyMore(Trace.Fields, b, e);
    hide Trace.Only;
  }

  lemma NothingSince()
    ensures SinceOf([], NOTHING)
  {
  }

  /** What is told since the last line are the arrays, collections, maps and fields of the events
      behind it, in their order. */
  lemma {:induction false} SinceExactly(a: seq<J.Event>, b: seq<J.Event>)
    requires EndsWithLine(a) && NoLine(b)
    ensures SinceOf(b, Tell(a + b).since) && Tell(a + b).lines == Tell(a).lines
    decreases |b|
  {
    hide SinceOf;
    hide Modify;
    if b == [] {
      assert a + b == a;
      NothingSince();
      assert Tell(a).since == NOTHING;
    } else {
      var head, e := b[..|b| - 1], b[|b| - 1];
      SinceExactly(a, head);
      assert a + b == (a + head) + [e];
      TellOneMore(a + head, e);
      SinceMore(head, Tell(a + head).since, e);
      assert head + [e] == b;
      hide Tell;
    }
  }

  /** A line tells what was told since the line before, and nothing is told twice. */
  lemma LineTells(a: seq<J.Event>, b: seq<J.Event>, line: J.Event)
    requires EndsWithLine(a) && NoLine(b) && line.LineExecuted?
    ensures Tell(a + b + [line]).lines == Tell(a).lines + [Told(line, Tell(a + b).since)]
    ensures SinceOf(b, Tell(a + b).since)
  {
    SinceExactly(a, b);
    TellOneMore(a + b, line);
    hide SinceOf;
    hide Tell;
  }

  predicate NoDump(t: seq<J.Event>) {
    forall k :: 0 <= k < |t| ==> !t[k].LineExecuted? && !t[k].LeftoversDumped?
  }

  /** Of the variables, those of the events behind the last line or method exit are told. */
  lemma {:induction false} VariablesSince(a: seq<J.Event>, b: seq<J.Event>)
    requires a == [] || a[|a| - 1].LineExecuted? || a[|a| - 1].LeftoversDumped?
    requires NoDump(b)
    ensures Tell(a + b).since.variables == Trace.Only(Trace.Variables, b)
    decreases |b|
  {
    if b == [] {
      assert a + b == a;
      DumpedAway(a);
      Trace.OnlyNone(Trace.Variables);
    } else {
      var head, e := b[..|b| - 1], b[|b| - 1];
      VariablesSince(a, head);
      assert a + b == (a + head) + [e];
      TellOneMore(a + head, e);
      assert head + [e] == b;
      OnlyMore(Trace.Variables, head, e);
      hide Tell;
      hide Trace.Only;
    }
  }

  lemma DumpedAway(a: seq<J.Event>)
    requires a == [] || a[|a| - 1].LineExecuted? || a[|a| - 1].LeftoversDumped?
    ensures Tell(a).since.variables == []
  {
  }

  // ---------------------------------------------------------------- how it is collected

  predicate Hibernate(v: View.Value) {
    v.Ref? && v.kind == View.CollectionKind && |v.cls| >= 13 && v.cls[..13] == "org.hibernate"
  }

  // The field as it is collected: its object by identity, its name, its value, and the identity
  // of what it holds.
  predicate CollectedAs(w: World, e: J.Event, f: Field) {
    match e
    case FieldModified(holder, name, value) =>
      f.parentId == w.identity(holder) && f.name == name && f.value == w.valueOf(value) && f.boxId == w.identity(value)
    case _ => false
  }

  /** Behind the first line every field assignment is collected, in order, but those of
      Hibernate's collections. */
  lemma FieldsCollected(w: World, es: seq<J.Event>, e: J.Event)
    requires e.FieldModified?
    ensures FieldsTold(w, []) == []
    ensures Hibernate(w.valueOf(e.value)) ==> FieldsTold(w, es + [e]) == FieldsTold(w, es)
    ensures !Hibernate(w.valueOf(e.value)) ==>
              |FieldsTold(w, es + [e])| == |FieldsTold(w, es)| + 1 && FieldsTold(w, es) <= FieldsTold(w, es + [e])
              && CollectedAs(w, e, FieldsTold(w, es + [e])[|FieldsTold(w, es)|])
  {
    OneMoreField(w, es, e);
    hide FieldsTold;
  }

  /** Each array, collection and map told is collected, and nothing else; each variable told
      with its last value, if some definition of its slot is in scope at the line, under the
      name of the last of these. */
  lemma CollectedExactly(w: World, log: seq<DefinitionIndex.CompleteVariableDefinition>, n: nat, told: Told, v: View.Value, x: Variable)
    requires told.line.LineExecuted? && told.line.classIndex >= 0 && told.line.methodIndex >= 0
    ensures var c := CollectedOf(w, log, n, told);
            && (v in c.arrays <==> exists a :: a in told.since.arrays && w.valueOf(a) == v)
            && (v in c.collections <==> exists a :: a in told.since.collections && w.valueOf(a) == v)
            && (v in c.maps <==> exists a :: a in told.since.maps && w.valueOf(a) == v)
            && (x in c.variables <==>
                  exists slot, k: nat, j: nat ::
                    LastSets(w, told.since.variables, j, slot, x.value)
                    && ReportedAs(log, k, told.line.classIndex, told.line.methodIndex, Slot(slot, x.value), told.line.labelNumber, x))
            && (n > 0 ==> c.fields == FieldsTold(w, told.since.fields))
            && (n == 0 ==> HeldUpToEquality(c.fields, FieldsTold(w, told.since.fields)))
  {
    ReferencesCollected(w, told.since.arrays, v);
    ReferencesCollected(w, told.since.collections, v);
    ReferencesCollected(w, told.since.maps, v);
    VariablesCollected(w, log, told, x);
    OnceEqualExactly(FieldsTold(w, told.since.fields));
    hide Once;
    hide ValuesOf;
    hide Resolve;
    hide LastValues;
    hide FieldsTold;
    hide OnceEqual;
    hide HeldUpToEquality;
    hide LastSets;
    hide ReportedAs;
  }

  lemma ReferencesCollected(w: World, vs: seq<J.Value>, v: View.Value)
    ensures v in Once(ValuesOf(w, vs)) <==> exists a :: a in vs && w.valueOf(a) == v
  {
    OnceExactly(ValuesOf(w, vs));
    ValuesAre(w, vs, v);
    hide Once;
    hide ValuesOf;
  }

  lemma VariablesCollected(w: World, log: seq<DefinitionIndex.CompleteVariableDefinition>, told: Told, x: Variable)
    requires told.line.LineExecuted? && told.line.classIndex >= 0 && told.line.methodIndex >= 0
    ensures var c, m, l := told.line.classIndex, told.line.methodIndex, told.line.labelNumber;
            x in Resolve(LastValues(w, told.since.variables), log, c, m, l) <==>
            exists slot, k: nat, j: nat ::
              LastSets(w, told.since.variables, j, slot, x.value) && ReportedAs(log, k, c, m, Slot(slot, x.value), l, x)
  {
    var c, m, l := told.line.classIndex, told.line.methodIndex, told.line.labelNumber;
    var slots := LastValues(w, told.since.variables);
    LastValuesExactly(w, told.since.variables);
    VariableReportedExactly(slots, log, c, m, l, x);
    hide LastValues;
    hide Resolve;
    hide LastSets;
    assert forall s, k: nat :: ReportedAs(log, k, c, m, s, l, x) ==> s.value == x.value;
    hide ReportedAs;
    if i, k: nat :| 0 <= i < |slots| && ReportedAs(log, k, c, m, slots[i], l, x) {
      assert slots[i] == Slot(slots[i].index, x.value) && slots[i] in slots;
    }
    if slot, k: nat, j: nat :| LastSets(w, told.since.variables, j, slot, x.value) && ReportedAs(log, k, c, m, Slot(slot, x.value), l, x) {
      assert Slot(slot, x.value) in slots;
    }
  }
}
