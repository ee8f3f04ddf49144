/**
 The variable table of a method body, filled from the index of variable definitions.
 */
module VariableTables {
  import opened Wrappers
  import opened Jvm
  import opened Instrumentation
  import opened Pairing
  import DefinitionIndex

  // The slots are those of the first definitions that start at the label.
  ghost predicate DeclaresFound(index: map<int, DefinitionIndex.MethodRanges>, id: int, l: nat, kinds: map<nat, Kind>) {
    forall slot: nat ::
      var found := DefinitionIndex.FirstFrom(DefinitionIndex.RangesOf(index, id, slot), l);
      (slot in kinds <==> found.Some?) && (found.Some? ==> IsOfKind(found.value.desc, kinds[slot]))
  }

  // Among them is every definition that starts at the label and is in force there.
  ghost predicate DeclaresInForce(log: seq<DefinitionIndex.CompleteVariableDefinition>, c: nat, m: nat, l: nat, kinds: map<nat, Kind>) {
    forall slot: nat, k: nat ::
      DefinitionIndex.LastInScope(log, k, c, m, slot, l) && log[k].fromLabel == l ==>
        slot in kinds && IsOfKind(log[k].desc, kinds[slot])
  }

  /** For every label the slots whose definitions start there, with the kinds of their types:
      exactly those the lookup answers, and among them every definition in force there. */
  method TableFor(lookup: DefinitionIndex.VariableDefinitionLookup, classIndex: nat, methodIndex: nat, labels: nat,
                  inConstructor: bool)
    returns (table: VariableTable)
    requires lookup.Valid()
    ensures table.inConstructor == inConstructor
    ensures forall l: nat :: l < labels ==>
              DeclaresFound(lookup.rangedVariablesByMethod, SzudzikPairing(classIndex, methodIndex), l, Declared(table, l))
              && DeclaresInForce(lookup.log, classIndex, methodIndex, l, Declared(table, l))
  {
    table := VariableTable(map[], inConstructor);
    for n := 0 to labels
      invariant table.inConstructor == inConstructor && lookup.Valid()
      invariant forall l: nat :: l < n ==>
                  DeclaresFound(lookup.rangedVariablesByMethod, SzudzikPairing(classIndex, methodIndex), l, Declared(table, l))
                  && DeclaresInForce(lookup.log, classIndex, methodIndex, l, Declared(table, l))
    {
      hide DeclaresFound;
      hide DeclaresInForce;
      var kinds := KindsAt(lookup, classIndex, methodIndex, n);
      ghost var before := table;
      table := table.(declared := table.declared[n := kinds]);
      assert forall l: nat :: l < n ==> Declared(table, l) == Declared(before, l);
    }
  }

  // The definitions that start at one label, by slot.
  method KindsAt(lookup: DefinitionIndex.VariableDefinitionLookup, classIndex: nat, methodIndex: nat, l: nat)
    returns (kinds: map<nat, Kind>)
    requires lookup.Valid()
    ensures DeclaresFound(lookup.rangedVariablesByMethod, SzudzikPairing(classIndex, methodIndex), l, kinds)
    ensures DeclaresInForce(lookup.log, classIndex, methodIndex, l, kinds)
  {
    hide SzudzikPairing;
    hide DefinitionIndex.Latest;
    hide DefinitionIndex.LatestOf;
    hide DefinitionIndex.LastInScope;
    hide DefinitionIndex.FirstFrom;
    hide DefinitionIndex.RangesOf;
    hide DefinitionIndex.Ordered;
    hide DefinitionIndex.WithinDefinitions;
    hide DefinitionIndex.Find;
    hide FieldKind;
    hide IsOfKind;
    hide DeclaresInForce;
    var defs := lookup.LookupVariableDefinitions(SzudzikPairing(classIndex, methodIndex), l);
    kinds := map slot: nat | slot in defs :: FieldKind(defs[slot].desc);
    forall slot: nat | slot in defs ensures IsOfKind(defs[slot].desc, kinds[slot]) {
      FieldKindExactly(defs[slot].desc, kinds[slot]);
    }
    InForceDeclared(lookup.log, classIndex, methodIndex, l, defs, kinds);
  }

  lemma InForceDeclared(log: seq<DefinitionIndex.CompleteVariableDefinition>, c: nat, m: nat, l: nat,
                        defs: map<int, DefinitionIndex.SimpleVariableDefinition>, kinds: map<nat, Kind>)
    requires forall slot: nat :: slot in defs ==> slot in kinds && IsOfKind(defs[slot].desc, kinds[slot])
    requires forall slot :: (var def := DefinitionIndex.Latest(log, SzudzikPairing(c, m), slot, l);
                             def.Some? && def.value.fromLabel == l ==> slot in defs && Some(defs[slot]) == def)
    ensures DeclaresInForce(log, c, m, l, kinds)
  {
    hide SzudzikPairing;
    hide IsOfKind;
    hide DefinitionIndex.Latest;
    hide DefinitionIndex.LatestOf;
    forall slot: nat, k: nat | DefinitionIndex.LastInScope(log, k, c, m, slot, l) && log[k].fromLabel == l
      ensures slot in kinds && IsOfKind(log[k].desc, kinds[slot])
    {
      InForceFound(log, k, c, m, slot, l);
      DefinitionIndex.MethodsNeverCollide(log, c, m, slot, l);
    }
  }

  // The last definition in scope is what the log answers.
  lemma InForceFound(log: seq<DefinitionIndex.CompleteVariableDefinition>, k: nat, c: nat, m: nat, slot: nat, l: nat)
    requires DefinitionIndex.LastInScope(log, k, c, m, slot, l)
    ensures var d := log[k];
            DefinitionIndex.LatestOf(log, c, m, slot, l)
            == Some(DefinitionIndex.SimpleVariableDefinition(d.name, d.desc, d.fromLabel, d.slot))
  {
    var d := log[k];
    DefinitionIndex.LatestExactly(log, c, m, slot, l, DefinitionIndex.SimpleVariableDefinition(d.name, d.desc, d.fromLabel, d.slot));
  }
}
