/**
 The index of local variable definitions: for each method and slot, label ranges of which
 later ones overwrite earlier ones.
 */
module DefinitionIndex {
  import opened Wrappers
  import opened Pairing

  datatype CompleteVariableDefinition = CompleteVariableDefinition(
    classIndex: nat, methodIndex: nat, desc: string, fromLabel: int, toLabel: int, name: string, slot: int)
  {
    function UniqueMethodIdentifier(): int {
      SzudzikPairing(classIndex, methodIndex)
    }

    function Simple(): SimpleVariableDefinition {
      SimpleVariableDefinition(name, desc, fromLabel, slot)
    }

    predicate Covers(id: int, atSlot: int, label_: int) {
      UniqueMethodIdentifier() == id && slot == atSlot && fromLabel <= label_ <= toLabel
    }
  }

  datatype SimpleVariableDefinition = SimpleVariableDefinition(name: string, desc: string, fromLabel: int, slot: int)

  // ---------------------------------------------------------------- ranges

  // Bounds are cuts between numbers: 2n lies just below n and 2n + 1 just above it.
  datatype Entry = Entry(lower: int, upper: int, def: SimpleVariableDefinition)

  type RangeMap = seq<Entry>

  // Nonempty ranges in ascending order that do not overlap.
  predicate Ordered(rm: RangeMap) {
    && (forall i :: 0 <= i < |rm| ==> rm[i].lower < rm[i].upper)
    && (forall i, j :: 0 <= i < j < |rm| ==> rm[i].upper <= rm[j].lower)
  }

  // What is left of the ranges below a cut.
  function Below(rm: RangeMap, cut: int): RangeMap {
    if rm == [] || rm[0].lower >= cut then []
    else [rm[0].(upper := if rm[0].upper < cut then rm[0].upper else cut)] + Below(rm[1..], cut)
  }

  // What is left of the ranges above a cut.
  function Above(rm: RangeMap, cut: int): RangeMap {
    if rm == [] then []
    else if rm[0].upper <= cut then Above(rm[1..], cut)
    else [rm[0].(lower := if rm[0].lower > cut then rm[0].lower else cut)] + rm[1..]
  }

  function PutClosed(rm: RangeMap, lo: int, hi: int, def: SimpleVariableDefinition): RangeMap {
    Below(rm, 2 * lo) + [Entry(2 * lo, 2 * hi + 1, def)] + Above(rm, 2 * hi + 1)
  }

  function Find(rm: RangeMap, n: int): Option<SimpleVariableDefinition> {
    if rm == [] then None
    else if rm[0].lower <= 2 * n < rm[0].upper then Some(rm[0].def)
    else Find(rm[1..], n)
  }

  lemma {:induction false} FindAppends(a: RangeMap, b: RangeMap, n: int)
    ensures Find(a + b, n) == if Find(a, n).Some? then Find(a, n) else Find(b, n)
    decreases |a|
  {
    if a == [] {
      assert a + b == b;
    } else {
      assert (a + b)[1..] == a[1..] + b;
      FindAppends(a[1..], b, n);
    }
  }

  lemma {:induction false} BelowOrdered(rm: RangeMap, cut: int)
    requires Ordered(rm)
    ensures Ordered(Below(rm, cut))
    ensures forall i :: 0 <= i < |Below(rm, cut)| ==> rm != [] && rm[0].lower <= Below(rm, cut)[i].lower && Below(rm, cut)[i].upper <= cut
    decreases |rm|
  {
    if rm != [] && rm[0].lower < cut {
      BelowOrdered(rm[1..], cut);
    }
  }

  lemma {:induction false} BelowFinds(rm: RangeMap, cut: int, n: int)
    requires Ordered(rm)
    ensures Find(Below(rm, cut), n) == if 2 * n < cut then Find(rm, n) else None
    decreases |rm|
  {
    if rm != [] && rm[0].lower < cut {
      BelowFinds(rm[1..], cut, n);
      NothingBelow(rm[1..], rm[0].upper, n);
    } else {
      NothingBelow(rm, cut, n);
    }
  }

  lemma {:induction false} NothingBelow(rm: RangeMap, cut: int, n: int)
    requires Ordered(rm) && (rm != [] ==> cut <= rm[0].lower)
    ensures 2 * n < cut ==> Find(rm, n) == None
    decreases |rm|
  {
    if rm != [] {
      NothingBelow(rm[1..], cut, n);
    }
  }

  lemma {:induction false} AboveExactly(rm: RangeMap, cut: int, n: int)
    requires Ordered(rm)
    ensures Ordered(Above(rm, cut)) && Find(Above(rm, cut), n) == if cut <= 2 * n then Find(rm, n) else None
    ensures forall e :: e in Above(rm, cut) ==> cut <= e.lower
    decreases |rm|
  {
    if rm != [] {
      if rm[0].upper <= cut {
        AboveExactly(rm[1..], cut, n);
      } else {
        NothingBelow(rm[1..], rm[0].upper, n);
        assert Above(rm, cut)[1..] == rm[1..];
      }
    }
  }

  // Ranges stay disjoint, and the new range overwrites what it overlaps.
  lemma PutOverwrites(rm: RangeMap, lo: int, hi: int, def: SimpleVariableDefinition, n: int)
    requires Ordered(rm) && lo <= hi
    ensures Ordered(PutClosed(rm, lo, hi, def))
    ensures Find(PutClosed(rm, lo, hi, def), n) == if lo <= n <= hi then Some(def) else Find(rm, n)
  {
    BelowOrdered(rm, 2 * lo);
    BelowFinds(rm, 2 * lo, n);
    AboveExactly(rm, 2 * hi + 1, n);
    var a, e, b := Below(rm, 2 * lo), Entry(2 * lo, 2 * hi + 1, def), Above(rm, 2 * hi + 1);
    assert forall i :: 0 <= i < |b| ==> b[i] in b;
    Joined(a, e, b, n);
  }

  lemma Joined(a: RangeMap, e: Entry, b: RangeMap, n: int)
    requires Ordered(a) && Ordered(b) && e.lower < e.upper
    requires forall i :: 0 <= i < |a| ==> a[i].upper <= e.lower
    requires forall i :: 0 <= i < |b| ==> e.upper <= b[i].lower
    ensures Ordered(a + [e] + b)
    ensures Find(a + [e] + b, n) ==
            if Find(a, n).Some? then Find(a, n) else if e.lower <= 2 * n < e.upper then Some(e.def) else Find(b, n)
  {
    hide Find;
    JoinedFinds(a, e, b, n);
  }

  lemma JoinedFinds(a: RangeMap, e: Entry, b: RangeMap, n: int)
    ensures Find(a + [e] + b, n) ==
            if Find(a, n).Some? then Find(a, n) else if e.lower <= 2 * n < e.upper then Some(e.def) else Find(b, n)
  {
    FindAppends(a + [e], b, n);
    FindAppends(a, [e], n);
    assert [e][1..] == [];
  }

  // No range reaches below the label at which its definition starts.
  predicate WithinDefinitions(rm: RangeMap) {
    forall i :: 0 <= i < |rm| ==> 2 * rm[i].def.fromLabel <= rm[i].lower
  }

  lemma {:induction false} PiecesWithin(rm: RangeMap, cut: int)
    requires WithinDefinitions(rm)
    ensures WithinDefinitions(Below(rm, cut)) && WithinDefinitions(Above(rm, cut))
    decreases |rm|
  {
    if rm != [] {
      PiecesWithin(rm[1..], cut);
    }
  }

  lemma PutWithin(rm: RangeMap, lo: int, hi: int, def: SimpleVariableDefinition)
    requires WithinDefinitions(rm) && def.fromLabel == lo
    ensures WithinDefinitions(PutClosed(rm, lo, hi, def))
  {
    PiecesWithin(rm, 2 * lo);
    PiecesWithin(rm, 2 * hi + 1);
  }

  // A definition in force at the label it starts at is the first of those starting there.
  lemma {:induction false} InForceIsFirst(rm: RangeMap, n: int)
    requires Ordered(rm) && WithinDefinitions(rm) && Find(rm, n).Some? && Find(rm, n).value.fromLabel == n
    ensures FirstFrom(rm, n) == Find(rm, n)
    decreases |rm|
  {
    if !(rm[0].lower <= 2 * n < rm[0].upper) {
      if rm[0].lower > 2 * n {
        NothingBelow(rm, rm[0].lower, n);
      }
      InForceIsFirst(rm[1..], n);
    }
  }

  // ---------------------------------------------------------------- the log the index stands for

  // The most recently tracked definition of the slot that covers the label.
  function Latest(log: seq<CompleteVariableDefinition>, id: int, slot: int, label_: int): Option<SimpleVariableDefinition> {
    if log == [] then None
    else if log[|log| - 1].Covers(id, slot, label_) then Some(log[|log| - 1].Simple())
    else Latest(log[..|log| - 1], id, slot, label_)
  }

  // The same, by class and method index.
  function LatestOf(log: seq<CompleteVariableDefinition>, c: nat, m: nat, slot: int, label_: int): Option<SimpleVariableDefinition> {
    if log == [] then None
    else
      var d := log[|log| - 1];
      if d.classIndex == c && d.methodIndex == m && d.slot == slot && d.fromLabel <= label_ <= d.toLabel
      then Some(d.Simple())
      else LatestOf(log[..|log| - 1], c, m, slot, label_)
  }

  /** Definitions of different methods never mix. */
  lemma {:induction false} MethodsNeverCollide(log: seq<CompleteVariableDefinition>, c: nat, m: nat, slot: int, label_: int)
    ensures Latest(log, SzudzikPairing(c, m), slot, label_) == LatestOf(log, c, m, slot, label_)
    decreases |log|
  {
    if log != [] {
      var d := log[|log| - 1];
      PairingInjective(d.classIndex, d.methodIndex, c, m);
      MethodsNeverCollide(log[..|log| - 1], c, m, slot, label_);
    }
  }

  // The definition is of this slot of this method, and covers the label.
  predicate InScope(d: CompleteVariableDefinition, c: nat, m: nat, slot: int, label_: int) {
    d.classIndex == c && d.methodIndex == m && d.slot == slot && d.fromLabel <= label_ <= d.toLabel
  }

  // Definition k of the log is in scope, and none tracked after it is.
  predicate LastInScope(log: seq<CompleteVariableDefinition>, k: nat, c: nat, m: nat, slot: int, label_: int) {
    && k < |log| && InScope(log[k], c, m, slot, label_)
    && forall j :: k < j < |log| ==> !InScope(log[j], c, m, slot, label_)
  }

  /** There is an answer exactly when some tracked definition is in scope, and then it has the
      name, the type, the first label and the slot of the last of them. */
  lemma {:induction false} LatestExactly(log: seq<CompleteVariableDefinition>, c: nat, m: nat, slot: int, label_: int,
                                         r: SimpleVariableDefinition)
    ensures LatestOf(log, c, m, slot, label_) == Some(r) <==>
            exists k: nat :: LastInScope(log, k, c, m, slot, label_)
                             && r.name == log[k].name && r.desc == log[k].desc && r.fromLabel == log[k].fromLabel && r.slot == log[k].slot
    ensures LatestOf(log, c, m, slot, label_).None? <==> forall k :: 0 <= k < |log| ==> !InScope(log[k], c, m, slot, label_)
    decreases |log|
  {
    if log != [] {
      var last := |log| - 1;
      var before := log[..last];
      LatestExactly(before, c, m, slot, label_, r);
      assert forall k :: 0 <= k < last ==> log[k] == before[k];
      if InScope(log[last], c, m, slot, label_) {
        assert LastInScope(log, last, c, m, slot, label_);
      } else {
        forall k: nat ensures LastInScope(log, k, c, m, slot, label_) <==> LastInScope(before, k, c, m, slot, label_) {
          if LastInScope(before, k, c, m, slot, label_) {
            assert forall j :: k < j < |log| ==> j == last || log[j] == before[j];
          }
          if LastInScope(log, k, c, m, slot, label_) {
            assert forall j :: k < j < last ==> log[j] == before[j];
          }
        }
      }
    }
  }

  lemma FoundIsLast(log: seq<CompleteVariableDefinition>, c: nat, m: nat, slot: int, label_: int)
    ensures var found := Latest(log, SzudzikPairing(c, m), slot, label_);
            if found.None? then forall k :: 0 <= k < |log| ==> !InScope(log[k], c, m, slot, label_)
            else exists k: nat :: LastInScope(log, k, c, m, slot, label_)
                                  && found.value.name == log[k].name && found.value.desc == log[k].desc
                                  && found.value.fromLabel == log[k].fromLabel && found.value.slot == log[k].slot
  {
    hide SzudzikPairing;
    hide InScope;
    hide LastInScope;
    MethodsNeverCollide(log, c, m, slot, label_);
    var found := LatestOf(log, c, m, slot, label_);
    LatestExactly(log, c, m, slot, label_, if found.Some? then found.value else SimpleVariableDefinition("", "", 0, 0));
  }

  // ---------------------------------------------------------------- the index

  type MethodRanges = map<int, RangeMap>

  function RangesOf(index: map<int, MethodRanges>, id: int, slot: int): RangeMap {
    if id in index && slot in index[id] then index[id][slot] else []
  }

  class VariableDefinitionLookup {
    var rangedVariablesByMethod: map<int, MethodRanges>
    ghost var log: seq<CompleteVariableDefinition>

    // For every method, slot and label the index answers what the log answers.
    ghost predicate Valid()
      reads this
    {
      && (forall id, slot :: Ordered(RangesOf(rangedVariablesByMethod, id, slot))
                             && WithinDefinitions(RangesOf(rangedVariablesByMethod, id, slot)))
      && (forall id, slot, n :: Find(RangesOf(rangedVariablesByMethod, id, slot), n) == Latest(log, id, slot, n))
    }

    constructor ()
      ensures Valid() && log == []
    {
      rangedVariablesByMethod := map[];
      log := [];
    }

    method TrackVariableDefinition(d: CompleteVariableDefinition)
      requires Valid() && d.fromLabel <= d.toLabel
      modifies this
      ensures Valid() && log == old(log) + [d]
    {
      hide Ordered;
      hide WithinDefinitions;
      hide PutClosed;
      hide SzudzikPairing;
      hide Find;
      var id := d.UniqueMethodIdentifier();
      var variablesInMethod := if id in rangedVariablesByMethod then rangedVariablesByMethod[id] else map[];
      var rangedVariablesAtIndex := if d.slot in variablesInMethod then variablesInMethod[d.slot] else [];
      assert rangedVariablesAtIndex == RangesOf(rangedVariablesByMethod, id, d.slot);
      var updated := PutClosed(rangedVariablesAtIndex, d.fromLabel, d.toLabel, d.Simple());
      rangedVariablesByMethod := rangedVariablesByMethod[id := variablesInMethod[d.slot := updated]];
      log := log + [d];
      assert log[..|log| - 1] == old(log);
      PutOverwrites(rangedVariablesAtIndex, d.fromLabel, d.toLabel, d.Simple(), 0);
      forall i, s
        ensures Ordered(RangesOf(rangedVariablesByMethod, i, s)) && WithinDefinitions(RangesOf(rangedVariablesByMethod, i, s))
      {
        PutWithin(rangedVariablesAtIndex, d.fromLabel, d.toLabel, d.Simple());
        if !(i == id && s == d.slot) {
          assert RangesOf(rangedVariablesByMethod, i, s) == RangesOf(old(rangedVariablesByMethod), i, s);
        }
      }
      forall i, s, n
        ensures Find(RangesOf(rangedVariablesByMethod, i, s), n) == Latest(log, i, s, n)
      {
        if i == id && s == d.slot {
          PutOverwrites(rangedVariablesAtIndex, d.fromLabel, d.toLabel, d.Simple(), n);
        } else {
          assert RangesOf(rangedVariablesByMethod, i, s) == RangesOf(old(rangedVariablesByMethod), i, s);
        }
      }
    }

    /** The answer is the most recently tracked definition that covers the label, or none. */
    method LookupVariableDefinition(id: int, slot: int, atLabel: int) returns (r: Option<SimpleVariableDefinition>)
      requires Valid()
      ensures r == Latest(log, id, slot, atLabel)
      ensures forall c: nat, m: nat :: SzudzikPairing(c, m) == id ==>
                if r.None? then forall k :: 0 <= k < |log| ==> !InScope(log[k], c, m, slot, atLabel)
                else exists k: nat :: LastInScope(log, k, c, m, slot, atLabel)
                                      && r.value.name == log[k].name && r.value.desc == log[k].desc
                                      && r.value.fromLabel == log[k].fromLabel && r.value.slot == log[k].slot
    {
      forall c: nat, m: nat | SzudzikPairing(c, m) == id
        ensures var found := Latest(log, id, slot, atLabel);
                if found.None? then forall k :: 0 <= k < |log| ==> !InScope(log[k], c, m, slot, atLabel)
                else exists k: nat :: LastInScope(log, k, c, m, slot, atLabel)
                                      && found.value.name == log[k].name && found.value.desc == log[k].desc
                                      && found.value.fromLabel == log[k].fromLabel && found.value.slot == log[k].slot
      {
        FoundIsLast(log, c, m, slot, atLabel);
      }
      hide SzudzikPairing;
      if id !in rangedVariablesByMethod {
        return None;
      }
      if slot !in rangedVariablesByMethod[id] {
        return None;
      }
      r := Find(rangedVariablesByMethod[id][slot], atLabel);
    }

    // For each slot of the method the lowest remaining range of a definition that starts at
    // the label; among them every definition that starts and is in force there.
    method LookupVariableDefinitions(id: int, fromLabel: int) returns (r: map<int, SimpleVariableDefinition>)
      requires Valid()
      ensures forall slot :: slot in r ==> r[slot].fromLabel == fromLabel
      ensures forall slot :: FirstFrom(RangesOf(rangedVariablesByMethod, id, slot), fromLabel)
                             == if slot in r then Some(r[slot]) else None
      ensures forall slot :: Latest(log, id, slot, fromLabel).Some? && Latest(log, id, slot, fromLabel).value.fromLabel == fromLabel
                ==> slot in r && Some(r[slot]) == Latest(log, id, slot, fromLabel)
    {
      forall slot | Latest(log, id, slot, fromLabel).Some? && Latest(log, id, slot, fromLabel).value.fromLabel == fromLabel
        ensures FirstFrom(RangesOf(rangedVariablesByMethod, id, slot), fromLabel) == Latest(log, id, slot, fromLabel)
      {
        InForceIsFirst(RangesOf(rangedVariablesByMethod, id, slot), fromLabel);
      }
      r := map[];
      if id !in rangedVariablesByMethod {
        return;
      }
      var todo := rangedVariablesByMethod[id].Keys;
      while todo != {}
        invariant todo <= rangedVariablesByMethod[id].Keys
        invariant forall slot :: slot in r ==> slot in rangedVariablesByMethod[id] && slot !in todo && r[slot].fromLabel == fromLabel
        invariant forall slot :: slot in rangedVariablesByMethod[id] && slot !in todo ==>
                    FirstFrom(rangedVariablesByMethod[id][slot], fromLabel) == if slot in r then Some(r[slot]) else None
        decreases |todo|
      {
        var slot := AnyOf(todo);
        var found := FirstFrom(rangedVariablesByMethod[id][slot], fromLabel);
        FirstStartsThere(rangedVariablesByMethod[id][slot], fromLabel);
        if found.Some? {
          r := r[slot := found.value];
        }
        todo := todo - {slot};
      }
    }
  }

  method AnyOf<T(==)>(s: set<T>) returns (k: T)
    requires s != {}
    ensures k in s
  {
    k :| k in s;
  }

  function FirstFrom(rm: RangeMap, fromLabel: int): Option<SimpleVariableDefinition> {
    if rm == [] then None
    else if rm[0].def.fromLabel == fromLabel then Some(rm[0].def)
    else FirstFrom(rm[1..], fromLabel)
  }

  // Of the ranges whose definition starts at the label, the lowest gives the answer.
  lemma {:induction false} FirstStartsThere(rm: RangeMap, fromLabel: int)
    ensures var first := FirstFrom(rm, fromLabel);
            if first.None? then forall i :: 0 <= i < |rm| ==> rm[i].def.fromLabel != fromLabel
            else exists i :: 0 <= i < |rm| && rm[i].def == first.value && rm[i].def.fromLabel == fromLabel
                             && forall j :: 0 <= j < i ==> rm[j].def.fromLabel != fromLabel
    decreases |rm|
  {
    if rm != [] {
      if rm[0].def.fromLabel == fromLabel {
        assert rm[0].def == FirstFrom(rm, fromLabel).value;
      } else {
        var rest := rm[1..];
        FirstStartsThere(rest, fromLabel);
        if FirstFrom(rm, fromLabel).Some? {
          var i :| 0 <= i < |rest| && rest[i].def == FirstFrom(rest, fromLabel).value && rest[i].def.fromLabel == fromLabel
                   && forall j :: 0 <= j < i ==> rest[j].def.fromLabel != fromLabel;
          assert rm[i + 1] == rest[i];
          assert forall j :: 1 <= j < i + 1 ==> rm[j] == rest[j - 1];
        } else {
          assert forall k :: 1 <= k < |rm| ==> rm[k] == rest[k - 1];
        }
      }
    }
  }
}
