/**
 The whole chain of visitors over one method body: map and collection calls, then arrays,
 fields, local variables and executed lines, and last the depth transformer.
 */
module Chain {
  import opened Wrappers
  import opened Jvm
  import opened Instrumentation
  import opened Fusion
  import opened Visitors

  function LastHandler(handlers: seq<Handler>): Option<Label> {
    if handlers == [] then None else Some(handlers[|handlers| - 1].target)
  }

  function FullConfig(handlers: seq<Handler>, mapTypes: set<string>, collectionTypes: set<string>,
                      synthetic: set<string>, table: VariableTable, flow: FlowTable): Config {
    Config(Some(LastHandler(handlers)), Some(mapTypes), Some(collectionTypes), true, Some(synthetic), Some(table), Some(flow))
  }

  lemma LinesAppendInserted(a: seq<Instr>, b: seq<Instr>)
    requires LinesFollowLabels(a) && AllInserted(b)
    ensures LinesFollowLabels(a + b)
  {
    hide ContextAfter;
    var c := a + b;
    assert forall n :: |a| <= n < |c| ==> Inserted(c[n]);
    forall n | 0 <= n < |c| && c[n].LineMark?
      ensures c[n].start in ContextAfter(c[..n]).numbers
    {
      assert c[..n] == a[..n];
    }
  }

  lemma LinesAppendOne(a: seq<Instr>, i: Instr)
    requires LinesFollowLabels(a) && (i.LineMark? ==> i.start in ContextAfter(a).numbers)
    ensures LinesFollowLabels(a + [i])
  {
    hide ContextAfter;
    var c := a + [i];
    forall n | 0 <= n < |c| && c[n].LineMark?
      ensures c[n].start in ContextAfter(c[..n]).numbers
    {
      assert c[..n] == a[..n];
    }
    assert a[..|a|] == a;
  }

  lemma LinesPrefix(code: seq<Instr>, n: nat)
    requires LinesFollowLabels(code) && n <= |code|
    ensures LinesFollowLabels(code[..n])
  {
    hide ContextAfter;
    forall k | 0 <= k < n && code[..n][k].LineMark?
      ensures code[..n][k].start in ContextAfter(code[..n][..k]).numbers
    {
      assert code[..n][..k] == code[..k];
    }
  }

  // Rewriting keeps every line mark behind its label.
  lemma {:induction false} LinesStay(cfg: Config, code: seq<Instr>)
    requires LinesFollowLabels(code)
    ensures LinesFollowLabels(Transform(cfg, code))
    decreases |code|
  {
    hide Before;
    hide After;
    hide Dropped;
    hide LinesFollowLabels;
    hide AllInserted;
    hide Advance;
    hide Expand;
    hide Prologue;
    if code == [] {
      BeforeInserted(cfg, NoMemory(), Plain(0));
      NoLines();
      LinesAppendInserted([], Prologue(cfg));
      assert [] + Prologue(cfg) == Prologue(cfg);
    } else {
      var n := |code| - 1;
      var ctx, i := ContextAfter(code[..n]), code[n];
      var t, x, z := Transform(cfg, code[..n]), Before(cfg, ctx, i), After(cfg, ctx, i);
      LinesPrefix(code, n);
      LinesStay(cfg, code[..n]);
      BeforeInserted(cfg, ctx, i);
      AfterInserted(cfg, ctx, i);
      LinesAppendInserted(t, x);
      ContextStays(cfg, code[..n]);
      AdvanceAppends(t, x);
      ExpandInserted(cfg, ctx, x);
      var core := if Dropped(cfg, i) then [] else [i];
      if !Dropped(cfg, i) {
        LastLine(code);
        LinesAppendOne(t + x, i);
      } else {
        assert t + x + [] == t + x;
      }
      LinesAppendInserted(t + x + core, z);
      assert t + (x + core + z) == t + x + core + z;
    }
  }

  lemma NoLines()
    ensures LinesFollowLabels([])
  {
  }

  lemma LastLine(code: seq<Instr>)
    requires LinesFollowLabels(code) && code != []
    ensures code[|code| - 1].LineMark? ==> code[|code| - 1].start in ContextAfter(code[..|code| - 1]).numbers
  {
  }

  /** Run one after the other, the visitors write what the joined visitor writes. */
  method Instrument(handlers: seq<Handler>, mapTypes: set<string>, collectionTypes: set<string>,
                    synthetic: set<string>, table: VariableTable, flow: FlowTable, code: seq<Instr>)
    returns (out: seq<Instr>)
    requires LinesFollowLabels(code)
    ensures out == Transform(FullConfig(handlers, mapTypes, collectionTypes, synthetic, table, flow), code)
  {
    hide Transform;
    hide LinesFollowLabels;
    hide ContextAfter;
    var c1 := RunMaps(mapTypes, code);
    var c2 := RunCollections(collectionTypes, c1);
    var c3 := RunArrays(c2);
    var c4 := RunFields(synthetic, c3);
    var c5 := RunVariables(table, c4);
    ghost var a := MapsOnly(mapTypes);
    StagesFuse(a, CollectionsOnly(collectionTypes), 1, code);
    a := Join(a, CollectionsOnly(collectionTypes));
    StagesFuse(a, ArraysOnly(), 2, code);
    a := Join(a, ArraysOnly());
    StagesFuse(a, FieldsOnly(synthetic), 3, code);
    a := Join(a, FieldsOnly(synthetic));
    StagesFuse(a, VariablesOnly(table), 4, code);
    a := Join(a, VariablesOnly(table));
    LinesStay(a, code);
    var c6 := RunFlow(flow, c5);
    StagesFuse(a, FlowOnly(flow), 5, code);
    a := Join(a, FlowOnly(flow));
    out := RunDepth(handlers, c6);
    StagesFuse(a, DepthOnly(LastHandler(handlers)), 6, code);
  }
}
