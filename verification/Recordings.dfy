/** What holds of every run of the recorder. */
module Recordings {
  import opened Wrappers
  import opened Documents
  import opened ShallowView
  import opened DefinitionIndex
  import opened Recorder

  predicate Fresh(s: State) {
    s.guard == 0 && !s.disabled && s.step == 0 && s.flow == [] && s.snapshots == [] && s.Emptied().(byReference := false) == s
  }

  lemma StartIsFresh(definitions: seq<CompleteVariableDefinition>)
    ensures Fresh(Start(definitions))
  {
  }

  // ---------------------------------------------------------------- whole records only

  // The finished lines of a stream and what follows the last line end.
  function LinesOf(ws: seq<Write>): (seq<seq<Token>>, seq<Token>) {
    if ws == [] then ([], [])
    else
      var (lines, rest) := LinesOf(ws[..|ws| - 1]);
      match ws[|ws| - 1]
      case Item(t) => (lines, rest + [t])
      case LineEnd => (lines + [rest], [])
  }

  // What a reader should find: the records written whole, in order.
  function Records(attempts: seq<Attempt>): seq<seq<Token>> {
    if attempts == [] then []
    else Records(attempts[..|attempts| - 1]) + (if attempts[|attempts| - 1].Done? then [attempts[|attempts| - 1].tokens] else [])
  }

  // No record is written after a part of another one.
  predicate Clean(attempts: seq<Attempt>) {
    forall i, j :: 0 <= i < j < |attempts| && attempts[i].Torn? && attempts[i].tokens != [] ==> !attempts[j].Done?
  }

  lemma {:induction false} LinesAfterItems(ws: seq<Write>, ts: seq<Token>)
    ensures LinesOf(ws + Items(ts)) == (LinesOf(ws).0, LinesOf(ws).1 + ts)
    decreases |ts|
  {
    if ts == [] {
      assert ws + Items(ts) == ws;
      assert LinesOf(ws).1 + ts == LinesOf(ws).1;
    } else {
      var all := ws + Items(ts);
      assert all[..|all| - 1] == ws + Items(ts[..|ts| - 1]);
      LinesAfterItems(ws, ts[..|ts| - 1]);
      var t, rest := ts[|ts| - 1], LinesOf(ws).1;
      assert all[|all| - 1] == Item(t);
      assert rest + ts[..|ts| - 1] + [t] == rest + ts;
    }
  }

  lemma LinesAfterEnd(ws: seq<Write>)
    ensures LinesOf(ws + [LineEnd]) == (LinesOf(ws).0 + [LinesOf(ws).1], [])
  {
    assert (ws + [LineEnd])[..|ws|] == ws;
  }

  lemma LinesAfterAttempt(ws: seq<Write>, a: Attempt)
    ensures LinesOf(ws + Writes(a)) ==
            if a.Done? then (LinesOf(ws).0 + [LinesOf(ws).1 + a.tokens], []) else (LinesOf(ws).0, LinesOf(ws).1 + a.tokens)
  {
    LinesAfterItems(ws, a.tokens);
    if a.Done? {
      LinesAfterEnd(ws + Items(a.tokens));
      assert ws + Writes(a) == ws + Items(a.tokens) + [LineEnd];
      hide *;
    }
  }

  predicate NothingTorn(attempts: seq<Attempt>) {
    forall i :: 0 <= i < |attempts| && attempts[i].Torn? ==> attempts[i].tokens == []
  }

  lemma CleanStep(attempts: seq<Attempt>)
    requires attempts != []
    ensures var head, last := attempts[..|attempts| - 1], attempts[|attempts| - 1];
            && (Clean(attempts) <==> Clean(head) && (last.Done? ==> NothingTorn(head)))
            && (NothingTorn(attempts) <==> NothingTorn(head) && (last.Torn? ==> last.tokens == []))
  {
    var head := attempts[..|attempts| - 1];
    assert forall i :: 0 <= i < |head| ==> attempts[i] == head[i];
  }

  lemma LinesOfAttempts(attempts: seq<Attempt>)
    requires attempts != []
    ensures var head, last := LinesOf(AttemptWrites(attempts[..|attempts| - 1])), attempts[|attempts| - 1];
            LinesOf(AttemptWrites(attempts)) ==
            if last.Done? then (head.0 + [head.1 + last.tokens], []) else (head.0, head.1 + last.tokens)
  {
    hide LinesOf;
    hide Writes;
    LinesAfterAttempt(AttemptWrites(attempts[..|attempts| - 1]), attempts[|attempts| - 1]);
  }

  // The unfinished line is empty exactly when nothing was torn.
  lemma {:induction false} RestExactly(attempts: seq<Attempt>)
    requires Clean(attempts)
    ensures LinesOf(AttemptWrites(attempts)).1 == [] <==> NothingTorn(attempts)
    decreases |attempts|
  {
    if attempts != [] {
      hide LinesOf;
      hide AttemptWrites;
      hide Clean;
      hide NothingTorn;
      CleanStep(attempts);
      LinesOfAttempts(attempts);
      RestExactly(attempts[..|attempts| - 1]);
    }
  }

  /** The finished lines are exactly the whole records if and only if no record was written
      after a torn one. */
  lemma {:induction false} CleanExactly(attempts: seq<Attempt>)
    ensures LinesOf(AttemptWrites(attempts)).0 == Records(attempts) <==> Clean(attempts)
    ensures |LinesOf(AttemptWrites(attempts)).0| == |Records(attempts)|
    decreases |attempts|
  {
    if attempts != [] {
      hide LinesOf;
      hide AttemptWrites;
      hide Clean;
      hide NothingTorn;
      var head, last := attempts[..|attempts| - 1], attempts[|attempts| - 1];
      CleanExactly(head);
      CleanStep(attempts);
      LinesOfAttempts(attempts);
      if Clean(head) {
        RestExactly(head);
      }
      if last.Done? {
        var rest := LinesOf(AttemptWrites(head)).1;
        Unsnoc(LinesOf(AttemptWrites(head)).0, rest + last.tokens, Records(head), last.tokens);
        assert rest + last.tokens == last.tokens ==> |rest| == 0;
        assert [] + last.tokens == last.tokens;
      }
    }
  }

  lemma Unsnoc(a: seq<seq<Token>>, x: seq<Token>, b: seq<seq<Token>>, y: seq<Token>)
    requires |a| == |b|
    ensures a + [x] == b + [y] <==> a == b && x == y
  {
    if a + [x] == b + [y] {
      assert (a + [x])[..|a|] == a && (b + [y])[..|b|] == b;
      assert (a + [x])[|a|] == x && (b + [y])[|b|] == y;
    }
  }

  // ---------------------------------------------------------------- runs without errors

  // Once capture has been given up no call does anything.
  lemma GivenUpStays(calls: seq<Call>, s: State)
    requires calls != [] && Run(calls[..|calls| - 1], s).disabled
    ensures Run(calls, s) == Run(calls[..|calls| - 1], s)
  {
    var call := calls[|calls| - 1];
    assert [call][..0] == [];
    InnerCallsAreSilent([call], Run(calls[..|calls| - 1], s));
  }

  /** Unless an error was thrown, only the last captured line can be incomplete, and it is
      exactly when capture has been given up. */
  lemma {:induction false} OnlyTheLastIsTorn(calls: seq<Call>, s: State)
    requires s.guard == 0 && !s.disabled && NoErrors(calls)
    ensures var cs := Captures(calls, s);
            && Run(calls, s).guard == 0
            && (forall n :: 0 <= n < |cs| - 1 ==> CapturedWhole(cs[n]))
            && (Run(calls, s).disabled <==> cs != [] && !CapturedWhole(cs[|cs| - 1]))
    decreases |calls|
  {
    hide *;
    if calls != [] {
      var head, call := calls[..|calls| - 1], calls[|calls| - 1];
      ErrorsOfPrefix(calls);
      OnlyTheLastIsTorn(head, s);
      CapturesStep(calls, s);
      if Run(head, s).disabled {
        GivenUpStays(calls, s);
      } else {
        GivesUpExactly(Run(head, s), call);
      }
    } else {
      NothingCaptured(s);
    }
  }

  lemma ErrorsOfPrefix(calls: seq<Call>)
    requires NoErrors(calls) && calls != []
    ensures NoErrors(calls[..|calls| - 1]) && !ThrowsError(calls[|calls| - 1])
  {
  }

  lemma NothingCaptured(s: State)
    ensures Run([], s) == s && Captures([], s) == [] && CapturedAt([], s) == []
  {
  }

  // Capture is given up exactly by a line that is not captured whole.
  lemma GivesUpExactly(s: State, call: Call)
    requires s.guard == 0 && !s.disabled && !ThrowsError(call)
    ensures Next(s, call).guard == 0
    ensures Next(s, call).disabled <==> call.Line? && !CapturedWhole(CaptureOf(s, call))
  {
    hide CaptureOf;
    if call.Line? {
      LineCaptured(s, call);
    } else {
      TrackKeepsStreams(s, call);
    }
  }

  lemma CapturesStep(calls: seq<Call>, s: State)
    requires calls != []
    ensures var head, call := calls[..|calls| - 1], calls[|calls| - 1];
            && Run(calls, s) == Next(Run(head, s), call)
            && Captures(calls, s) == (if call.Line? && !Run(head, s).disabled
                                      then Captures(head, s) + [CaptureOf(Run(head, s), call)] else Captures(head, s))
  {
    hide CaptureOf;
    hide Next;
    var head := calls[..|calls| - 1];
    assert Captures(head, s) + [] == Captures(head, s);
  }

  lemma {:induction false} WholeSnapshotsDone(cs: seq<Capture>)
    requires forall n :: 0 <= n < |cs| ==> CapturedWhole(cs[n])
    ensures forall i :: 0 <= i < |SnapshotAttempts(cs)| ==> SnapshotAttempts(cs)[i].Done?
    decreases |cs|
  {
    if cs != [] {
      WholeSnapshotsDone(cs[..|cs| - 1]);
    }
  }

  lemma LastTornIsClean(cs: seq<Capture>)
    requires forall n :: 0 <= n < |cs| - 1 ==> CapturedWhole(cs[n])
    ensures Clean(FlowAttempts(cs)) && Clean(SnapshotAttempts(cs))
  {
    if cs != [] {
      WholeSnapshotsDone(cs[..|cs| - 1]);
    }
  }

  /** Atomicity: unless an error was thrown, both streams hold, in order, the whole records of
      the captured lines and nothing else but a last unfinished part. */
  lemma RecordsAreAtomic(calls: seq<Call>, s: State)
    requires Fresh(s) && NoErrors(calls)
    ensures LinesOf(Run(calls, s).flow).0 == Records(FlowAttempts(Captures(calls, s)))
    ensures LinesOf(Run(calls, s).snapshots).0 == Records(SnapshotAttempts(Captures(calls, s)))
  {
    OnlyTheLastIsTorn(calls, s);
    StreamsAreCaptures(calls, s);
    LastTornIsClean(Captures(calls, s));
    CleanExactly(FlowAttempts(Captures(calls, s)));
    CleanExactly(SnapshotAttempts(Captures(calls, s)));
  }

  /** In every run, with errors too, this is exactly when it holds. */
  lemma AtomicExactly(calls: seq<Call>, s: State)
    requires Fresh(s)
    ensures LinesOf(Run(calls, s).flow).0 == Records(FlowAttempts(Captures(calls, s)))
            <==> Clean(FlowAttempts(Captures(calls, s)))
    ensures LinesOf(Run(calls, s).snapshots).0 == Records(SnapshotAttempts(Captures(calls, s)))
            <==> Clean(SnapshotAttempts(Captures(calls, s)))
  {
    StreamsAreCaptures(calls, s);
    CleanExactly(FlowAttempts(Captures(calls, s)));
    CleanExactly(SnapshotAttempts(Captures(calls, s)));
  }

  // ---------------------------------------------------------------- torn by which call, continued by which

  function AttemptOf(flow: bool, cap: Capture): Option<Attempt> {
    if flow then Some(cap.flow) else cap.snapshot
  }

  function Attempts(flow: bool, cs: seq<Capture>): seq<Attempt> {
    if flow then FlowAttempts(cs) else SnapshotAttempts(cs)
  }

  // The call captures a line, and something is thrown when a part of its record is written.
  predicate Tears(flow: bool, s: State, call: Call) {
    call.Line? && !s.disabled &&
    if flow then call.mishap.FlowThrows? && call.mishap.written != []
    else call.mishap.SnapshotThrows? && call.mishap.written != [] && Collect(s, call.c, call.m, call.label_).Count() != 0
  }

  // The call captures a line and writes its whole record.
  predicate Completes(flow: bool, s: State, call: Call) {
    call.Line? && !s.disabled && !call.mishap.FlowThrows? &&
    (flow || (var c := Collect(s, call.c, call.m, call.label_);
              c.Count() != 0 && call.mishap.Fine? && Packs(c, call.heap)))
  }

  ghost predicate TornBy(flow: bool, calls: seq<Call>, s: State, j: nat) {
    j < |calls| && Tears(flow, Run(calls[..j], s), calls[j])
  }

  ghost predicate CompletedBy(flow: bool, calls: seq<Call>, s: State, k: nat) {
    k < |calls| && Completes(flow, Run(calls[..k], s), calls[k])
  }

  ghost predicate Continued(flow: bool, calls: seq<Call>, s: State) {
    exists j: nat, k: nat :: j < k && TornBy(flow, calls, s, j) && CompletedBy(flow, calls, s, k)
  }

  // The last call's own part.
  function PartOf(flow: bool, s: State, call: Call): seq<Attempt> {
    if call.Line? && !s.disabled && AttemptOf(flow, CaptureOf(s, call)).Some? then [AttemptOf(flow, CaptureOf(s, call)).value] else []
  }

  lemma PartAppends(flow: bool, cs: seq<Capture>, after: seq<Capture>, s: State, call: Call)
    requires after == if call.Line? && !s.disabled then cs + [CaptureOf(s, call)] else cs
    ensures Attempts(flow, after) == Attempts(flow, cs) + PartOf(flow, s, call)
  {
    hide CaptureOf;
    assert Attempts(flow, cs) + [] == Attempts(flow, cs);
    if call.Line? && !s.disabled {
      AttemptsAppend(flow, cs, CaptureOf(s, call));
      hide Attempts;
    }
  }

  lemma PartKind(flow: bool, s: State, call: Call)
    ensures var part := PartOf(flow, s, call);
            && |part| <= 1
            && (Completes(flow, s, call) <==> part != [] && part[0].Done?)
            && (Tears(flow, s, call) <==> part != [] && part[0].Torn? && part[0].tokens != [])
  {
    hide Packs;
    hide Resolve;
    hide Flatten;
    hide FlowDoc;
    hide SnapshotDoc;
  }

  lemma AttemptsAppend(flow: bool, cs: seq<Capture>, cap: Capture)
    ensures Attempts(flow, cs + [cap]) == Attempts(flow, cs) + (if AttemptOf(flow, cap).Some? then [AttemptOf(flow, cap).value] else [])
  {
    var all := cs + [cap];
    assert all[..|all| - 1] == cs;
  }

  lemma PrefixesStay(flow: bool, calls: seq<Call>, s: State, j: nat)
    requires j + 1 < |calls|
    ensures var head := calls[..|calls| - 1];
            && (TornBy(flow, calls, s, j) <==> TornBy(flow, head, s, j))
            && (CompletedBy(flow, calls, s, j) <==> CompletedBy(flow, head, s, j))
  {
    assert calls[..j] == calls[..|calls| - 1][..j];
  }

  lemma {:induction false} TornExactly(flow: bool, calls: seq<Call>, s: State)
    ensures NothingTorn(Attempts(flow, Captures(calls, s))) <==> forall j: nat :: !TornBy(flow, calls, s, j)
    decreases |calls|
  {
    hide Run;
    hide Captures;
    hide Attempts;
    hide TornBy;
    hide NothingTorn;
    hide Tears;
    hide Completes;
    hide PartOf;
    if calls != [] {
      var last := |calls| - 1;
      TornExactly(flow, calls[..last], s);
      CapturesStep(calls, s);
      PartAppends(flow, Captures(calls[..last], s), Captures(calls, s), Run(calls[..last], s), calls[last]);
      PartKind(flow, Run(calls[..last], s), calls[last]);
      NothingTornStep(Attempts(flow, Captures(calls[..last], s)), PartOf(flow, Run(calls[..last], s), calls[last]));
      LastTorn(flow, calls, s);
      forall j: nat | j < last ensures TornBy(flow, calls, s, j) <==> TornBy(flow, calls[..last], s, j) {
        PrefixesStay(flow, calls, s, j);
      }
    } else {
      NoAttempts(flow, s);
    }
  }

  lemma NothingTornStep(before: seq<Attempt>, part: seq<Attempt>)
    requires |part| <= 1
    ensures NothingTorn(before + part) <==> NothingTorn(before) && (part != [] && part[0].Torn? ==> part[0].tokens == [])
    ensures Clean(before + part) <==> Clean(before) && (part != [] && part[0].Done? ==> NothingTorn(before))
  {
    if part == [] {
      assert before + part == before;
    } else {
      CleanStep(before + part);
      assert (before + part)[..|before|] == before;
    }
  }

  lemma LastTorn(flow: bool, calls: seq<Call>, s: State)
    requires calls != []
    ensures var last := |calls| - 1;
            && (TornBy(flow, calls, s, last) <==> Tears(flow, Run(calls[..last], s), calls[last]))
            && (CompletedBy(flow, calls, s, last) <==> Completes(flow, Run(calls[..last], s), calls[last]))
            && (forall j: nat :: j >= last ==> !TornBy(flow, calls[..last], s, j) && !CompletedBy(flow, calls[..last], s, j))
            && (forall j: nat :: j > last ==> !TornBy(flow, calls, s, j) && !CompletedBy(flow, calls, s, j))
  {
    hide Run;
    hide Tears;
    hide Completes;
  }

  lemma NoAttempts(flow: bool, s: State)
    ensures Attempts(flow, Captures([], s)) == [] && NothingTorn([]) && Clean([])
    ensures forall j: nat :: !TornBy(flow, [], s, j) && !CompletedBy(flow, [], s, j)
  {
  }

  lemma {:induction false} CleanOnCalls(flow: bool, calls: seq<Call>, s: State)
    ensures Clean(Attempts(flow, Captures(calls, s))) <==> !Continued(flow, calls, s)
    decreases |calls|
  {
    hide Run;
    hide Captures;
    hide Attempts;
    hide TornBy;
    hide CompletedBy;
    hide NothingTorn;
    hide Clean;
    hide Tears;
    hide Completes;
    hide Continued;
    hide PartOf;
    if calls != [] {
      var last := |calls| - 1;
      CleanOnCalls(flow, calls[..last], s);
      TornExactly(flow, calls[..last], s);
      CapturesStep(calls, s);
      PartAppends(flow, Captures(calls[..last], s), Captures(calls, s), Run(calls[..last], s), calls[last]);
      PartKind(flow, Run(calls[..last], s), calls[last]);
      NothingTornStep(Attempts(flow, Captures(calls[..last], s)), PartOf(flow, Run(calls[..last], s), calls[last]));
      ContinuedStep(flow, calls, s);
    } else {
      NoAttempts(flow, s);
      assert !Continued(flow, calls, s) by { NothingContinued(flow, s); }
    }
  }

  lemma NothingContinued(flow: bool, s: State)
    ensures !Continued(flow, [], s)
  {
  }

  lemma ContinuedStep(flow: bool, calls: seq<Call>, s: State)
    requires calls != []
    ensures var last := |calls| - 1;
            Continued(flow, calls, s) <==>
            Continued(flow, calls[..last], s)
            || (Completes(flow, Run(calls[..last], s), calls[last]) && exists j: nat :: TornBy(flow, calls[..last], s, j))
  {
    hide Run;
    hide TornBy;
    hide CompletedBy;
    hide Tears;
    hide Completes;
    var last := |calls| - 1;
    LastTorn(flow, calls, s);
    forall j: nat | j < last
      ensures TornBy(flow, calls, s, j) <==> TornBy(flow, calls[..last], s, j)
      ensures CompletedBy(flow, calls, s, j) <==> CompletedBy(flow, calls[..last], s, j)
    {
      PrefixesStay(flow, calls, s, j);
    }
    assert forall j: nat :: TornBy(flow, calls[..last], s, j) ==> j < last;
    if Completes(flow, Run(calls[..last], s), calls[last]) {
      assert CompletedBy(flow, calls, s, last);
    }
  }

  // Once given up, given up.
  lemma {:induction false} StaysDisabled(calls: seq<Call>, s: State, a: nat, b: nat)
    requires a <= b <= |calls| && Run(calls[..a], s).disabled
    ensures Run(calls[..b], s).disabled
    decreases b - a
  {
    hide Run;
    if a < b {
      StaysDisabled(calls, s, a, b - 1);
      assert calls[..b][..b - 1] == calls[..b - 1];
      GivenUpStays(calls[..b], s);
    }
  }

  lemma OnlyErrorsContinue(flow: bool, calls: seq<Call>, s: State, j: nat, k: nat)
    requires s.guard == 0 && j < k && TornBy(flow, calls, s, j) && CompletedBy(flow, calls, s, k)
    ensures ThrowsError(calls[j])
  {
    hide Run;
    var call, state := calls[j], Run(calls[..j], s);
    GuardStays(calls[..j], s);
    if !ThrowsError(call) {
      GivesUpExactly(state, call);
      assert calls[..j + 1][..j] == calls[..j];
      CapturesStep(calls[..j + 1], s);
      StaysDisabled(calls, s, j + 1, k);
      assert false;
    }
  }

  lemma {:induction false} GuardStays(calls: seq<Call>, s: State)
    requires s.guard >= 0
    ensures Run(calls, s).guard == s.guard
    decreases |calls|
  {
    if calls != [] {
      GuardStays(calls[..|calls| - 1], s);
      hide Next;
      GuardRestored(Run(calls[..|calls| - 1], s), calls[|calls| - 1]);
    }
  }

  /** On the calls themselves: a stream holds the whole records and nothing else unless an
      error is thrown part way through one of them and a later line writes its record. */
  lemma AtomicUnlessErrorIsContinued(calls: seq<Call>, s: State)
    requires Fresh(s)
    ensures LinesOf(Run(calls, s).flow).0 == Records(FlowAttempts(Captures(calls, s))) <==>
            !exists j: nat, k: nat :: j < k && TornBy(true, calls, s, j) && ThrowsError(calls[j]) && CompletedBy(true, calls, s, k)
    ensures LinesOf(Run(calls, s).snapshots).0 == Records(SnapshotAttempts(Captures(calls, s))) <==>
            !exists j: nat, k: nat :: j < k && TornBy(false, calls, s, j) && ThrowsError(calls[j]) && CompletedBy(false, calls, s, k)
  {
    AtomicExactly(calls, s);
    CleanOnCalls(true, calls, s);
    CleanOnCalls(false, calls, s);
    hide Run;
    hide Captures;
    hide LinesOf;
    hide Records;
    hide Clean;
    hide FlowAttempts;
    hide SnapshotAttempts;
    hide CompletedBy;
    hide ThrowsError;
    hide Tears;
    forall flow, j: nat, k: nat | j < k && TornBy(flow, calls, s, j) && CompletedBy(flow, calls, s, k)
      ensures ThrowsError(calls[j])
    {
      OnlyErrorsContinue(flow, calls, s, j, k);
    }
  }

  // ---------------------------------------------------------------- the n-th record

  // The positions of the captured lines among the calls.
  function CapturedAt(calls: seq<Call>, s: State): seq<nat> {
    if calls == [] then []
    else
      var before, call := Run(calls[..|calls| - 1], s), calls[|calls| - 1];
      CapturedAt(calls[..|calls| - 1], s) + if call.Line? && !before.disabled then [|calls| - 1] else []
  }

  lemma CapturedAtStep(calls: seq<Call>, s: State)
    requires calls != []
    ensures var head, call := calls[..|calls| - 1], calls[|calls| - 1];
            CapturedAt(calls, s) == CapturedAt(head, s) + if call.Line? && !Run(head, s).disabled then [|head|] else []
  {
  }

  lemma {:induction false} CapturedInOrder(calls: seq<Call>, s: State)
    ensures var at := CapturedAt(calls, s);
            (forall n :: 0 <= n < |at| ==> at[n] < |calls|) && (forall i, j :: 0 <= i < j < |at| ==> at[i] < at[j])
    decreases |calls|
  {
    if calls != [] {
      var head := calls[..|calls| - 1];
      CapturedInOrder(head, s);
      CapturedAtStep(calls, s);
      var at, inner := CapturedAt(calls, s), CapturedAt(head, s);
      hide CapturedAt;
      hide Run;
      assert forall n :: 0 <= n < |inner| ==> at[n] == inner[n];
    }
  }

  /** The n-th capture is the n-th line executed, captured in the state its predecessors
      leave. */
  lemma {:induction false} NthCaptureIsNthLine(calls: seq<Call>, s: State)
    ensures var at := CapturedAt(calls, s);
            && |at| == |Captures(calls, s)|
            && (forall n :: 0 <= n < |at| ==>
                  && at[n] < |calls| && calls[at[n]].Line?
                  && Captures(calls, s)[n] == CaptureOf(Run(calls[..at[n]], s), calls[at[n]]))
    decreases |calls|
  {
    hide CaptureOf;
    hide Run;
    if calls != [] {
      var head, n0 := calls[..|calls| - 1], |calls| - 1;
      NthCaptureIsNthLine(head, s);
      CapturesStep(calls, s);
      CapturedAtStep(calls, s);
      var at, inner := CapturedAt(calls, s), CapturedAt(head, s);
      hide CapturedAt;
      hide Captures;
      forall n | 0 <= n < |at|
        ensures at[n] < |calls| && calls[at[n]].Line? && Captures(calls, s)[n] == CaptureOf(Run(calls[..at[n]], s), calls[at[n]])
      {
        if n < |inner| {
          assert at[n] == inner[n] && calls[..inner[n]] == head[..inner[n]];
        }
      }
    } else {
      NothingCaptured(s);
    }
  }

  /** No line is left out until capture is given up. */
  lemma {:induction false} NoLineLeftOut(calls: seq<Call>, s: State, k: nat)
    requires k < |calls| && calls[k].Line? && !Run(calls[..k], s).disabled
    ensures k in CapturedAt(calls, s)
    decreases |calls|
  {
    hide Run;
    var head := calls[..|calls| - 1];
    CapturedAtStep(calls, s);
    var at := CapturedAt(calls, s);
    hide CapturedAt;
    if k < |head| {
      assert calls[..k] == head[..k];
      NoLineLeftOut(head, s, k);
    } else {
      assert at[|at| - 1] == k;
    }
  }

  // The steps of the captures that have a snapshot.
  function SnapshotSteps(cs: seq<Capture>): seq<nat> {
    if cs == [] then []
    else SnapshotSteps(cs[..|cs| - 1]) + (if cs[|cs| - 1].snapshot.Some? then [|cs| - 1] else [])
  }

  /** Snapshots are in the order of their steps, strictly, and each belongs to a line whose
      flow record was written. */
  lemma {:induction false} SnapshotStepsIncrease(cs: seq<Capture>)
    ensures var steps := SnapshotSteps(cs);
            && |steps| == |SnapshotAttempts(cs)|
            && (forall i, j :: 0 <= i < j < |steps| ==> steps[i] < steps[j])
            && (forall i :: 0 <= i < |steps| ==>
                  steps[i] < |cs| && cs[steps[i]].snapshot == Some(SnapshotAttempts(cs)[i]))
            && (forall n :: 0 <= n < |cs| && cs[n].snapshot.Some? ==> n in steps)
    decreases |cs|
  {
    if cs != [] {
      var head := cs[..|cs| - 1];
      SnapshotStepsIncrease(head);
      assert forall n :: n in SnapshotSteps(head) ==> n in SnapshotSteps(cs);
      if cs[|cs| - 1].snapshot.Some? {
        assert SnapshotSteps(cs)[|SnapshotSteps(head)|] == |cs| - 1;
      }
    }
  }
}
