/** Every run of history rounds from an empty store. */
module HistoryRuns {
  import opened Collections
  import opened HistoryLayout
  import opened HistoryTracking
  import opened HistoryRing
  import opened KeyValueStates
  import opened HistoryStores
  import opened HistoryRequirements
  import opened HistoryRounds

  /** A completed round: the depths it admitted and the values it agreed on. */
  datatype Step = Step(depths: map<Pair, nat>, agreed: seq<Agreed>)

  ghost predicate StepOk(s: Step) {
    && OncePerPair(s.agreed) && |s.depths.Keys| <= MAX_PAIRS
    && forall k :: k in s.depths ==> 0 < s.depths[k] <= MAX_DEPTH
  }

  function NextWindows(windows: map<Pair, Window>, s: Step): map<Pair, Window> {
    map k | k in s.depths :: NextWindow(Get(windows, k), s.depths[k], s.agreed, k)
  }

  function After(steps: seq<Step>): map<Pair, Window> {
    if steps == [] then map[] else NextWindows(After(steps[..|steps| - 1]), steps[|steps| - 1])
  }

  // ------------------------------------------------------- reference history

  /** The plain append log: a record is kept when it fits and is newer than the newest kept one. */
  function Keep(log: seq<Record>, r: Record): seq<Record> {
    if RecordBytes(r) <= MAX_RECORD_BYTES && (log == [] || r.observedAt > log[|log| - 1].observedAt) then log + [r]
        else log
  }

  function KeepAll(log: seq<Record>, records: seq<Record>): seq<Record> {
    if records == [] then log
    else Keep(KeepAll(log, records[..|records| - 1]), records[|records| - 1])
  }

  /** Everything accepted for a pair since it was last admitted. */
  function AcceptedLog(steps: seq<Step>, k: Pair): seq<Record> {
    if steps == [] then []
    else
      var last := steps[|steps| - 1];
      if k in last.depths then KeepAll(AcceptedLog(steps[..|steps| - 1], k), RecordsOf(last.agreed, k)) else []
  }

  /** The smallest depth a pair was given since it was last admitted. */
  function LeastDepth(steps: seq<Step>, k: Pair): nat {
    if steps == [] || k !in steps[|steps| - 1].depths then 0
    else
      var depth, before := steps[|steps| - 1].depths[k], LeastDepth(steps[..|steps| - 1], k);
      if before == 0 then depth else Min(before, depth)
  }

  // ------------------------------------------------------------- run theorems

  lemma {:induction false} AppendAllKeeps(w: Window, records: seq<Record>)
    requires w.depth > 0
    ensures AppendAll(w, records).depth == w.depth
    ensures AppendAll(w, records).log == KeepAll(w.log, records)
  {
    if records != [] {
      AppendAllKeeps(w, records[..|records| - 1]);
    }
  }

  /** What every run keeps of one pair: the window's log is the plain append log,
      and it still covers the smallest depth asked for since it was empty. */
  lemma {:induction false} RunKeeps(steps: seq<Step>, k: Pair)
    requires forall s :: s in steps ==> StepOk(s)
    ensures k in After(steps) ==> WindowOk(After(steps)[k]) && After(steps)[k].depth >= LeastDepth(steps, k) > 0
    ensures Get(After(steps), k).log == AcceptedLog(steps, k)
    ensures RetainedCount(Get(After(steps), k)) >= Min(LeastDepth(steps, k), |AcceptedLog(steps, k)|)
  {
    if steps != [] {
      var init, last := steps[..|steps| - 1], steps[|steps| - 1];
      RunKeeps(init, k);
      if k in last.depths {
        assert last in steps;
        var w := Get(After(init), k);
        SetDepthKeeps(w, last.depths[k], LeastDepth(init, k));
        AppendAllRetains(SetDepth(w, last.depths[k]), RecordsOf(last.agreed, k), LeastDepth(steps, k));
        AppendAllKeeps(SetDepth(w, last.depths[k]), RecordsOf(last.agreed, k));
      }
    }
  }

  lemma SetDepthKeeps(w: Window, depth: nat, least: nat)
    requires WindowOk(w) && 0 < depth <= MAX_DEPTH && RetainedCount(w) >= Min(least, |w.log|)
    requires least == 0 ==> w == EMPTY_WINDOW
    ensures var v := SetDepth(w, depth);
            && WindowOk(v) && v.depth == depth && v.log == w.log
            && RetainedCount(v) >= Min(if least == 0 then depth else Min(least, depth), |w.log|)
  {
  }

  lemma AppendRetains(w: Window, r: Record, least: nat)
    requires WindowOk(w) && least <= w.depth && RetainedCount(w) >= Min(least, |w.log|)
    ensures var v := AppendTo(w, r);
            WindowOk(v) && v.depth == w.depth && RetainedCount(v) >= Min(least, |v.log|)
  {
    AppendKeepsOk(w, r);
  }

  lemma {:induction false} AppendAllRetains(w: Window, records: seq<Record>, least: nat)
    requires WindowOk(w) && 0 < least <= w.depth && RetainedCount(w) >= Min(least, |w.log|)
    ensures var v := AppendAll(w, records);
            WindowOk(v) && v.depth == w.depth && RetainedCount(v) >= Min(least, |v.log|)
  {
    if records != [] {
      AppendAllRetains(w, records[..|records| - 1], least);
      AppendRetains(AppendAll(w, records[..|records| - 1]), records[|records| - 1], least);
    }
  }

  /** The value a round agrees on for a pair, if any. */
  lemma {:induction false} RecordsIff(agreed: seq<Agreed>, k: Pair, r: Record)
    requires OncePerPair(agreed)
    ensures Agreed(k, r) in agreed <==> RecordsOf(agreed, k) == [r]
  {
    if agreed != [] {
      var n := |agreed| - 1;
      RecordsIff(agreed[..n], k, r);
      assert agreed == agreed[..n] + [agreed[n]];
      if agreed[n].pair == k {
        NotYetAgreed(agreed[..n], k);
        assert Agreed(k, r) !in agreed[..n];
        assert RecordsOf(agreed, k) == [agreed[n].record];
        assert [agreed[n].record] == [r] ==> [agreed[n].record][0] == [r][0];
      }
    }
  }

  /** Round `i` agreed on `r` for a pair it admitted and no later round dropped; `r` fits
      and is newer than everything accepted before. */
  ghost predicate TakenIn(steps: seq<Step>, k: Pair, i: nat, r: Record) {
    && i < |steps| && (forall j :: i <= j < |steps| ==> k in steps[j].depths)
    && Agreed(k, r) in steps[i].agreed && RecordBytes(r) <= 128
    && forall q :: q in AcceptedLog(steps[..i], k) ==> q.observedAt < r.observedAt
  }

  /** Which records of a run are in the log, in ascending time. */
  lemma {:induction false} AcceptedIff(steps: seq<Step>, k: Pair, r: Record)
    requires forall s :: s in steps ==> StepOk(s)
    ensures Monotone(AcceptedLog(steps, k))
    ensures r in AcceptedLog(steps, k) <==> exists i :: TakenIn(steps, k, i, r)
    decreases |steps|
  {
    hide KeepAll, RecordBytes, RecordsOf, OncePerPair, Monotone;
    if steps == [] {
      NothingKept();
    } else {
      var n := |steps| - 1;
      var init, last, log := steps[..n], steps[n], AcceptedLog(steps[..n], k);
      AcceptedIff(init, k, r);
      assert last in steps;
      forall i: nat | i < n ensures TakenIn(steps, k, i, r) <==> TakenIn(init, k, i, r) && k in last.depths {
        assert init[..i] == steps[..i];
      }
      if k in last.depths {
        AtMostOneRecord(last.agreed, k);
        RecordsIff(last.agreed, k, r);
        KeptIff(log, RecordsOf(last.agreed, k), r);
        assert TakenIn(steps, k, n, r) <==>
            RecordsOf(last.agreed, k) == [r] && RecordBytes(r) <= 128 &&
            forall q :: q in log ==> q.observedAt < r.observedAt;
      } else {
        NothingKept();
        assert forall i: nat :: !TakenIn(steps, k, i, r);
      }
    }
  }

  lemma NothingKept()
    ensures Monotone([])
  {
  }

  lemma KeptIff(log: seq<Record>, records: seq<Record>, r: Record)
    requires |records| <= 1 && Monotone(log)
    ensures Monotone(KeepAll(log, records))
    ensures r in KeepAll(log, records) <==>
            || r in log
            || (records == [r] && RecordBytes(r) <= 128 && forall q :: q in log ==> q.observedAt < r.observedAt)
  {
    if records != [] {
      assert records[..0] == [];
      assert log != [] ==> log[|log| - 1] in log;
    }
  }

  /** A read within the covered depth returns exactly the newest accepted records. */
  lemma ReadsAreLogTails(steps: seq<Step>, k: Pair, n: nat)
    requires forall s :: s in steps ==> StepOk(s)
    ensures n <= RetainedCount(Get(After(steps), k)) ==>
              n <= |AcceptedLog(steps, k)| && ReadAnswer(Get(After(steps), k), n) == Ok(LastN(AcceptedLog(steps, k), n))
    ensures n > RetainedCount(Get(After(steps), k)) ==> ReadAnswer(Get(After(steps), k), n) == Err(InsufficientHistory)
    ensures n <= LeastDepth(steps, k) && n <= |AcceptedLog(steps, k)| ==> n <= RetainedCount(Get(After(steps), k))
  {
    RunKeeps(steps, k);
  }

  // ------------------------------------------------------- rounds refine steps

  lemma NextDepth(w: Window, depth: nat, agreed: seq<Agreed>, k: Pair)
    requires depth > 0
    ensures NextWindow(w, depth, agreed, k).depth == depth
  {
    AppendAllKeeps(SetDepth(w, depth), RecordsOf(agreed, k));
  }

  /** Storage that represents some windows represents the next ones after a round. */
  lemma RoundRepresents(data: Data, input: RoundInput, windows: map<Pair, Window>, good: iset<Pair>, out: RoundOutput)
    requires Represents(data, windows) && AllGood(good) && RoundDone(data, input, windows, good, out)
    requires forall k :: k in out.depths ==> out.depths[k] > 0
    ensures Represents(out.data, NextWindows(windows, Step(out.depths, input.agreed)))
  {
    hide CellOf, CellHolds, NextWindow, SortedBy, NoDuplicates, ReadAnswer, TouchedOnce, Restored, Precedes, IndexOf,
      VersionOf, Ascending, Touched, Junk;
    var next := NextWindows(windows, Step(out.depths, input.agreed));
    AscendingIff(IndexOf(data));
    AscendingIff(IndexOf(out.data));
    assert TidyIndex(data) by {
      if IndexOf(data) != [] { assert IndexOf(data)[0] in windows; }
    }
    forall k ensures PairHolds(out.data, k, Get(next, k)) && (k in IndexOf(out.data) <==> k in next) {
      assert k in good;
      assert PairHolds(out.data, k, OutcomeOf(windows, out.depths, input.agreed, k));
      if k in out.depths { NextDepth(Get(windows, k), out.depths[k], input.agreed, k); }
    }
    assert next.Keys == out.depths.Keys;
    if next.Keys != {} {
      var k :| k in next.Keys;
      assert k in IndexOf(out.data);
    }
  }

  lemma IndexSize(data: Data, windows: map<Pair, Window>)
    requires Represents(data, windows)
    ensures |IndexOf(data)| <= MAX_PAIRS
  {
    DistinctSize(IndexOf(data), windows.Keys);
  }

  lemma EveryPairStarts(data: Data, windows: map<Pair, Window>, good: iset<Pair>)
    requires Represents(data, windows) && forall k :: |Get(windows, k).log| < MAX_UINT64
    ensures forall k :: k in good ==> StartsAs(data, k, Get(windows, k))
  {
    hide CellOf, CellHolds, SortedBy, NoDuplicates;
    forall k | k in good ensures StartsAs(data, k, Get(windows, k)) {
      assert PairHolds(data, k, Get(windows, k));
      if k in IndexOf(data) { assert k in windows; }
    }
  }

  ghost predicate InputOk(input: RoundInput) {
    OncePerPair(input.agreed) && forall k :: k in input.required ==> 0 < input.required[k] <= MAX_DEPTH
  }

  lemma EveryPairHolds(data: Data, windows: map<Pair, Window>, good: iset<Pair>)
    requires Represents(data, windows) && forall k :: PairHolds(data, k, Get(windows, k)) ==> k in good
    ensures AllGood(good)
  {
    hide PairHolds;
    forall k: Pair ensures k in good {
      assert PairHolds(data, k, Get(windows, k));
    }
  }

  lemma AdmittedStep(data: Data, input: RoundInput, windows: map<Pair, Window>, good: iset<Pair>, out: RoundOutput)
    requires InputOk(input) && RoundDone(data, input, windows, good, out)
    ensures StepOk(Step(out.depths, input.agreed)) && forall k :: k in out.depths ==> out.depths[k] > 0
  {
    hide PairHolds, Restored, ReadAnswer, OutcomeOf, TidyIndex, TouchedOnce, NoDuplicates, Precedes;
  }

  lemma {:induction false} KeepAllGrows(log: seq<Record>, records: seq<Record>)
    ensures |KeepAll(log, records)| <= |log| + |records|
  {
    if records != [] { KeepAllGrows(log, records[..|records| - 1]); }
  }

  /** A round adds at most one record to a pair. */
  lemma {:induction false} LogBound(steps: seq<Step>, k: Pair)
    requires forall s :: s in steps ==> StepOk(s)
    ensures |AcceptedLog(steps, k)| <= |steps|
  {
    if steps != [] {
      LogBound(steps[..|steps| - 1], k);
      assert steps[|steps| - 1] in steps;
      AtMostOneRecord(steps[|steps| - 1].agreed, k);
      KeepAllGrows(AcceptedLog(steps[..|steps| - 1], k), RecordsOf(steps[|steps| - 1].agreed, k));
    }
  }

  /** One completed round of a run, from the pairs holding a window before it to
      the windows after it. */
  ghost predicate Completed(input: RoundInput, holders: set<Pair>, out: RoundOutput, windows: map<Pair, Window>) {
    && IsAdmission(input.required, holders, out.depths, out.denied)
    && Represents(out.data, windows)
    && |out.answers| == |input.requests|
    && (forall i :: 0 <= i < |input.requests| ==>
          out.answers[i] == ReadAnswer(Get(windows, input.requests[i].pair), input.requests[i].count))
    && out.corrupt == {}
    && NoDuplicates(out.readKeys) && TouchedOnce(out.writtenKeys, out.deletedKeys)
  }

  lemma RoundCompletes(data: Data, input: RoundInput, windows: map<Pair, Window>, good: iset<Pair>, out: RoundOutput)
    requires Represents(data, windows) && AllGood(good) && RoundDone(data, input, windows, good, out)
    requires forall k :: k in out.depths ==> out.depths[k] > 0
    ensures Completed(input, windows.Keys, out, NextWindows(windows, Step(out.depths, input.agreed)))
  {
    hide CellOf, CellHolds, NextWindow, SortedBy, NoDuplicates, ReadAnswer, TouchedOnce, Restored, IsAdmission,
      VersionOf, PairHolds;
    RoundRepresents(data, input, windows, good, out);
    assert Incumbents(data) == windows.Keys;
    forall i | 0 <= i < |input.requests|
      ensures input.requests[i].pair in good
    {
    }
    assert forall k :: k in out.corrupt ==> k in good;
  }

  /** The rounds of a run so far, each completing the step it stands for. */
  ghost predicate Trace(inputs: seq<RoundInput>, outputs: seq<RoundOutput>, steps: seq<Step>) {
    && |outputs| == |steps| <= |inputs|
    && (forall s :: s in steps ==> StepOk(s))
    && (forall i :: 0 <= i < |steps| ==> steps[i] == Step(outputs[i].depths, inputs[i].agreed))
    && (forall i :: 0 <= i < |steps| ==>
        Completed(inputs[i], After(steps[..i]).Keys, outputs[i], After(steps[..i + 1])))
  }

  lemma TraceExtends(inputs: seq<RoundInput>, outputs: seq<RoundOutput>, steps: seq<Step>, out: RoundOutput)
    requires Trace(inputs, outputs, steps) && |steps| < |inputs|
    requires var step := Step(out.depths, inputs[|steps|].agreed);
             StepOk(step) && Completed(inputs[|steps|], After(steps).Keys, out, After(steps + [step]))
    ensures Trace(inputs, outputs + [out], steps + [Step(out.depths, inputs[|steps|].agreed)])
  {
    hide Completed, After, StepOk;
    var n, more, outs := |steps|, steps + [Step(out.depths, inputs[|steps|].agreed)], outputs + [out];
    forall i | 0 <= i < |more|
      ensures Completed(inputs[i], After(more[..i]).Keys, outs[i], After(more[..i + 1]))
    {
      assert more[..i] == steps[..i];
      assert i < n ==> more[..i + 1] == steps[..i + 1];
      assert i == n ==> more[..i + 1] == more && steps[..n] == steps;
    }
  }

  /** Nothing was discarded, and no key was read, written or deleted twice. */
  ghost predicate Undisturbed(out: RoundOutput) {
    out.corrupt == {} && NoDuplicates(out.readKeys) && TouchedOnce(out.writtenKeys, out.deletedKeys)
  }

  lemma AllUndisturbed(inputs: seq<RoundInput>, outputs: seq<RoundOutput>, steps: seq<Step>)
    requires Trace(inputs, outputs, steps)
    ensures forall i :: 0 <= i < |outputs| ==> Undisturbed(outputs[i])
  {
    hide NoDuplicates, TouchedOnce, Represents, IsAdmission, After, ReadAnswer;
    forall i | 0 <= i < |outputs| ensures Undisturbed(outputs[i]) {
      assert Completed(inputs[i], After(steps[..i]).Keys, outputs[i], After(steps[..i + 1]));
    }
  }

  lemma NothingRun(inputs: seq<RoundInput>)
    ensures Represents(map[], After([])) && Trace(inputs, [], [])
  {
    EmptyStoreRepresentsNothing();
  }

  lemma TraceSteps(inputs: seq<RoundInput>, outputs: seq<RoundOutput>, steps: seq<Step>)
    requires Trace(inputs, outputs, steps)
    ensures forall s :: s in steps ==> StepOk(s)
  {
  }

  /** Runs rounds one after another from an empty store. */
  method RunRounds(inputs: seq<RoundInput>) returns (data: Data, outputs: seq<RoundOutput>, ghost steps: seq<Step>)
    requires |inputs| < MAX_UINT64 && forall input :: input in inputs ==> InputOk(input)
    ensures |steps| == |inputs| && Trace(inputs, outputs, steps) && Represents(data, After(steps))
    ensures |outputs| == |inputs| && forall i :: 0 <= i < |outputs| ==> Undisturbed(outputs[i])
    ensures data == if outputs == [] then map[] else outputs[|outputs| - 1].data
  {
    hide Represents, Trace, After, InputOk, Completed, StepOk, Undisturbed;
    data, outputs, steps := map[], [], [];
    NothingRun(inputs);
    for i := 0 to |inputs|
      invariant |outputs| == |steps| == i && Trace(inputs, outputs, steps) && Represents(data, After(steps))
      invariant data == if outputs == [] then map[] else outputs[|outputs| - 1].data
    {
      TraceSteps(inputs, outputs, steps);
      var out; ghost var step;
      data, out, step := RunOne(data, inputs[i], steps);
      TraceExtends(inputs, outputs, steps, out);
      steps, outputs := steps + [step], outputs + [out];
    }
    AllUndisturbed(inputs, outputs, steps);
  }

  method RunOne(data: Data, input: RoundInput, ghost steps: seq<Step>)
    returns (next: Data, out: RoundOutput, ghost step: Step)
    requires InputOk(input) && |steps| < MAX_UINT64 && forall s :: s in steps ==> StepOk(s)
    requires Represents(data, After(steps))
    ensures step == Step(out.depths, input.agreed) && StepOk(step) && next == out.data
    ensures Completed(input, After(steps).Keys, out, After(steps + [step]))
    ensures Represents(next, After(steps + [step]))
  {
    hide Represents, StepOk, StartsAs, RoundDone, PairHolds, IsAdmission, ReadAnswer, TouchedOnce, NoDuplicates;
    ghost var windows := After(steps);
    ghost var good := iset k | PairHolds(data, k, Get(windows, k));
    EveryPairHolds(data, windows, good);
    forall k ensures |Get(windows, k).log| < MAX_UINT64 {
      RunKeeps(steps, k);
      LogBound(steps, k);
    }
    EveryPairStarts(data, windows, good);
    IndexSize(data, windows);
    var r := Round(data, input, windows, good);
    out := r.value;
    next, step := out.data, Step(out.depths, input.agreed);
    AdmittedStep(data, input, windows, good, out);
    RoundCompletes(data, input, windows, good, out);
    assert (steps + [step])[..|steps|] == steps;
  }

  // ------------------------------------------------------ consequences of runs

  lemma {:induction false} KeepAllExtends(log: seq<Record>, records: seq<Record>)
    ensures log <= KeepAll(log, records)
  {
    if records != [] { KeepAllExtends(log, records[..|records| - 1]); }
  }

  /** A pair that holds a window and stays required is admitted again, whoever else
      asks, and nothing accepted for it so far is forgotten. */
  lemma HoldersStay(inputs: seq<RoundInput>, outputs: seq<RoundOutput>, steps: seq<Step>, i: nat, k: Pair)
    requires Trace(inputs, outputs, steps) && i < |steps|
    requires k in After(steps[..i]) && k in inputs[i].required
    ensures k in outputs[i].depths
    ensures AcceptedLog(steps[..i], k) <= AcceptedLog(steps[..i + 1], k)
  {
    hide Represents, ReadAnswer, NoDuplicates, TouchedOnce, NextWindow;
    assert Completed(inputs[i], After(steps[..i]).Keys, outputs[i], After(steps[..i + 1]));
    HoldersFit(steps, i);
    IncumbentsAreNeverDenied(inputs[i].required, After(steps[..i]).Keys, outputs[i].depths, outputs[i].denied, k);
    assert steps[..i + 1][..i] == steps[..i] && steps[..i + 1][i] == steps[i];
    KeepAllExtends(AcceptedLog(steps[..i], k), RecordsOf(steps[i].agreed, k));
  }

  /** At no point of a run do more pairs hold a window than the cap allows. */
  lemma HoldersFit(steps: seq<Step>, i: nat)
    requires i <= |steps| && forall s :: s in steps ==> StepOk(s)
    ensures |After(steps[..i]).Keys| <= MAX_PAIRS
  {
    hide NextWindow;
    if i > 0 {
      assert steps[..i][i - 1] in steps;
      assert After(steps[..i]).Keys == steps[i - 1].depths.Keys;
    }
  }

  lemma CellUnique(c: Cell, d: Cell, w: Window)
    requires CellHolds(c, w) && CellHolds(d, w)
    ensures c == d
  {
    forall slot | slot in c.slots ensures c.slots[slot] == d.slots[slot] {
      var s :| w.first <= s < ChunksFor(|w.log|) && Slot(s) == slot;
      assert Retained(w, s);
    }
    assert c.slots == d.slots;
  }

  /** What is stored is a function of the windows: oracles that agree on those hold
      the same index and the same cells. */
  lemma StorageIsDetermined(d: Data, e: Data, windows: map<Pair, Window>, k: Pair)
    requires Represents(d, windows) && Represents(e, windows)
    ensures IndexOf(d) == IndexOf(e) && CellOf(d, k) == CellOf(e, k)
  {
    hide CellOf, CellHolds, IndexOf, SortedPairs;
    SortedPairsUnique(IndexOf(d), IndexOf(e), windows.Keys);
    assert PairHolds(d, k, Get(windows, k)) && PairHolds(e, k, Get(windows, k));
    if k in IndexOf(d) { CellUnique(CellOf(d, k), CellOf(e, k), Get(windows, k)); }
  }

  /** Two runs of the same inputs take the same steps, in whatever order maps were
      drained, so every oracle ends with the same history. */
  lemma {:induction false} RunsAgree(
    inputs: seq<RoundInput>, o1: seq<RoundOutput>, s1: seq<Step>, o2: seq<RoundOutput>, s2: seq<Step>)
    requires Trace(inputs, o1, s1) && Trace(inputs, o2, s2) && |s1| == |s2|
    ensures s1 == s2
    decreases |s1|
  {
    hide StepOk, After;
    if s1 != [] {
      var n := |s1| - 1;
      TracePrefix(inputs, o1, s1);
      TracePrefix(inputs, o2, s2);
      RunsAgree(inputs, o1[..n], s1[..n], o2[..n], s2[..n]);
      assert Completed(inputs[n], After(s1[..n]).Keys, o1[n], After(s1[..n + 1]));
      assert Completed(inputs[n], After(s2[..n]).Keys, o2[n], After(s2[..n + 1]));
      AdmissionIsDeterministic(inputs[n].required, After(s1[..n]).Keys, o1[n].depths, o1[n].denied, o2[n].depths,
          o2[n].denied);
      assert s1 == s1[..n] + [s1[n]] && s2 == s2[..n] + [s2[n]];
    }
  }

  lemma TracePrefix(inputs: seq<RoundInput>, outputs: seq<RoundOutput>, steps: seq<Step>)
    requires Trace(inputs, outputs, steps) && steps != []
    ensures Trace(inputs, outputs[..|steps| - 1], steps[..|steps| - 1])
  {
    hide StepOk, After, Completed;
    var n := |steps| - 1;
    forall i | 0 <= i < n
      ensures Completed(inputs[i], After(steps[..n][..i]).Keys, outputs[..n][i], After(steps[..n][..i + 1]))
    {
      assert steps[..n][..i] == steps[..i] && steps[..n][..i + 1] == steps[..i + 1];
    }
  }
}
