/** The result buffer pushed to by several threads.

    A push decides under the read lock, places its batch with no lock, and publishes under
    the write lock: three steps, between which others push, read and close the result.
  */
module BufferProducers {
  import opened Machine
  import opened Options
  import opened BufferIndexes

  datatype Producer =
    | Idle
    | Planned(batch: Batch, sliceBytes: nat, plan: PushPlan)
    | Placed(slot: Slot, kept: Batch, truncated: bool)

  /** `batches` records what was published. */
  datatype State = State(
    limits: BufferLimits, index: BufferIndex, file: seq<Batch>, producers: seq<Producer>, batches: seq<Batch>)

  datatype Action =
    | Plan(p: nat, batch: Batch, sliceBytes: nat)
    | Place(p: nat, byteLen: nat, retained: nat)
    | PlaceFails(p: nat)
    | Publish(p: nat)
    | Complete(measured: ExecStats)
    | MarkTruncated

  function Kept(batch: Batch, sliceBytes: nat, plan: PushPlan): Batch {
    if plan.keepRows.Some? && plan.keepRows.value <= |batch.rows|
    then batch.(rows := batch.rows[..plan.keepRows.value], bytes := sliceBytes) else batch
  }

  predicate Enabled(s: State, a: Action) {
    match a
    case Plan(p, batch, sliceBytes) =>
      && p < |s.producers| && s.producers[p].Idle? && batch.rows != [] && sliceBytes <= batch.bytes
      && s.index.Plan(s.limits, |batch.rows|, batch.bytes).Ok?
    case Place(p, _, _) => p < |s.producers| && s.producers[p].Planned?
    case PlaceFails(p) => p < |s.producers| && s.producers[p].Planned? && s.producers[p].plan.spill
    case Publish(p) => p < |s.producers| && s.producers[p].Placed?
    case Complete(_) => true
    case MarkTruncated => true
  }

  function Step(s: State, a: Action): State
    requires Enabled(s, a)
  {
    match a
    case Plan(p, batch, sliceBytes) =>
      var plan := s.index.Plan(s.limits, |batch.rows|, batch.bytes).value;
      s.(producers := s.producers[p := Planned(batch, sliceBytes, plan)])
    case Place(p, byteLen, retained) =>
      var Planned(batch, sliceBytes, plan) := s.producers[p];
      var kept := Kept(batch, sliceBytes, plan);
      if plan.spill then
        s.(file := s.file + [kept],
           producers := s.producers[p := Placed(Spilled(SpillRef(|s.file|, byteLen, retained)), kept, plan.truncated)])
      else s.(producers := s.producers[p := Placed(Resident(kept), kept, plan.truncated)])
    case PlaceFails(p) => s.(producers := s.producers[p := Idle])
    case Publish(p) =>
      var Placed(slot, kept, truncated) := s.producers[p];
      if s.index.complete then s.(producers := s.producers[p := Idle])
      else s.(index := s.index.Published(slot, |kept.rows|, kept.bytes, truncated),
              producers := s.producers[p := Idle], batches := s.batches + [kept])
    case Complete(measured) => s.(index := s.index.Completed(measured))
    case MarkTruncated => s.(index := s.index.(stats := s.index.stats.(truncated := true)))
  }

  predicate Initial(s: State) {
    && s.index == NEW_INDEX && s.file == [] && s.batches == []
    && forall p :: 0 <= p < |s.producers| ==> s.producers[p].Idle?
  }

  /** `states` are the states `run` goes through, with no more rows than the machine counts to. */
  ghost predicate IsRun(states: seq<State>, run: seq<Action>) {
    && |states| == |run| + 1 && Initial(states[0])
    && (forall i {:trigger run[i]} :: 0 <= i < |run| ==> Moves(states[i], run[i], states[i + 1]))
    && (forall i :: 0 <= i < |states| ==> |Concat(states[i].batches)| <= USIZE_MAX)
  }

  ghost predicate Moves(s: State, a: Action, s': State) {
    Enabled(s, a) && Step(s, a) == s'
  }

  // ---------- what every interleaving keeps ----------

  /** Slot `slot` holds `batch`. */
  ghost predicate Holds(slot: Slot, file: seq<Batch>, batch: Batch) {
    match slot
    case Resident(held) => held == batch
    case Spilled(ref) => ref.at < |file| && file[ref.at] == batch
  }

  ghost predicate Inv(s: State) {
    && Describes(s.index, s.batches)
    && (forall i :: 0 <= i < |s.batches| ==> Holds(s.index.slots[i], s.file, s.batches[i]))
    && (forall p :: 0 <= p < |s.producers| ==>
          match s.producers[p]
          case Idle => true
          case Planned(batch, _, plan) => batch.rows != []
            && (plan.keepRows.Some? ==> 0 < plan.keepRows.value <= |batch.rows|)
          case Placed(slot, kept, _) => kept.rows != [] && Holds(slot, s.file, kept))
  }

  lemma PublishKeepsInv(s: State, p: nat)
    requires Inv(s) && Enabled(s, Publish(p)) && |Concat(Step(s, Publish(p)).batches)| <= USIZE_MAX
    ensures Inv(Step(s, Publish(p)))
  {
    if !s.index.complete {
      var Placed(slot, kept, truncated) := s.producers[p];
      assert (s.batches + [kept])[..|s.batches|] == s.batches;
      PublishingAppends(s.index, s.batches, slot, kept, truncated);
    }
  }

  lemma StepKeepsInv(s: State, a: Action)
    requires Inv(s) && Enabled(s, a) && |Concat(Step(s, a).batches)| <= USIZE_MAX
    ensures Inv(Step(s, a))
  {
    if a.Publish? {
      PublishKeepsInv(s, a.p);
    }
  }

  lemma {:induction false} RunKeepsInv(states: seq<State>, run: seq<Action>, i: nat)
    requires IsRun(states, run) && i < |states|
    ensures Inv(states[i])
  {
    if i > 0 {
      RunKeepsInv(states, run, i - 1);
      assert Moves(states[i - 1], run[i - 1], states[i]);
      StepKeepsInv(states[i - 1], run[i - 1]);
    }
  }

  /** However pushes, readers and the end of the stream interleave, the starts begin at 0,
      increase strictly, and are the sums of the sizes published before; every published batch
      can be read where its slot says. */
  lemma IndexStaysConsistent(states: seq<State>, run: seq<Action>, i: nat, b: nat)
    requires IsRun(states, run) && i < |states| && b < |states[i].batches|
    ensures var s := states[i];
      && |s.index.starts| == |s.index.slots| == |s.batches|
      && s.index.starts[0] == 0 && s.index.starts[b] == |Concat(s.batches[..b])|
      && (forall j, k :: 0 <= j < k < |s.index.starts| ==> s.index.starts[j] < s.index.starts[k])
      && Holds(s.index.slots[b], s.file, s.batches[b])
  {
    RunKeepsInv(states, run, i);
    StartsAreOffsets(states[i].index, states[i].batches);
  }

  /** A located row is located at the same batch and offset for ever after, and reads the same. */
  lemma {:induction false} LocatedForever(states: seq<State>, run: seq<Action>, i: nat, j: nat, row: nat, b: nat,
                                          offset: nat)
    requires IsRun(states, run) && i <= j < |states| && Locates(states[i].index, row, b, offset)
    ensures Locates(states[j].index, row, b, offset)
    ensures b < |states[i].batches| <= |states[j].batches| && states[j].batches[b] == states[i].batches[b]
    decreases j
  {
    RunKeepsInv(states, run, i);
    if i < j {
      LocatedForever(states, run, i, j - 1, row, b, offset);
      LocatedNext(states, run, j - 1, row, b, offset);
    }
  }

  lemma LocatedNext(states: seq<State>, run: seq<Action>, i: nat, row: nat, b: nat, offset: nat)
    requires IsRun(states, run) && i < |run| && Locates(states[i].index, row, b, offset) && b < |states[i].batches|
    ensures Locates(states[i + 1].index, row, b, offset)
    ensures |states[i].batches| <= |states[i + 1].batches| && states[i + 1].batches[b] == states[i].batches[b]
  {
    RunKeepsInv(states, run, i);
    assert Moves(states[i], run[i], states[i + 1]);
    StepKeepsLocated(states[i], run[i], row, b, offset);
  }

  lemma StepKeepsLocated(s: State, a: Action, row: nat, b: nat, offset: nat)
    requires Inv(s) && Enabled(s, a) && Locates(s.index, row, b, offset) && b < |s.batches|
    ensures Locates(Step(s, a).index, row, b, offset)
    ensures |s.batches| <= |Step(s, a).batches| && Step(s, a).batches[b] == s.batches[b]
  {
    if a.Publish? && !s.index.complete {
      var Placed(slot, kept, truncated) := s.producers[a.p];
      LocationIsStable(s.index, slot, |kept.rows|, kept.bytes, truncated, row, b, offset);
    }
  }

  /** Once complete, complete for ever, and nothing more is published. */
  lemma {:induction false} NothingAfterComplete(states: seq<State>, run: seq<Action>, i: nat, j: nat)
    requires IsRun(states, run) && i <= j < |states| && states[i].index.complete
    ensures states[j].index.complete && states[j].batches == states[i].batches
    decreases j
  {
    if i < j {
      NothingAfterComplete(states, run, i, j - 1);
      assert Moves(states[j - 1], run[j - 1], states[j]);
    }
  }

  lemma StepKeepsTruncated(s: State, a: Action)
    requires Enabled(s, a) && s.index.stats.truncated
    ensures Step(s, a).index.stats.truncated
  {
  }

  /** A truncation once seen is never withdrawn. */
  lemma {:induction false} TruncatedForever(states: seq<State>, run: seq<Action>, i: nat, j: nat)
    requires IsRun(states, run) && i <= j < |states| && states[i].index.stats.truncated
    ensures states[j].index.stats.truncated
    decreases j
  {
    if i < j {
      TruncatedForever(states, run, i, j - 1);
      assert Moves(states[j - 1], run[j - 1], states[j]);
      StepKeepsTruncated(states[j - 1], run[j - 1]);
    }
  }

  /** A push whose write fails leaves everything as it was, and its producer free to push again. */
  lemma FailedWriteChangesNothing(s: State, p: nat)
    requires Enabled(s, PlaceFails(p))
    ensures Step(s, PlaceFails(p)) == s.(producers := s.producers[p := Idle])
  {
  }

  // ---------- the limits, with one producer ----------

  /** What the only producer, if there is one, has planned still fits. */
  ghost predicate FitsAlone(s: State) {
    && |s.producers| <= 1
    && (s.limits.maxRows.Some? ==> s.index.rows <= s.limits.maxRows.value)
    && s.index.residentBytes <= s.limits.ResidentBudget()
    && (|s.producers| == 1 ==>
          match s.producers[0]
          case Idle => true
          case Planned(batch, sliceBytes, plan) =>
            && sliceBytes <= batch.bytes
            && Fits(s, |Kept(batch, sliceBytes, plan).rows|, batch.bytes, !plan.spill)
          case Placed(slot, kept, _) => Fits(s, |kept.rows|, kept.bytes, slot.Resident?))
  }

  ghost predicate Fits(s: State, rows: nat, bytes: nat, resident: bool) {
    && (s.limits.maxRows.Some? ==> s.index.rows + rows <= s.limits.maxRows.value)
    && (resident ==> SaturatingAdd(s.index.residentBytes, bytes) <= s.limits.ResidentBudget())
  }

  lemma FitsAloneStep(s: State, a: Action)
    requires Inv(s) && FitsAlone(s) && Enabled(s, a) && |Concat(Step(s, a).batches)| <= USIZE_MAX
    ensures FitsAlone(Step(s, a))
  {
    match a
    case Plan(p, batch, sliceBytes) =>
    case Place(p, byteLen, retained) =>
    case PlaceFails(p) =>
    case Publish(p) =>
      if !s.index.complete {
        PublishingAppends(s.index, s.batches, s.producers[0].slot, s.producers[0].kept, s.producers[0].truncated);
      }
    case Complete(measured) =>
    case MarkTruncated =>
  }

  /** With a single producer, the row limit and the memory budget hold after every run, even
      though they are checked long before a batch is published. */
  lemma {:induction false} LimitsHoldAlone(states: seq<State>, run: seq<Action>, i: nat)
    requires IsRun(states, run) && i < |states| && |states[0].producers| <= 1
    ensures FitsAlone(states[i])
  {
    if i > 0 {
      LimitsHoldAlone(states, run, i - 1);
      RunKeepsInv(states, run, i - 1);
      assert Moves(states[i - 1], run[i - 1], states[i]);
      FitsAloneStep(states[i - 1], run[i - 1]);
    }
  }

  // ---------- the limits, with several ----------

  /** A limit of no rows lets nothing be planned, a budget of no bytes nothing that weighs something
      stay in memory, and no counter passes the largest number. */
  ghost predicate AtTheEdges(s: State) {
    && s.index.rows <= USIZE_MAX && s.index.residentBytes <= USIZE_MAX
    && (s.limits.maxRows == Some(0) ==>
          s.index.rows == 0 && s.index.residentBytes == 0 && forall p :: 0 <= p < |s.producers| ==>
            s.producers[p].Idle?)
    && (s.limits.ResidentBudget() == 0 ==>
          s.index.residentBytes == 0 && forall p :: 0 <= p < |s.producers| ==> Weightless(s.producers[p]))
  }

  predicate Weightless(p: Producer) {
    match p
    case Idle => true
    case Planned(batch, sliceBytes, plan) => sliceBytes <= batch.bytes && (!plan.spill ==> batch.bytes == 0)
    case Placed(slot, kept, _) => slot.Resident? ==> kept.bytes == 0
  }

  lemma EdgesStep(s: State, a: Action)
    requires AtTheEdges(s) && Enabled(s, a)
    ensures AtTheEdges(Step(s, a)) && Step(s, a).limits == s.limits && |Step(s, a).producers| == |s.producers|
  {
  }

  lemma {:induction false} RunKeepsEdges(states: seq<State>, run: seq<Action>, i: nat)
    requires IsRun(states, run) && i < |states|
    ensures AtTheEdges(states[i]) && states[i].limits == states[0].limits
    ensures |states[i].producers| == |states[0].producers|
  {
    if i > 0 {
      RunKeepsEdges(states, run, i - 1);
      assert Moves(states[i - 1], run[i - 1], states[i]);
      EdgesStep(states[i - 1], run[i - 1]);
    }
  }

  const AS_IT_IS := PushPlan(None, false, false)

  lemma PlanMoves(s: State, p: nat, batch: Batch)
    requires p < |s.producers| && s.producers[p].Idle? && batch.rows != []
    requires s.index.Plan(s.limits, |batch.rows|, batch.bytes) == Ok(AS_IT_IS)
    ensures Moves(s, Plan(p, batch, 0), s.(producers := s.producers[p := Planned(batch, 0, AS_IT_IS)]))
  {
  }

  lemma PlaceMoves(s: State, p: nat, batch: Batch)
    requires p < |s.producers| && s.producers[p] == Planned(batch, 0, AS_IT_IS)
    ensures Moves(s, Place(p, 0, 0), s.(producers := s.producers[p := Placed(Resident(batch), batch, false)]))
  {
  }

  lemma PublishMoves(s: State, p: nat, batch: Batch)
    requires p < |s.producers| && s.producers[p] == Placed(Resident(batch), batch, false) && !s.index.complete
    ensures Moves(s, Publish(p), s.(
      index := s.index.Published(Resident(batch), |batch.rows|, batch.bytes, false),
      producers := s.producers[p := Idle], batches := s.batches + [batch]))
  {
  }

  /** The start of a buffer with `n` producers, the first two where `a` and `b` say. */
  function Start(limits: BufferLimits, n: nat, a: Producer, b: Producer): State
    requires n >= 2
  {
    State(limits, NEW_INDEX, [], seq(n, i => if i == 0 then a else if i == 1 then b else Idle), [])
  }

  predicate FitsNew(limits: BufferLimits, batch: Batch) {
    batch.rows != [] && NEW_INDEX.Plan(limits, |batch.rows|, batch.bytes) == Ok(AS_IT_IS)
  }

  /** Each of two producers plans and places a batch that would fit alone. */
  lemma BothPlaced(limits: BufferLimits, n: nat, a: Batch, b: Batch) returns (states: seq<State>, run: seq<Action>)
    requires n >= 2 && FitsNew(limits, a) && FitsNew(limits, b)
    ensures IsRun(states, run) && |run| == 4 && states[0] == Start(limits, n, Idle, Idle)
    ensures states[4] == Start(limits, n, Placed(Resident(a), a, false), Placed(Resident(b), b, false))
  {
    var pa, pb := Planned(a, 0, AS_IT_IS), Planned(b, 0, AS_IT_IS);
    var qa, qb := Placed(Resident(a), a, false), Placed(Resident(b), b, false);
    var s0, s1, s2 := Start(limits, n, Idle, Idle), Start(limits, n, pa, Idle), Start(limits, n, pa, pb);
    var s3, s4 := Start(limits, n, qa, pb), Start(limits, n, qa, qb);
    states, run := [s0], [];
    PlanMoves(s0, 0, a);
    assert s1.producers == s0.producers[0 := pa];
    states, run := OneMore(states, run, Plan(0, a, 0), s1);
    PlanMoves(s1, 1, b);
    assert s2.producers == s1.producers[1 := pb];
    states, run := OneMore(states, run, Plan(1, b, 0), s2);
    PlaceMoves(s2, 0, a);
    assert s3.producers == s2.producers[0 := qa];
    states, run := OneMore(states, run, Place(0, 0, 0), s3);
    PlaceMoves(s3, 1, b);
    assert s4.producers == s3.producers[1 := qb];
    states, run := OneMore(states, run, Place(1, 0, 0), s4);
  }

  /** Then the first of them publishes. */
  lemma OnePublished(limits: BufferLimits, n: nat, a: Batch, b: Batch) returns (states: seq<State>, run: seq<Action>)
    requires n >= 2 && FitsNew(limits, a) && FitsNew(limits, b) && |a.rows| <= USIZE_MAX
    ensures IsRun(states, run) && |run| == 5 && |states[0].producers| == n && states[0].limits == limits
    ensures states[5] == AfterOne(limits, n, a, b)
  {
    states, run := BothPlaced(limits, n, a, b);
    RowsOfTwo(a, b);
    PublishMoves(states[4], 0, a);
    assert AfterOne(limits, n, a, b).producers == states[4].producers[0 := Idle];
    states, run := OneMore(states, run, Publish(0), AfterOne(limits, n, a, b));
  }

  function AfterOne(limits: BufferLimits, n: nat, a: Batch, b: Batch): State
    requires n >= 2
  {
    Start(limits, n, Idle, Placed(Resident(b), b, false)).(
      index := NEW_INDEX.Published(Resident(a), |a.rows|, a.bytes, false), batches := [a])
  }

  /** Then the other: both are in the index, though they were never weighed together. */
  lemma BothPublished(limits: BufferLimits, n: nat, a: Batch, b: Batch) returns (states: seq<State>, run: seq<Action>)
    requires n >= 2 && FitsNew(limits, a) && FitsNew(limits, b) && |a.rows| + |b.rows| <= USIZE_MAX
    ensures IsRun(states, run) && |states[0].producers| == n && states[0].limits == limits
    ensures states[|run|].index.rows == |a.rows| + |b.rows|
    ensures states[|run|].index.residentBytes == SaturatingAdd(SaturatingAdd(0, a.bytes), b.bytes)
  {
    states, run := OnePublished(limits, n, a, b);
    var s := states[5];
    RowsOfTwo(a, b);
    PublishMoves(s, 1, b);
    assert [a] + [b] == [a, b];
    states, run := OneMore(states, run, Publish(1), s.(
      index := s.index.Published(Resident(b), |b.rows|, b.bytes, false),
      producers := s.producers[1 := Idle], batches := [a, b]));
  }

  /** Every run of `n` producers stays within the row limit. */
  ghost predicate RowLimitHolds(limits: BufferLimits, n: nat) {
    forall states: seq<State>, run: seq<Action>, i: nat ::
      IsRun(states, run) && states[0].limits == limits && |states[0].producers| == n && i < |states| ==>
      (limits.maxRows.Some? ==> states[i].index.rows <= limits.maxRows.value)
  }

  /** Every run of `n` producers stays within the memory budget. */
  ghost predicate BudgetHolds(limits: BufferLimits, n: nat) {
    forall states: seq<State>, run: seq<Action>, i: nat ::
      IsRun(states, run) && states[0].limits == limits && |states[0].producers| == n && i < |states| ==>
      states[i].index.residentBytes <= limits.ResidentBudget()
  }

  lemma RowLimitBroken(limits: BufferLimits, n: nat)
    requires n >= 2 && limits.maxRows.Some? && 0 < limits.maxRows.value < USIZE_MAX
    ensures !RowLimitHolds(limits, n)
  {
    var m := limits.maxRows.value;
    var a, b := Batch(0, seq(m, i => 0), 0), Batch(0, [0], 0);
    var states, run := BothPublished(limits, n, a, b);
    assert states[|run|].index.rows == m + 1;
  }

  lemma BudgetBroken(limits: BufferLimits, n: nat)
    requires n >= 2 && 0 < limits.ResidentBudget() < USIZE_MAX && limits.maxRows != Some(0)
    ensures !BudgetHolds(limits, n)
  {
    var a := Batch(0, [0], limits.ResidentBudget());
    var states, run := BothPublished(limits, n, a, a);
    assert states[|run|].index.residentBytes > limits.ResidentBudget();
  }

  /** The row limit holds in every run exactly when there is at most one producer, or it is absent, or
      lets no row in, or is the largest number there is: two pushes planned before either is published
      are never counted together. */
  lemma RowLimitHoldsExactly(limits: BufferLimits, n: nat)
    ensures RowLimitHolds(limits, n) <==>
      n <= 1 || limits.maxRows.None? || limits.maxRows.value == 0 || limits.maxRows.value >= USIZE_MAX
  {
    if n <= 1 || limits.maxRows.None? || limits.maxRows.value == 0 || limits.maxRows.value >= USIZE_MAX {
      forall states: seq<State>, run: seq<Action>, i: nat | IsRun(states, run) && states[0].limits == limits
        && |states[0].producers| == n && i < |states|
        ensures limits.maxRows.Some? ==> states[i].index.rows <= limits.maxRows.value
      {
        RunKeepsEdges(states, run, i);
        if n <= 1 { LimitsHoldAlone(states, run, i); }
      }
    } else {
      RowLimitBroken(limits, n);
    }
  }

  /** The memory budget holds in every run exactly when there is at most one producer, or nothing can be
      pushed, or nothing that weighs something can stay in memory, or the budget is the largest number. */
  lemma BudgetHoldsExactly(limits: BufferLimits, n: nat)
    ensures BudgetHolds(limits, n) <==>
      n <= 1 || limits.maxRows == Some(0) || limits.ResidentBudget() == 0 || limits.ResidentBudget() >= USIZE_MAX
  {
    if n <= 1 || limits.maxRows == Some(0) || limits.ResidentBudget() == 0 || limits.ResidentBudget() >= USIZE_MAX {
      forall states: seq<State>, run: seq<Action>, i: nat | IsRun(states, run) && states[0].limits == limits
        && |states[0].producers| == n && i < |states|
        ensures states[i].index.residentBytes <= limits.ResidentBudget()
      {
        RunKeepsEdges(states, run, i);
        if n <= 1 { LimitsHoldAlone(states, run, i); }
      }
    } else {
      BudgetBroken(limits, n);
    }
  }

  lemma OneMore(states: seq<State>, run: seq<Action>, a: Action, s: State)
    returns (more: seq<State>, longer: seq<Action>)
    requires IsRun(states, run) && Moves(states[|run|], a, s) && |Concat(s.batches)| <= USIZE_MAX
    ensures more == states + [s] && longer == run + [a] && IsRun(more, longer)
  {
    more, longer := states + [s], run + [a];
    forall i | 0 <= i < |longer| ensures Moves(more[i], longer[i], more[i + 1]) {
      if i < |run| { assert longer[i] == run[i]; }
    }
  }

  lemma RowsOfTwo(a: Batch, b: Batch)
    ensures |Concat([])| == 0 && |Concat([a])| == |a.rows| && |Concat([a, b])| == |a.rows| + |b.rows|
  {
    assert [a, b][..1] == [a] && [a][..0] == [];
  }
}
