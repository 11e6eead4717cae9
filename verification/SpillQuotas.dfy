/** The bound on what a result writes to disk, with one thread pushing.

    A push is charged what its batch weighs in memory when it is planned; what is counted once it is
    published is what the batch took in the file. Here the file may take up to `overhead` bytes more
    than was charged.
  */
module SpillQuotas {
  import opened Machine
  import opened Options
  import opened BufferIndexes
  import opened BufferProducers

  /** A batch sent to disk takes at most `overhead` bytes more there than it was charged. */
  predicate WritesWithin(s: State, a: Action, overhead: nat) {
    a.Place? && a.p < |s.producers| && s.producers[a.p].Planned? && s.producers[a.p].plan.spill ==>
      a.byteLen <= s.producers[a.p].batch.bytes + overhead
  }

  ghost predicate IsMeasuredRun(states: seq<State>, run: seq<Action>, overhead: nat) {
    && IsRun(states, run)
    && (forall i {:trigger run[i]} :: 0 <= i < |run| ==> WritesWithin(states[i], run[i], overhead))
  }

  predicate WithinQuota(s: State) {
    s.limits.maxSpillBytes.Some? ==> s.index.spilledBytes <= s.limits.maxSpillBytes.value
  }

  /** Every run of one producer stays within the spill quota. */
  ghost predicate QuotaHolds(limits: BufferLimits, overhead: nat) {
    forall states: seq<State>, run: seq<Action>, i: nat ::
      IsMeasuredRun(states, run, overhead) && states[0].limits == limits && |states[0].producers| == 1
        && i < |states| ==>
        WithinQuota(states[i])
  }

  // ---------- when the file takes no more than was charged ----------

  /** What the only producer is about to publish still fits the quota. */
  predicate QuotaFits(s: State) {
    && |s.producers| == 1 && WithinQuota(s)
    && (s.limits.maxSpillBytes.Some? ==>
          match s.producers[0]
          case Idle => true
          case Planned(batch, _, plan) =>
            plan.spill ==> SaturatingAdd(s.index.spilledBytes, batch.bytes) <= s.limits.maxSpillBytes.value
          case Placed(slot, _, _) =>
            slot.Spilled? ==> SaturatingAdd(s.index.spilledBytes, slot.ref.byteLen) <= s.limits.maxSpillBytes.value)
  }

  lemma QuotaFitsStep(s: State, a: Action)
    requires QuotaFits(s) && Enabled(s, a) && WritesWithin(s, a, 0)
    ensures QuotaFits(Step(s, a))
  {
  }

  lemma {:induction false} ChargedIsEnough(states: seq<State>, run: seq<Action>, i: nat)
    requires IsMeasuredRun(states, run, 0) && |states[0].producers| == 1 && i < |states|
    ensures QuotaFits(states[i])
  {
    if i > 0 {
      ChargedIsEnough(states, run, i - 1);
      assert Moves(states[i - 1], run[i - 1], states[i]);
      QuotaFitsStep(states[i - 1], run[i - 1]);
    }
  }

  // ---------- when nothing can be sent to disk ----------

  /** Limits under which one producer never sends anything to disk: it may not, nothing may be pushed, memory
      never fills up, the quota lets nothing through that memory would refuse, or the one row allowed
      comes while memory is still empty and weighs too much for the quota if it does for memory. */
  predicate NeverSpills(limits: BufferLimits) {
    || !limits.allowSpill
    || limits.maxRows == Some(0)
    || limits.ResidentBudget() >= USIZE_MAX
    || limits.maxSpillBytes == Some(0)
    || (limits.maxRows == Some(1) && limits.maxSpillBytes.Some?
      && limits.maxSpillBytes.value <= limits.ResidentBudget())
  }

  predicate NothingSpilled(s: State) {
    && s.index.spilledBytes == 0 && (s.index.rows == 0 ==> s.index.residentBytes == 0)
    && forall p :: 0 <= p < |s.producers| ==>
         match s.producers[p]
         case Idle => true
         case Planned(_, _, plan) => !plan.spill
         case Placed(slot, _, _) => slot.Resident?
  }

  lemma PlanStaysInMemory(s: State, rows: nat, bytes: nat)
    requires NeverSpills(s.limits) && NothingSpilled(s) && s.index.residentBytes <= s.limits.ResidentBudget()
    requires s.index.Plan(s.limits, rows, bytes).Ok?
    ensures !s.index.Plan(s.limits, rows, bytes).value.spill
  {
  }

  lemma NothingSpilledStep(s: State, a: Action)
    requires Inv(s) && FitsAlone(s) && NeverSpills(s.limits) && NothingSpilled(s) && Enabled(s, a)
    ensures NothingSpilled(Step(s, a))
  {
    match a
    case Plan(_, batch, _) => PlanStaysInMemory(s, |batch.rows|, batch.bytes);
    case _ =>
  }

  lemma {:induction false} NothingIsSpilled(states: seq<State>, run: seq<Action>, i: nat)
    requires IsRun(states, run) && |states[0].producers| == 1 && NeverSpills(states[0].limits) && i < |states|
    ensures NothingSpilled(states[i]) && states[i].limits == states[0].limits
  {
    if i > 0 {
      NothingIsSpilled(states, run, i - 1);
      RunKeepsInv(states, run, i - 1);
      LimitsHoldAlone(states, run, i - 1);
      assert Moves(states[i - 1], run[i - 1], states[i]);
      NothingSpilledStep(states[i - 1], run[i - 1]);
      RunKeepsEdges(states, run, i);
    }
  }

  // ---------- a run that goes over ----------

  /** The state of a buffer with one producer, which holds nothing or one batch in memory. */
  function Lone(limits: BufferLimits, resident: seq<Batch>, producer: Producer): State
    requires |resident| <= 1
  {
    var index := if resident == [] then NEW_INDEX
                 else NEW_INDEX.Published(Resident(resident[0]), |resident[0].rows|, resident[0].bytes, false);
    State(limits, index, [], [producer], resident)
  }

  lemma OneMoreMeasured(states: seq<State>, run: seq<Action>, overhead: nat, a: Action, s: State)
    returns (more: seq<State>, longer: seq<Action>)
    requires IsMeasuredRun(states, run, overhead)
    requires Moves(states[|run|], a, s) && WritesWithin(states[|run|], a, overhead) && |Concat(s.batches)| <= USIZE_MAX
    ensures more == states + [s] && longer == run + [a] && IsMeasuredRun(more, longer, overhead)
  {
    more, longer := OneMore(states, run, a, s);
    forall i | 0 <= i < |longer| ensures WritesWithin(more[i], longer[i], overhead) {
      if i < |run| { assert longer[i] == run[i]; }
    }
  }

  /** Sends one batch to disk, where it takes `byteLen`. */
  lemma OneSpilled(states: seq<State>, run: seq<Action>, overhead: nat, resident: seq<Batch>, batch: Batch,
                   byteLen: nat)
    returns (more: seq<State>, longer: seq<Action>)
    requires IsMeasuredRun(states, run, overhead) && |resident| <= 1 && batch.rows != []
    requires states[|run|] == Lone(states[0].limits, resident, Idle)
    requires states[|run|].index.Plan(states[0].limits, |batch.rows|, batch.bytes) == Ok(PushPlan(None, false, true))
    requires byteLen <= batch.bytes + overhead && |Concat(resident + [batch])| <= USIZE_MAX
    ensures IsMeasuredRun(more, longer, overhead) && more[0] == states[0] && more[|longer|].limits == states[0].limits
    ensures more[|longer|].index.spilledBytes == SaturatingAdd(0, byteLen)
  {
    var limits, slot := states[0].limits, Spilled(SpillRef(0, byteLen, batch.bytes));
    var planned := Lone(limits, resident, Planned(batch, 0, PushPlan(None, false, true)));
    var placed := Lone(limits, resident, Placed(slot, batch, false)).(file := [batch]);
    var published := placed.(
      index := placed.index.Published(slot, |batch.rows|, batch.bytes, false), producers := [Idle],
      batches := resident + [batch]);
    more, longer := OneMoreMeasured(states, run, overhead, Plan(0, batch, 0), planned);
    more, longer := OneMoreMeasured(more, longer, overhead, Place(0, byteLen, batch.bytes), placed);
    more, longer := OneMoreMeasured(more, longer, overhead, Publish(0), published);
  }

  /** Fills memory with one batch of one row. */
  lemma MemoryFilled(limits: BufferLimits, overhead: nat) returns (states: seq<State>, run: seq<Action>)
    requires limits.maxRows != Some(0) && limits.ResidentBudget() < USIZE_MAX
    ensures IsMeasuredRun(states, run, overhead)
    ensures states[0] == Lone(limits, [], Idle) && states[|run|] == Lone(limits, [Filling(limits)], Idle)
  {
    var batch := Filling(limits);
    var s := Lone(limits, [], Idle);
    states, run := [s], [];
    PlanMoves(s, 0, batch);
    states, run := OneMoreMeasured(states, run, overhead, Plan(0, batch, 0),
      Lone(limits, [], Planned(batch, 0, AS_IT_IS)));
    PlaceMoves(states[1], 0, batch);
    states, run := OneMoreMeasured(states, run, overhead, Place(0, 0, 0),
      Lone(limits, [], Placed(Resident(batch), batch, false)));
    PublishMoves(states[2], 0, batch);
    RowsOfTwo(batch, batch);
    states, run := OneMoreMeasured(states, run, overhead, Publish(0), Lone(limits, [batch], Idle));
  }

  function Filling(limits: BufferLimits): Batch {
    Batch(0, [0], limits.ResidentBudget())
  }

  /** A batch charged all of the quota. */
  function Charged(limits: BufferLimits): Batch
    requires limits.maxSpillBytes.Some?
  {
    Batch(0, [0], limits.maxSpillBytes.value)
  }

  /** Limits under which a batch can be charged all of the quota, and still take a byte more. */
  predicate CanGoOver(limits: BufferLimits) {
    && limits.allowSpill && limits.maxRows != Some(0) && limits.ResidentBudget() < USIZE_MAX
    && limits.maxSpillBytes.Some? && 0 < limits.maxSpillBytes.value < USIZE_MAX
  }

  lemma PlannedAlone(limits: BufferLimits)
    requires CanGoOver(limits) && limits.maxSpillBytes.value > limits.ResidentBudget()
    ensures NEW_INDEX.Plan(limits, 1, limits.maxSpillBytes.value) == Ok(PushPlan(None, false, true))
  {
  }

  lemma PlannedBehind(limits: BufferLimits)
    requires CanGoOver(limits) && limits.maxRows != Some(1)
    ensures Lone(limits, [Filling(limits)], Idle).index.Plan(limits, 1, limits.maxSpillBytes.value)
         == Ok(PushPlan(None, false, true))
  {
  }

  lemma GoesOver(limits: BufferLimits, overhead: nat, states: seq<State>, run: seq<Action>)
    requires IsMeasuredRun(states, run, overhead) && states[0] == Lone(limits, [], Idle)
    requires states[|run|].limits == limits && !WithinQuota(states[|run|])
    ensures !QuotaHolds(limits, overhead)
  {
  }

  /** Where memory is too small for it, the batch goes over alone. */
  lemma GoesOverAlone(limits: BufferLimits, overhead: nat)
    requires CanGoOver(limits) && overhead > 0 && limits.maxSpillBytes.value > limits.ResidentBudget()
    ensures !QuotaHolds(limits, overhead)
  {
    var batch := Charged(limits);
    PlannedAlone(limits);
    RowsOfTwo(batch, batch);
    assert [] + [batch] == [batch];
    var states, run := OneSpilled([Lone(limits, [], Idle)], [], overhead, [], batch, batch.bytes + 1);
    GoesOver(limits, overhead, states, run);
  }

  /** Else it does behind one that fills memory. */
  lemma GoesOverBehind(limits: BufferLimits, overhead: nat)
    requires CanGoOver(limits) && overhead > 0 && limits.maxRows != Some(1)
    ensures !QuotaHolds(limits, overhead)
  {
    var first, batch := Filling(limits), Charged(limits);
    PlannedBehind(limits);
    RowsOfTwo(first, batch);
    assert [first] + [batch] == [first, batch];
    var states, run := MemoryFilled(limits, overhead);
    states, run := OneSpilled(states, run, overhead, [first], batch, batch.bytes + 1);
    GoesOver(limits, overhead, states, run);
  }

  /** With one producer the spill quota holds in every run exactly when the file never takes more than was
      charged, or there is no quota or one beyond the largest number, or nothing is ever sent to disk. */
  lemma QuotaHoldsExactly(limits: BufferLimits, overhead: nat)
    ensures QuotaHolds(limits, overhead) <==>
      || overhead == 0
      || limits.maxSpillBytes.None? || limits.maxSpillBytes.value >= USIZE_MAX
      || NeverSpills(limits)
  {
    if overhead == 0 || limits.maxSpillBytes.None? || limits.maxSpillBytes.value >= USIZE_MAX || NeverSpills(limits) {
      forall states: seq<State>, run: seq<Action>, i: nat |
        IsMeasuredRun(states, run, overhead) && states[0].limits == limits && |states[0].producers| == 1 && i < |states|
        ensures WithinQuota(states[i])
      {
        RunKeepsEdges(states, run, i);
        SpilledIsCounted(states, run, i);
        if overhead == 0 {
          ChargedIsEnough(states, run, i);
        } else if NeverSpills(limits) {
          NothingIsSpilled(states, run, i);
        }
      }
    } else if limits.maxSpillBytes.value > limits.ResidentBudget() {
      GoesOverAlone(limits, overhead);
    } else {
      GoesOverBehind(limits, overhead);
    }
  }

  lemma {:induction false} SpilledIsCounted(states: seq<State>, run: seq<Action>, i: nat)
    requires IsRun(states, run) && i < |states|
    ensures states[i].index.spilledBytes <= USIZE_MAX
  {
    if i > 0 {
      SpilledIsCounted(states, run, i - 1);
      assert Moves(states[i - 1], run[i - 1], states[i]);
    }
  }
}
