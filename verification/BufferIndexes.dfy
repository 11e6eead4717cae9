/** The index of a result buffer: what is decided and published under its lock. */
module BufferIndexes {
  import opened Machine
  import opened Options

  type Row = int

  /** A batch, with the memory it reports. */
  datatype Batch = Batch(schema: nat, rows: seq<Row>, bytes: nat)

  /** A place in the spill file, modelled as the batches appended to it: the bytes written there, and
      the memory the batch reported then. */
  datatype SpillRef = SpillRef(at: nat, byteLen: nat, retained: nat)

  datatype Slot = Resident(batch: Batch) | Spilled(ref: SpillRef)

  datatype ExecStats = ExecStats(rows: nat, bytes: nat, batches: nat, truncated: bool)

  datatype DataError =
    | AlreadyComplete | RowLimitReached | MemoryFull | SpillQuotaReached | SchemaMismatch | SpillFailed | Cancelled
    | PageTooLarge

  datatype BufferLimits = BufferLimits(
    memoryBudget: nat, maxRows: Option<nat>, maxSpillBytes: Option<nat>, allowSpill: bool) {
    function CacheBudget(): nat {
      if allowSpill then memoryBudget / 4 else 0
    }

    function ResidentBudget(): nat {
      memoryBudget - CacheBudget()
    }
  }

  datatype PushPlan = PushPlan(keepRows: Option<nat>, truncated: bool, spill: bool)

  datatype BufferIndex = BufferIndex(
    starts: seq<nat>, slots: seq<Slot>, rows: nat,
    residentBytes: nat, spilledBytes: nat, spilledBatches: nat,
    complete: bool, stats: ExecStats) {

    /** Where a batch of this size would go, how many of its rows, or why it is refused. */
    function Plan(limits: BufferLimits, rows': nat, bytes: nat): Result<PushPlan, DataError> {
      if complete then Err(AlreadyComplete)
      else if limits.maxRows.Some? && rows >= limits.maxRows.value then Err(RowLimitReached)
      else
        var cut := limits.maxRows.Some? && rows' > limits.maxRows.value - rows;
        var keep := if cut then Some(limits.maxRows.value - rows) else None;
        var spill := SaturatingAdd(residentBytes, bytes) > limits.ResidentBudget();
        if spill && !limits.allowSpill then Err(MemoryFull)
        else if spill && limits.maxSpillBytes.Some? && SaturatingAdd(spilledBytes, bytes) > limits.maxSpillBytes.value
        then Err(SpillQuotaReached)
        else Ok(PushPlan(keep, cut, spill))
    }

    /** Publishes an already placed batch. */
    function Published(slot: Slot, count: nat, bytes: nat, truncated: bool): BufferIndex {
      BufferIndex(
        starts + [rows], slots + [slot], SaturatingAdd(rows, count),
        if slot.Resident? then SaturatingAdd(residentBytes, bytes) else residentBytes,
        if slot.Spilled? then SaturatingAdd(spilledBytes, slot.ref.byteLen) else spilledBytes,
        if slot.Spilled? then SaturatingAdd(spilledBatches, 1) else spilledBatches,
        complete,
        ExecStats(SaturatingAdd(stats.rows, count), SaturatingAdd(stats.bytes, bytes),
                  SaturatingAdd(stats.batches, 1), stats.truncated || truncated))
    }

    /** The caller's measurements win, but for a truncation seen here. */
    function Completed(measured: ExecStats): BufferIndex {
      this.(complete := true, stats := ExecStats(
        if measured.rows == 0 then stats.rows else measured.rows,
        if measured.bytes == 0 then stats.bytes else measured.bytes,
        if measured.batches == 0 then stats.batches else measured.batches,
        measured.truncated || stats.truncated))
    }
  }

  const NEW_INDEX: BufferIndex := BufferIndex([], [], 0, 0, 0, 0, false, ExecStats(0, 0, 0, false))

  // ---------- the index describes a sequence of batches ----------

  function Concat(batches: seq<Batch>): seq<Row> {
    if batches == [] then [] else Concat(batches[..|batches| - 1]) + batches[|batches| - 1].rows
  }

  lemma {:induction false} ConcatPrefix(batches: seq<Batch>, i: nat)
    requires i <= |batches|
    ensures |Concat(batches[..i])| <= |Concat(batches)|
    ensures Concat(batches[..i]) == Concat(batches)[..|Concat(batches[..i])|]
    decreases |batches|
  {
    var n := |batches| - 1;
    if i == |batches| {
      assert batches[..i] == batches;
    } else {
      assert batches[..n][..i] == batches[..i];
      ConcatPrefix(batches[..n], i);
    }
  }

  /** `starts` are the sums of the sizes before each batch; no batch is empty. */
  ghost predicate Describes(index: BufferIndex, batches: seq<Batch>) {
    && |index.starts| == |index.slots| == |batches|
    && (forall i :: 0 <= i < |batches| ==> batches[i].rows != [])
    && (forall i :: 0 <= i < |batches| ==> index.starts[i] == |Concat(batches[..i])|)
    && index.rows == |Concat(batches)|
  }

  /** One past the last row of a batch. */
  function EndOf(index: BufferIndex, i: nat): nat
    requires i < |index.starts|
  {
    if i + 1 < |index.starts| then index.starts[i + 1] else index.rows
  }

  /** `row` is row `offset` of batch `i`. */
  predicate Locates(index: BufferIndex, row: nat, i: nat, offset: nat) {
    i < |index.starts| && index.starts[i] <= row < EndOf(index, i) && offset == row - index.starts[i]
  }

  lemma BatchEnds(index: BufferIndex, batches: seq<Batch>, i: nat)
    requires Describes(index, batches) && i < |batches|
    ensures EndOf(index, i) == index.starts[i] + |batches[i].rows|
    ensures index.starts[i] < EndOf(index, i) <= index.rows
    ensures Concat(batches)[index.starts[i]..EndOf(index, i)] == batches[i].rows
  {
    assert batches[..i + 1][..i] == batches[..i];
    assert Concat(batches[..i + 1]) == Concat(batches[..i]) + batches[i].rows;
    if i + 1 == |batches| { assert batches[..i + 1] == batches; }
    ConcatPrefix(batches, i + 1);
    var all, upTo := Concat(batches), Concat(batches[..i + 1]);
    assert all[index.starts[i]..|upTo|] == all[..|upTo|][index.starts[i]..];
  }

  lemma {:induction false} StartsIncrease(index: BufferIndex, batches: seq<Batch>, i: nat, j: nat)
    requires Describes(index, batches) && i < j < |batches|
    ensures index.starts[i] < index.starts[j]
    decreases j - i
  {
    BatchEnds(index, batches, i);
    if i + 1 < j { StartsIncrease(index, batches, i + 1, j); }
  }

  /** The starts begin at 0 and increase strictly. */
  lemma StartsAreOffsets(index: BufferIndex, batches: seq<Batch>)
    requires Describes(index, batches)
    ensures index.starts != [] ==> index.starts[0] == 0
    ensures forall i, j :: 0 <= i < j < |index.starts| ==> index.starts[i] < index.starts[j]
  {
    forall i, j | 0 <= i < j < |index.starts| ensures index.starts[i] < index.starts[j] {
      StartsIncrease(index, batches, i, j);
    }
    if index.starts != [] { assert batches[..0] == []; }
  }

  /** What `Locates` finds is the row of the concatenation, and nothing else can be found. */
  lemma LocatedRow(index: BufferIndex, batches: seq<Batch>, row: nat, i: nat, offset: nat)
    requires Describes(index, batches) && Locates(index, row, i, offset)
    ensures offset < |batches[i].rows| && row < |Concat(batches)|
    ensures batches[i].rows[offset] == Concat(batches)[row]
    ensures forall j: nat, other: nat :: Locates(index, row, j, other) ==> j == i && other == offset
  {
    BatchEnds(index, batches, i);
    assert Concat(batches)[index.starts[i]..EndOf(index, i)][offset] == Concat(batches)[row];
    forall j: nat, other: nat | Locates(index, row, j, other) ensures j == i && other == offset {
      LocatedOnce(index, batches, row, i, offset, j, other);
    }
  }

  lemma LocatedOnce(index: BufferIndex, batches: seq<Batch>, row: nat, i: nat, offset: nat, j: nat, other: nat)
    requires Describes(index, batches) && Locates(index, row, i, offset) && Locates(index, row, j, other)
    ensures j == i && other == offset
  {
    if j < i {
      BatchEnds(index, batches, j);
      StartsUpTo(index, batches, j + 1, i);
    } else if i < j {
      BatchEnds(index, batches, i);
      StartsUpTo(index, batches, i + 1, j);
    }
  }

  lemma StartsUpTo(index: BufferIndex, batches: seq<Batch>, i: nat, j: nat)
    requires Describes(index, batches) && i <= j < |batches|
    ensures index.starts[i] <= index.starts[j]
  {
    if i < j { StartsIncrease(index, batches, i, j); }
  }

  /** Publishing adds the batch at the end of the concatenation. */
  lemma PublishingAppends(index: BufferIndex, batches: seq<Batch>, slot: Slot, batch: Batch, truncated: bool)
    requires Describes(index, batches) && batch.rows != [] && index.rows + |batch.rows| <= USIZE_MAX
    ensures Describes(index.Published(slot, |batch.rows|, batch.bytes, truncated), batches + [batch])
    ensures Concat(batches + [batch]) == Concat(batches) + batch.rows
  {
    var all := batches + [batch];
    assert all[..|batches|] == batches;
    forall i | 0 <= i < |batches| ensures all[..i] == batches[..i] {
    }
  }

  /** A row once located is located at the same place for ever after. */
  lemma LocationIsStable(index: BufferIndex, slot: Slot, count: nat, bytes: nat, truncated: bool, row: nat, i: nat,
                         offset: nat)
    requires Locates(index, row, i, offset) && |index.starts| == |index.slots|
    ensures Locates(index.Published(slot, count, bytes, truncated), row, i, offset)
  {
  }
}
