/** The result buffer fed by one producer: batches in memory, on disk or in a cache read as
    the plain concatenation of the rows that were accepted. */
module Buffer {
  import opened Machine
  import opened Options
  import opened BufferIndexes
  import opened PageCaches

  /** What the operating system answers while a batch is written. */
  datatype SpillOutcome = Written(byteLen: nat, retained: nat) | WriteFails

  /** What happens while a batch is read back; `decoded` is the memory it reports then. */
  datatype ReadOutcome = ReadOutcome(cancelledBefore: bool, readFails: bool, cancelledAfter: bool, decoded: nat) {
    predicate Fails() { readFails || cancelledAfter }
  }

  datatype Pressure = Ready | RowLimit | Saturated | Complete

  ghost function ResidentSum(slots: seq<Slot>): nat {
    if slots == [] then 0
    else
      var last := slots[|slots| - 1];
      ResidentSum(slots[..|slots| - 1]) + if last.Resident? then last.batch.bytes else 0
  }

  /** The resident batches are counted, and fit their share of the budget. */
  ghost predicate WithinBudget(index: BufferIndex, limits: BufferLimits) {
    && index.residentBytes <= limits.ResidentBudget()
    && index.residentBytes == if ResidentSum(index.slots) > USIZE_MAX then USIZE_MAX else ResidentSum(index.slots)
  }

  ghost function SpilledSum(slots: seq<Slot>): nat {
    if slots == [] then 0
    else
      var last := slots[|slots| - 1];
      SpilledSum(slots[..|slots| - 1]) + if last.Spilled? then last.ref.byteLen else 0
  }

  /** What the batches on disk took there is counted; and until the end, so are rows and batches. */
  ghost predicate Counted(index: BufferIndex, batches: seq<Batch>) {
    && index.spilledBytes == (if SpilledSum(index.slots) > USIZE_MAX then USIZE_MAX else SpilledSum(index.slots))
    && (!index.complete ==> index.stats.rows == |Concat(batches)| && index.stats.batches == |batches|)
  }

  lemma PublishedCounted(index: BufferIndex, batches: seq<Batch>, slot: Slot, kept: Batch, truncated: bool)
    requires Counted(index, batches) && Describes(index, batches)
    requires |Concat(batches)| + |kept.rows| <= USIZE_MAX && kept.rows != []
    ensures Counted(index.Published(slot, |kept.rows|, kept.bytes, truncated), batches + [kept])
  {
    var slots := index.slots + [slot];
    assert slots[..|index.slots|] == index.slots;
    assert (batches + [kept])[..|batches|] == batches;
    NoMoreThanRows(index, batches);
  }

  lemma {:induction false} NoMoreThanRows(index: BufferIndex, batches: seq<Batch>)
    requires Describes(index, batches)
    ensures |batches| <= |Concat(batches)|
  {
    EachAddsARow(batches);
  }

  lemma {:induction false} EachAddsARow(batches: seq<Batch>)
    requires forall i :: 0 <= i < |batches| ==> batches[i].rows != []
    ensures |batches| <= |Concat(batches)|
    decreases |batches|
  {
    if batches != [] { EachAddsARow(batches[..|batches| - 1]); }
  }

  lemma PublishedWithinBudget(index: BufferIndex, limits: BufferLimits, slot: Slot, rows: nat, bytes: nat,
                              count: nat, kept: nat, truncated: bool)
    requires WithinBudget(index, limits)
    requires index.Plan(limits, rows, bytes).Ok? && (slot.Resident? <==> !index.Plan(limits, rows, bytes).value.spill)
    requires kept <= bytes && (slot.Resident? ==> slot.batch.bytes == kept)
    ensures WithinBudget(index.Published(slot, count, kept, truncated), limits)
  {
    var slots := index.slots + [slot];
    assert slots[..|index.slots|] == index.slots;
  }

  /** Batch `i` is in memory, or in the spill file where its slot says. */
  ghost predicate Stored(index: BufferIndex, file: Option<seq<Batch>>, i: nat, batch: Batch)
    requires i < |index.slots|
  {
    match index.slots[i]
    case Resident(held) => held == batch
    case Spilled(ref) => file.Some? && ref.at < |file.value| && file.value[ref.at] == batch
  }

  ghost predicate AllStored(index: BufferIndex, file: Option<seq<Batch>>, batches: seq<Batch>, schema: nat) {
    |index.slots| == |batches| && forall i :: 0 <= i < |batches| ==>
      batches[i].schema == schema && Stored(index, file, i, batches[i])
  }

  lemma PublishedStored(index: BufferIndex, file: Option<seq<Batch>>, batches: seq<Batch>, schema: nat, slot: Slot,
                        kept: Batch,
                        count: nat, bytes: nat, truncated: bool)
    requires AllStored(index, file, batches, schema) && kept.schema == schema
    requires match slot
      case Resident(held) => held == kept
      case Spilled(ref) => file.Some? && ref.at < |file.value| && file.value[ref.at] == kept
    ensures AllStored(index.Published(slot, count, bytes, truncated), file, batches + [kept], schema)
  {
    forall i | 0 <= i < |batches| + 1
      ensures Stored(index.Published(slot, count, bytes, truncated), file, i, (batches + [kept])[i]) {
      assert i < |batches| ==> Stored(index, file, i, batches[i]);
    }
  }

  /** The rows kept of what was offered. */
  ghost function Cut(limits: BufferLimits, rows: seq<Row>): seq<Row> {
    if limits.maxRows.Some? && |rows| > limits.maxRows.value then rows[..limits.maxRows.value] else rows
  }

  /** How many of `count` rows still come in. */
  function RoomFor(limits: BufferLimits, held: nat, count: nat): nat {
    if limits.maxRows.None? || held + count <= limits.maxRows.value then count
    else if held < limits.maxRows.value then limits.maxRows.value - held
    else 0
  }

  /** As long as the limit is not reached, what the plan keeps of a batch is what the limit
      leaves of the rows offered. */
  lemma CuttingAppends(index: BufferIndex, limits: BufferLimits, contents: seq<Row>, offered: seq<Row>, batch: Batch,
                       kept: seq<Row>)
    requires contents == Cut(limits, offered) && |contents| == index.rows && batch.rows != []
    requires index.Plan(limits, |batch.rows|, batch.bytes).Ok?
    requires var keep := index.Plan(limits, |batch.rows|, batch.bytes).value.keepRows;
      kept == if keep.Some? then batch.rows[..keep.value] else batch.rows
    ensures Cut(limits, offered + batch.rows) == contents + kept
    ensures kept != [] && |kept| <= |batch.rows|
    ensures |contents + kept| < |offered + batch.rows| ==> index.Plan(limits, |batch.rows|, batch.bytes).value.truncated
    ensures |kept| == RoomFor(limits, |contents|, |batch.rows|)
    ensures index.Plan(limits, |batch.rows|, batch.bytes).value.truncated <==> |kept| < |batch.rows|
  {
    assert Cut(limits, offered) == offered;
  }

  /** What a buffer keeps: the index describes the accepted batches, which are where their slots say and are
      the rows offered, cut at the limit; the cache holds some of those on disk; and the counters count. */
  ghost predicate Sound(index: BufferIndex, limits: BufferLimits, schema: nat, file: Option<seq<Batch>>,
                        cache: seq<Page>, accepted: seq<Batch>, offered: seq<Row>)
  {
    && RowsAreCut(index, limits, accepted, offered) && limits.memoryBudget <= USIZE_MAX
    && AllStored(index, file, accepted, schema)
    && Fits(cache, limits.CacheBudget()) && PagesOf(index, cache, accepted)
    && WithinBudget(index, limits) && Counted(index, accepted)
  }

  /** The rows accepted are those offered, cut at the limit, and a shortfall is told. */
  ghost predicate RowsAreCut(index: BufferIndex, limits: BufferLimits, accepted: seq<Batch>, offered: seq<Row>) {
    && Describes(index, accepted) && |offered| <= USIZE_MAX
    && Concat(accepted) == Cut(limits, offered)
    && (|Concat(accepted)| < |offered| ==> index.stats.truncated)
  }

  lemma PublishedRows(index: BufferIndex, limits: BufferLimits, accepted: seq<Batch>, offered: seq<Row>,
                      slot: Slot, batch: Batch, kept: Batch, plan: PushPlan)
    requires RowsAreCut(index, limits, accepted, offered)
    requires batch.rows != [] && |offered| + |batch.rows| <= USIZE_MAX
    requires index.Plan(limits, |batch.rows|, batch.bytes) == Ok(plan)
    requires kept.rows == if plan.keepRows.Some? then batch.rows[..plan.keepRows.value] else batch.rows
    ensures kept.rows != [] && |Concat(accepted)| + |kept.rows| <= USIZE_MAX
    ensures RowsAreCut(index.Published(slot, |kept.rows|, kept.bytes, plan.truncated), limits,
                       accepted + [kept], offered + batch.rows)
    ensures kept.rows == batch.rows[..RoomFor(limits, |Concat(accepted)|, |batch.rows|)]
    ensures plan.truncated <==> RoomFor(limits, |Concat(accepted)|, |batch.rows|) < |batch.rows|
  {
    CuttingAppends(index, limits, Concat(accepted), offered, batch, kept.rows);
    PublishingAppends(index, accepted, slot, kept, plan.truncated);
  }

  /** Publishing a batch as planned keeps all that, and adds what the limit leaves of it. */
  lemma PublishedIsSound(index: BufferIndex, limits: BufferLimits, schema: nat, file: Option<seq<Batch>>,
                         cache: seq<Page>, accepted: seq<Batch>, offered: seq<Row>,
                         slot: Slot, batch: Batch, kept: Batch, plan: PushPlan)
    requires Sound(index, limits, schema, file, cache, accepted, offered)
    requires batch.rows != [] && kept.bytes <= batch.bytes && batch.schema == kept.schema == schema
    requires |offered| + |batch.rows| <= USIZE_MAX
    requires index.Plan(limits, |batch.rows|, batch.bytes) == Ok(plan)
    requires kept.rows == if plan.keepRows.Some? then batch.rows[..plan.keepRows.value] else batch.rows
    requires match slot
      case Resident(b) => !plan.spill && b == kept
      case Spilled(ref) => plan.spill && file.Some? && ref.at < |file.value| && file.value[ref.at] == kept
    ensures Sound(index.Published(slot, |kept.rows|, kept.bytes, plan.truncated), limits, schema, file, cache,
                  accepted + [kept], offered + batch.rows)
    ensures kept.rows == batch.rows[..RoomFor(limits, |Concat(accepted)|, |batch.rows|)]
    ensures plan.truncated <==> RoomFor(limits, |Concat(accepted)|, |batch.rows|) < |batch.rows|
  {
    PublishedRows(index, limits, accepted, offered, slot, batch, kept, plan);
    PublishedCounted(index, accepted, slot, kept, plan.truncated);
    PublishedStored(index, file, accepted, schema, slot, kept, |kept.rows|, kept.bytes, plan.truncated);
    PublishedWithinBudget(index, limits, slot, |batch.rows|, batch.bytes, |kept.rows|, kept.bytes, plan.truncated);
    PagesStayTheSame(index, index.Published(slot, |kept.rows|, kept.bytes, plan.truncated), cache, accepted, kept);
  }

  ghost predicate PagesOf(index: BufferIndex, cache: seq<Page>, accepted: seq<Batch>)
    requires |index.slots| == |accepted|
  {
    forall page :: page in cache ==>
      page.position < |accepted| && index.slots[page.position].Spilled? && page.batch == accepted[page.position]
  }

  lemma PagesStayTheSame(index: BufferIndex, more: BufferIndex, cache: seq<Page>, accepted: seq<Batch>, kept: Batch)
    requires |index.slots| == |accepted| && PagesOf(index, cache, accepted)
    requires |more.slots| == |accepted| + 1 && more.slots[..|accepted|] == index.slots
    ensures PagesOf(more, cache, accepted + [kept])
  {
    forall page | page in cache ensures more.slots[page.position] == index.slots[page.position] {
      assert more.slots[..|accepted|][page.position] == index.slots[page.position];
    }
  }

  class ResultBuffer {
    const schema: nat
    const limits: BufferLimits
    var index: BufferIndex
    /** The spill file, created on first need. */
    var file: Option<seq<Batch>>
    /** Decoded pages. */
    var cache: seq<Page>

    /** The batches as they were accepted, and all the rows the producer offered with them. */
    ghost var accepted: seq<Batch>
    ghost var offered: seq<Row>

    ghost predicate Valid()
      reads this
    {
      Sound(index, limits, schema, file, cache, accepted, offered)
    }

    /** What a reader sees: the accepted rows, one after the other. */
    ghost function Contents(): seq<Row>
      reads this
    {
      Concat(accepted)
    }

    constructor (schema: nat, limits: BufferLimits)
      requires limits.memoryBudget <= USIZE_MAX
      ensures Valid() && Contents() == [] && offered == [] && this.schema == schema && this.limits == limits
    {
      this.schema, this.limits := schema, limits;
      index, file, cache := NEW_INDEX, None, [];
      accepted, offered := [], [];
    }

    // ---------- the producer ----------

    /** What pushing a batch answers. */
    function Outcome(batch: Batch, disk: SpillOutcome): Result<Option<nat>, DataError>
      reads this
    {
      if batch.rows == [] then Ok(None)
      else if batch.schema != schema then Err(DataError.SchemaMismatch)
      else
        match index.Plan(limits, |batch.rows|, batch.bytes)
        case Err(e) => Err(e)
        case Ok(plan) => if plan.spill && disk.WriteFails? then Err(SpillFailed) else Ok(Some(|index.slots|))
    }

    /** The batch fits beside what is in memory. */
    ghost predicate FitsInMemory(bytes: nat)
      reads this
    {
      ResidentSum(index.slots) + bytes <= limits.ResidentBudget() || limits.ResidentBudget() >= USIZE_MAX
    }

    /** The batch, charged what it weighs in memory, fits beside what the file holds. */
    ghost predicate QuotaHasRoom(bytes: nat)
      reads this
    {
      || limits.maxSpillBytes.None?
      || SpilledSum(index.slots) + bytes <= limits.maxSpillBytes.value
      || limits.maxSpillBytes.value >= USIZE_MAX
    }

    /** What a batch that has rows needs to be taken. */
    ghost predicate Takes(batch: Batch, disk: SpillOutcome)
      reads this
    {
      && IsOpenTo(batch)
      && (FitsInMemory(batch.bytes) || (limits.allowSpill && QuotaHasRoom(batch.bytes) && !disk.WriteFails?))
    }

    /** The schema is right, the stream is open and the limit leaves a row. */
    ghost predicate IsOpenTo(batch: Batch)
      reads this
    {
      && batch.schema == schema && !index.complete
      && (limits.maxRows.Some? ==> |Contents()| < limits.maxRows.value)
    }

    /** Is this the first reason, in their order, to refuse a batch? */
    ghost predicate Justified(error: DataError, batch: Batch, disk: SpillOutcome)
      reads this
    {
      match error
      case SchemaMismatch => batch.schema != schema
      case AlreadyComplete => batch.schema == schema && index.complete
      case RowLimitReached => batch.schema == schema && !index.complete && !IsOpenTo(batch)
      case MemoryFull => IsOpenTo(batch) && !FitsInMemory(batch.bytes) && !limits.allowSpill
      case SpillQuotaReached =>
        IsOpenTo(batch) && !FitsInMemory(batch.bytes) && limits.allowSpill && !QuotaHasRoom(batch.bytes)
      case SpillFailed =>
        && IsOpenTo(batch) && !FitsInMemory(batch.bytes) && limits.allowSpill && QuotaHasRoom(batch.bytes)
        && disk.WriteFails?
      case _ => false
    }

    /** A batch that has rows is taken exactly when it can be, and refused for the first reason that holds. */
    lemma TakenExactly(batch: Batch, disk: SpillOutcome)
      requires Valid() && batch.rows != []
      ensures Outcome(batch, disk).Ok? <==> Takes(batch, disk)
      ensures Outcome(batch, disk).Err? ==> Justified(Outcome(batch, disk).error, batch, disk)
      ensures Outcome(batch, disk).Ok? ==> Outcome(batch, disk).value == Some(|accepted|)
    {
    }

    /** It stays in memory exactly when it fits there. */
    lemma SpilledExactly(batch: Batch)
      requires Valid() && index.Plan(limits, |batch.rows|, batch.bytes).Ok?
      ensures index.Plan(limits, |batch.rows|, batch.bytes).value.spill <==> !FitsInMemory(batch.bytes)
    {
    }

    /** Decides, places, publishes. `sliceBytes` is the memory a trimmed batch reports: never
        more than the whole one. */
    method Push(batch: Batch, sliceBytes: nat, disk: SpillOutcome) returns (r: Result<Option<nat>, DataError>)
      requires Valid() && sliceBytes <= batch.bytes && |offered| + |batch.rows| <= USIZE_MAX
      modifies this
      ensures Valid() && r == old(Outcome(batch, disk))
      ensures cache == old(cache) && index.complete == old(index.complete)
      ensures !(r.Ok? && r.value.Some?) ==> index == old(index) && accepted == old(accepted) && offered == old(offered)
      ensures batch.rows == [] ==> r == Ok(None)
      ensures batch.rows != [] ==> if old(Takes(batch, disk)) then r == Ok(Some(|old(accepted)|))
                                   else r.Err? && old(Justified(r.error, batch, disk))
      ensures r.Ok? && r.value.Some? ==>
        && offered == old(offered) + batch.rows
        && |accepted| == |old(accepted)| + 1 && accepted[..|old(accepted)|] == old(accepted)
        && Contents() == Cut(limits, offered)
        && accepted[|old(accepted)|].rows == batch.rows[..RoomFor(limits, |old(Contents())|, |batch.rows|)]
        && (index.slots[|old(accepted)|].Resident? <==> old(FitsInMemory(batch.bytes)))
        && (index.stats.truncated
            <==> old(index.stats.truncated) || RoomFor(limits, |old(Contents())|, |batch.rows|) < |batch.rows|)
    {
      if batch.rows != [] { TakenExactly(batch, disk); }
      if batch.rows == [] {
        return Ok(None);
      }
      if batch.schema != schema {
        return Err(DataError.SchemaMismatch);
      }
      var planned := index.Plan(limits, |batch.rows|, batch.bytes);
      if planned.Err? {
        return Err(planned.error);
      }
      r := PlaceAndPublish(batch, sliceBytes, disk, planned.value);
    }

    method PlaceAndPublish(batch: Batch, sliceBytes: nat, disk: SpillOutcome, plan: PushPlan)
      returns (r: Result<Option<nat>, DataError>)
      requires Valid() && sliceBytes <= batch.bytes && |offered| + |batch.rows| <= USIZE_MAX
      requires batch.rows != [] && batch.schema == schema
      requires index.Plan(limits, |batch.rows|, batch.bytes) == Ok(plan)
      modifies this
      ensures Valid() && cache == old(cache) && index.complete == old(index.complete)
      ensures r == if plan.spill && disk.WriteFails? then Err(SpillFailed) else Ok(Some(|old(index.slots)|))
      ensures r.Err? ==> index == old(index) && accepted == old(accepted) && offered == old(offered)
      ensures r.Ok? ==>
        && offered == old(offered) + batch.rows
        && |accepted| == |old(accepted)| + 1 && accepted[..|old(accepted)|] == old(accepted)
        && accepted[|old(accepted)|].rows == batch.rows[..RoomFor(limits, |old(Contents())|, |batch.rows|)]
        && (index.slots[|old(accepted)|].Resident? <==> old(FitsInMemory(batch.bytes)))
        && (index.stats.truncated
            <==> old(index.stats.truncated) || RoomFor(limits, |old(Contents())|, |batch.rows|) < |batch.rows|)
    {
      SpilledExactly(batch);
      var kept := if plan.keepRows.Some? then batch.(rows := batch.rows[..plan.keepRows.value], bytes := sliceBytes)
        else batch;
      var placed := Place(plan, kept, disk);
      if placed.Err? {
        return Err(placed.error);
      }
      Publish(placed.value, batch, kept, plan);
      return Ok(Some(|index.slots| - 1));
    }

    /** Places a batch in memory or at the end of the spill file, outside the index. */
    method Place(plan: PushPlan, kept: Batch, disk: SpillOutcome) returns (slot: Result<Slot, DataError>)
      requires Valid() && kept.schema == schema
      modifies this`file
      ensures Valid()
      ensures slot.Err? <==> plan.spill && disk.WriteFails?
      ensures slot.Err? ==> slot.error == SpillFailed
      ensures slot.Ok? && !plan.spill ==> slot.value == Resident(kept)
      ensures slot.Ok? && plan.spill ==>
        slot.value.Spilled? && file.Some? && slot.value.ref.at < |file.value| && file.value[slot.value.ref.at] == kept
    {
      if !plan.spill {
        return Ok(Resident(kept));
      }
      if disk.WriteFails? {
        return Err(SpillFailed);
      }
      var content := if file.Some? then file.value else [];
      file := Some(content + [kept]);
      assert forall i :: 0 <= i < |accepted| ==> Stored(index, old(file), i, accepted[i]);
      return Ok(Spilled(SpillRef(|content|, disk.byteLen, disk.retained)));
    }

    method Publish(slot: Slot, batch: Batch, kept: Batch, plan: PushPlan)
      requires Valid() && batch.rows != [] && kept.bytes <= batch.bytes && batch.schema == kept.schema == schema
      requires |offered| + |batch.rows| <= USIZE_MAX
      requires index.Plan(limits, |batch.rows|, batch.bytes) == Ok(plan)
      requires kept.rows == if plan.keepRows.Some? then batch.rows[..plan.keepRows.value] else batch.rows
      requires match slot
        case Resident(b) => !plan.spill && b == kept
        case Spilled(ref) => plan.spill && file.Some? && ref.at < |file.value| && file.value[ref.at] == kept
      modifies this`index, this`accepted, this`offered
      ensures Valid() && index.complete == old(index.complete) && |index.slots| == |old(index.slots)| + 1
      ensures accepted == old(accepted) + [kept] && offered == old(offered) + batch.rows
      ensures index.slots == old(index.slots) + [slot]
      ensures kept.rows == batch.rows[..RoomFor(limits, |old(Contents())|, |batch.rows|)]
      ensures index.stats.truncated
        <==> old(index.stats.truncated) || RoomFor(limits, |old(Contents())|, |batch.rows|) < |batch.rows|
    {
      PublishedIsSound(index, limits, schema, file, cache, accepted, offered, slot, batch, kept, plan);
      index := index.Published(slot, |kept.rows|, kept.bytes, plan.truncated);
      accepted, offered := accepted + [kept], offered + batch.rows;
    }

    /** Why the buffer takes no more batches, or that it does. */
    method CheckPressure() returns (p: Pressure)
      requires Valid()
      ensures p == PressureNow()
    {
      if index.complete {
        return Complete;
      }
      if limits.maxRows.Some? && index.rows >= limits.maxRows.value {
        return RowLimit;
      }
      if index.residentBytes >= limits.ResidentBudget() {
        if !limits.allowSpill {
          return Saturated;
        }
        if limits.maxSpillBytes.Some? && index.spilledBytes >= limits.maxSpillBytes.value {
          return Saturated;
        }
      }
      return Ready;
    }

    function PressureNow(): Pressure
      reads this
    {
      if index.complete then Complete
      else if limits.maxRows.Some? && index.rows >= limits.maxRows.value then RowLimit
      else if index.residentBytes >= limits.ResidentBudget() &&
              (!limits.allowSpill || (limits.maxSpillBytes.Some? && index.spilledBytes >= limits.maxSpillBytes.value))
      then Saturated
      else Ready
    }

    /** What is answered holds, and when nothing is in the way a batch of a row is taken. */
    lemma PressureExactly(row: Row)
      requires Valid()
      ensures PressureNow() == Complete <==> index.complete
      ensures PressureNow() == RowLimit <==>
        !index.complete && limits.maxRows.Some? && |Contents()| >= limits.maxRows.value
      ensures PressureNow() == Ready ==> Takes(Batch(schema, [row], 1), Written(1, 1))
    {
    }

    /** The cache is given a quarter of the budget, rounded down, when the buffer may spill, else none. */
    lemma QuarterForTheCache()
      ensures limits.CacheBudget() + limits.ResidentBudget() == limits.memoryBudget
      ensures limits.allowSpill ==> 4 * limits.CacheBudget() <= limits.memoryBudget < 4 * limits.CacheBudget() + 4
      ensures !limits.allowSpill ==> limits.CacheBudget() == 0
    {
    }

    /** Under pressure, no batch that has rows and weighs something is taken, unless the limit
        is the largest number the machine counts to. */
    lemma PressureRefuses(batch: Batch, disk: SpillOutcome)
      requires Valid() && PressureNow() != Ready && batch.rows != [] && batch.bytes > 0
      requires limits.ResidentBudget() < USIZE_MAX
      requires limits.maxSpillBytes.Some? ==> limits.maxSpillBytes.value < USIZE_MAX
      ensures Outcome(batch, disk).Err?
    {
    }

    /** Declares the stream over; a truncation already seen stays. */
    method MarkComplete(measured: ExecStats)
      requires Valid()
      modifies this
      ensures Valid() && index.complete && accepted == old(accepted) && offered == old(offered)
      ensures index == old(index).Completed(measured)
      ensures index.stats.rows == if measured.rows > 0 then measured.rows else old(index.stats.rows)
      ensures index.stats.bytes == if measured.bytes > 0 then measured.bytes else old(index.stats.bytes)
      ensures index.stats.batches == if measured.batches > 0 then measured.batches else old(index.stats.batches)
      ensures index.stats.truncated <==> measured.truncated || old(index.stats.truncated)
    {
      var count := index.stats;
      var stats := measured;
      if stats.rows == 0 {
        stats := stats.(rows := count.rows);
      }
      if stats.bytes == 0 {
        stats := stats.(bytes := count.bytes);
      }
      if stats.batches == 0 {
        stats := stats.(batches := count.batches);
      }
      if count.truncated {
        stats := stats.(truncated := true);
      }
      index := index.(stats := stats, complete := true);
    }

    // ---------- the readers ----------

    /** A binary search over the starts. */
    method Locate(row: nat) returns (r: Option<(nat, nat)>)
      requires Valid()
      ensures r.None? <==> row >= |Contents()|
      ensures r.Some? ==> Locates(index, row, r.value.0, r.value.1)
    {
      if row >= index.rows {
        return None;
      }
      StartsAreOffsets(index, accepted);
      var low, high := 0, |index.starts|;
      while low < high
        invariant 0 <= low <= high <= |index.starts|
        invariant forall i :: 0 <= i < low ==> index.starts[i] <= row
        invariant forall i :: high <= i < |index.starts| ==> index.starts[i] > row
      {
        var mid := (low + high) / 2;
        if index.starts[mid] <= row {
          low := mid + 1;
        } else {
          high := mid;
        }
      }
      assert index.starts != [] by { assert accepted == [] ==> Concat(accepted) == []; }
      return Some((low - 1, row - index.starts[low - 1]));
    }

    /** A batch that needs no disk. */
    predicate AtHand(position: nat)
      reads this
    {
      position < |index.slots| && (index.slots[position].Resident? || Has(cache, position))
    }

    /** What a loaded page has to be: in memory; or small enough when it was written, and either kept or
        read without incident and small enough once decoded. */
    predicate Loads(position: nat, disk: ReadOutcome)
      reads this
    {
      && position < |index.slots|
      && match index.slots[position]
         case Resident(_) => true
         case Spilled(ref) =>
           ref.retained <= limits.CacheBudget() && !disk.cancelledAfter &&
           (Has(cache, position) || (!disk.readFails && disk.decoded <= limits.CacheBudget()))
    }

    /** The batch at a position, from memory, from the cache, or read back, and the memory it reports. A
        page read back is kept when it fits the cache. */
    method BatchAt(position: nat, disk: ReadOutcome) returns (r: Result<Option<Batch>, DataError>, size: nat)
      requires Valid()
      modifies this`cache
      ensures Valid()
      ensures disk.cancelledBefore ==> r == Err(Cancelled)
      ensures !disk.cancelledBefore && position >= |accepted| ==> r == Ok(None)
      ensures r.Ok? && position < |accepted| ==> r == Ok(Some(accepted[position]))
      ensures r.Err? ==> cache == old(cache) && r.error in {Cancelled, SpillFailed}
      ensures r.Ok? <==> !disk.cancelledBefore && (position >= |accepted| || old(AtHand(position)) || !disk.Fails())
      ensures r.Ok? && position < |index.slots| && index.slots[position].Spilled? ==>
        && (Has(cache, position) <==> size <= limits.CacheBudget())
        && (!old(Has(cache, position)) ==> size == disk.decoded)
        && (size > limits.CacheBudget() ==> cache == old(cache))
    {
      size := 0;
      if disk.cancelledBefore {
        return Err(Cancelled), 0;
      }
      if position >= |index.slots| {
        return Ok(None), 0;
      }
      assert Stored(index, file, position, accepted[position]);
      match index.slots[position] {
        case Resident(batch) => return Ok(Some(batch)), batch.bytes;
        case Spilled(ref) =>
          r, size := SpilledBatchAt(position, ref, disk);
      }
    }

    method SpilledBatchAt(position: nat, ref: SpillRef, disk: ReadOutcome)
      returns (r: Result<Option<Batch>, DataError>, size: nat)
      requires Valid() && position < |accepted| && index.slots[position] == Spilled(ref)
      requires file.Some? && ref.at < |file.value| && file.value[ref.at] == accepted[position]
      modifies this`cache
      ensures Valid()
      ensures r.Ok? ==> r == Ok(Some(accepted[position]))
      ensures r.Err? ==> cache == old(cache) && r.error in {Cancelled, SpillFailed}
      ensures r.Ok? <==> old(Has(cache, position)) || !disk.Fails()
      ensures r.Ok? ==>
        && (Has(cache, position) <==> size <= limits.CacheBudget())
        && (!old(Has(cache, position)) ==> size == disk.decoded)
        && (size > limits.CacheBudget() ==> cache == old(cache))
    {
      var found, used := Get(cache, position);
      if found.Some? {
        SameElements(used, cache);
        PageWithinCapacity(cache, limits.CacheBudget(), found.value);
        cache := used;
        assert cache[|cache| - 1].position == position;
        return Ok(Some(found.value.batch)), found.value.size;
      }
      if disk.readFails {
        return Err(SpillFailed), 0;
      }
      var batch := file.value[ref.at];
      if disk.cancelledAfter {
        return Err(Cancelled), 0;
      }
      cache := Insert(cache, limits.CacheBudget(), Page(position, batch, disk.decoded));
      assert disk.decoded <= limits.CacheBudget() ==> cache[|cache| - 1].position == position;
      return Ok(Some(batch)), disk.decoded;
    }

    /** Row `row` of the result, whatever was spilled, read back or evicted before. */
    method ReadRow(row: nat, disk: ReadOutcome) returns (r: Result<Option<(Batch, nat)>, DataError>)
      requires Valid()
      modifies this`cache
      ensures Valid()
      ensures row >= |Contents()| ==> r == Ok(None)
      ensures r.Ok? && row < |Contents()| ==>
        r.value.Some? && r.value.value.1 < |r.value.value.0.rows|
          && r.value.value.0.rows[r.value.value.1] == Contents()[row]
      ensures !disk.cancelledBefore && !disk.readFails && !disk.cancelledAfter ==> r.Ok?
    {
      var located := Locate(row);
      if located.None? {
        return Ok(None);
      }
      LocatedRow(index, accepted, row, located.value.0, located.value.1);
      var batch, size := BatchAt(located.value.0, disk);
      if batch.Err? {
        return Err(batch.error);
      }
      return Ok(Some((batch.value.value, located.value.1)));
    }

    /** Has a batch ready in memory: false when there is none at the position, an error when it cannot be. */
    method LoadPage(position: nat, disk: ReadOutcome) returns (r: Result<bool, DataError>)
      requires Valid()
      modifies this`cache
      ensures Valid()
      ensures r == Ok(false) <==> !disk.cancelledBefore && position >= |accepted|
      ensures r == Ok(true) <==> !disk.cancelledBefore && old(Loads(position, disk))
      ensures r == Ok(true) ==> AtHand(position)
      ensures r == Err(PageTooLarge) ==> cache == old(cache)
    {
      if disk.cancelledBefore {
        return Err(Cancelled);
      }
      if position >= |index.slots| {
        return Ok(false);
      }
      if index.slots[position].Resident? {
        return Ok(true);
      }
      if index.slots[position].ref.retained > limits.CacheBudget() {
        return Err(PageTooLarge);
      }
      var batch, size := BatchAt(position, disk);
      if batch.Err? {
        return Err(batch.error);
      }
      if disk.cancelledAfter {
        return Err(Cancelled);
      }
      if size > limits.CacheBudget() {
        return Err(PageTooLarge);
      }
      return Ok(true);
    }

    // ---------- what holds in every state ----------

    /** What is kept in memory stays within its share of the budget. */
    lemma ResidentWithinBudget()
      requires Valid() && limits.ResidentBudget() < USIZE_MAX
      ensures ResidentSum(index.slots) == index.residentBytes <= limits.ResidentBudget()
    {
    }

    /** What is resident and what is cached share the memory budget. */
    lemma MemoryIsShared()
      requires Valid() && limits.ResidentBudget() < USIZE_MAX
      ensures ResidentSum(index.slots) + TotalSize(cache) <= limits.memoryBudget
    {
      ResidentWithinBudget();
    }

    /** The row limit holds; rows were left out only if the result says so. */
    lemma RowsWithinLimit()
      requires Valid()
      ensures limits.maxRows.Some? ==> |Contents()| <= limits.maxRows.value
      ensures Contents() <= offered
      ensures Contents() != offered ==> index.stats.truncated
    {
    }
  }
}
