/** The event store of `src/event-store.mjs` as it sits on disk, with the writer's operations.

    Every file write is one step: the field `log` holds every state the disk has been in, so a crash leaves the disk
    in one of the logged states. It belongs to the model, not to the program. Writers hold the store lock
    throughout. */
module EventStore {
  import opened Wrappers
  import opened EventChain
  import opened ReferenceAppend
  import opened IdempotencyIndex

  datatype Error = NoEvents | InvalidInput | RepeatedKey | ParallelChain | ChainBroken | KeyTwice
                 | HeadMissing | HeadMismatch | Busy | IndexInconsistent

  /** The files under `events/`. `records` is the sorted listing of the records directory. */
  datatype Disk = Disk(records: seq<RecordFile>, head: Option<HeadText>, index: Option<seq<Row>>,
                       binding: Option<Binding>, quarantine: seq<RecordFile>)

  datatype Repaired = Repaired(head: Head, eventCount: nat, quarantined: seq<RecordFile>)

  predicate Sorted(files: seq<RecordFile>) {
    forall i, j | 0 <= i < j < |files| :: files[i].sequence <= files[j].sequence
  }

  /** Where a rename puts a record file in the sorted listing; a file of the same name is replaced. */
  function Insert(files: seq<RecordFile>, file: RecordFile): seq<RecordFile> {
    if files == [] || file.sequence < files[0].sequence then [file] + files
    else if files[0].sequence == file.sequence && files[0].id == file.id then [file] + files[1..]
    else [files[0]] + Insert(files[1..], file)
  }

  ghost predicate SameName(a: RecordFile, b: RecordFile) {
    a.sequence == b.sequence && a.id == b.id
  }

  /** The listing stays sorted, and holds the file in place of one of its name, if there was one. */
  lemma {:induction false} InsertMeaning(files: seq<RecordFile>, file: RecordFile)
    requires Sorted(files) && forall i, j | 0 <= i < j < |files| :: !SameName(files[i], files[j])
    ensures Sorted(Insert(files, file))
    ensures forall f :: f in Insert(files, file) <==> f == file || (f in files && !SameName(f, file))
  {
    if files != [] {
      var rest := files[1..];
      assert files == [files[0]] + rest;
      if files[0].sequence <= file.sequence {
        if SameName(files[0], file) {
          forall f | f in rest ensures !SameName(f, file) {
            var k :| 0 <= k < |rest| && rest[k] == f;
            assert files[k + 1] == f;
          }
        } else {
          InsertMeaning(rest, file);
          InsertAfter(files[0], rest, file);
        }
      } else {
        forall f | f in files ensures f.sequence > file.sequence {
          var k :| 0 <= k < |files| && files[k] == f;
        }
      }
    }
  }

  lemma InsertAfter(first: RecordFile, rest: seq<RecordFile>, file: RecordFile)
    requires Sorted(Insert(rest, file)) && first.sequence <= file.sequence
    requires forall f | f in rest :: first.sequence <= f.sequence
    requires forall f :: f in Insert(rest, file) <==> f == file || (f in rest && !SameName(f, file))
    ensures Sorted([first] + Insert(rest, file))
  {
    var later := Insert(rest, file);
    forall i | 0 <= i < |later| ensures first.sequence <= later[i].sequence { assert later[i] in later; }
  }

  lemma {:induction false} InsertLast(files: seq<RecordFile>, file: RecordFile)
    requires forall i | 0 <= i < |files| :: files[i].sequence < file.sequence
    ensures Insert(files, file) == files + [file]
  {
    if files != [] {
      InsertLast(files[1..], file);
      assert files == [files[0]] + files[1..];
    }
  }

  /** `verifyEventTail` for one record, read by the writer that holds the lock: the newest record validates and
      the head names it. A writer sees its own lock file, so a mismatch ends as a busy store. */
  function TipOf(files: seq<RecordFile>, head: Option<HeadText>): Result<Head, Error> {
    var n := |files|;
    if !NoParallelChain(files) then Err(ParallelChain)
    else if n == 0 then if head == None then Ok(HeadOfLast(None)) else Err(HeadMismatch)
    else if n > 1 && files[n - 2].content.Unparsable? then Err(ChainBroken)
    else if !ValidStored(files[n - 1], n, if n == 1 then None else Some(files[n - 2].content.event.eventId)) then Err(ChainBroken)
    else match head
      case None => Err(Busy)
      case Some(Garbage(_)) => Err(ChainBroken)
      case Some(Json(h)) => if h == ExpectedHead(files) then Ok(h) else Err(Busy)
  }

  function FileAt(files: seq<RecordFile>, sequence: int): Option<RecordFile> {
    if files == [] then None
    else if files[0].sequence == sequence then Some(files[0])
    else FileAt(files[1..], sequence)
  }

  /** `readEventBySequence`. */
  function ReadBySequence(files: seq<RecordFile>, sequence: int): Result<Option<Event>, Error> {
    if !NoParallelChain(files) then Err(ParallelChain)
    else match FileAt(files, sequence)
      case None => Ok(None)
      case Some(file) => if file.content.Parsed? then Ok(Some(file.content.event)) else Err(ChainBroken)
  }

  /** The index file is used as it is: the sidecar names this tip and the rows pass every count. */
  predicate Trusted(index: Option<seq<Row>>, binding: Option<Binding>, head: Head) {
    && index.Some?
    && binding == Some(Binding(head.core.eventId, head.core.sequence))
    && FourCounts(index.value, head.core.sequence)
  }

  ghost predicate Committed(d: Disk) {
    Verified(d.records) && HeadMatches(d.records, d.head)
  }

  /** The keys an append looks up: those of a trusted index, else those of the index it rebuilds. */
  ghost function KnownKeys(d: Disk): set<Key> {
    if Trusted(d.index, d.binding, ExpectedHead(d.records)) then RowKeys(d.index.value) else Keys(d.records)
  }

  /** An index that would be trusted for this chain lists exactly the chain's keys. */
  ghost predicate CacheSound(d: Disk) {
    Verified(d.records) && Trusted(d.index, d.binding, ExpectedHead(d.records)) ==> RowKeys(d.index.value) == Keys(d.records)
  }

  /** A state an append passes through before it publishes its head. */
  ghost predicate BeforeHead(before: Disk, records: seq<RecordFile>, d: Disk) {
    && before.records <= d.records <= records
    && d.head == before.head && d.quarantine == before.quarantine
    && (Committed(before) && CacheSound(before) ==> CacheSound(d))
  }

  /** A state an append passes through: the head moves once, after all its records are written. */
  ghost predicate AppendState(before: Disk, after: Disk, d: Disk) {
    || BeforeHead(before, after.records, d)
    || (&& d.records == after.records && d.head == after.head && d.quarantine == before.quarantine
        && (Committed(before) && CacheSound(before) ==> CacheSound(d)))
  }

  function RowsIn(index: Option<seq<Row>>): seq<Row> {
    if index.Some? then index.value else []
  }

  /** The same disk with more rows, or torn ones, at the end of its index file. */
  ghost predicate IndexGrown(before: Disk, d: Disk) {
    d.index.Some? && RowsIn(before.index) <= d.index.value && d == before.(index := d.index)
  }

  /** The states of the index file while n rows arrive: after each number of whole rows a torn one, and then the whole one. */
  ghost function PartStates(before: Disk, rows: seq<Row>, n: nat): seq<Disk>
    requires n <= |rows|
  {
    if n == 0 then []
    else
      PartStates(before, rows, n - 1)
      + [before.(index := Some(RowsIn(before.index) + rows[..n - 1] + [Garbled])),
         before.(index := Some(RowsIn(before.index) + rows[..n]))]
  }

  lemma {:induction false} PartIsGrown(before: Disk, rows: seq<Row>, n: nat)
    requires n <= |rows|
    ensures forall k | 0 <= k < |PartStates(before, rows, n)| :: IndexGrown(before, PartStates(before, rows, n)[k])
  {
    if n > 0 { PartIsGrown(before, rows, n - 1); }
  }

  lemma PartsGrow(before: Disk, rows: seq<Row>, start: seq<Disk>, log: seq<Disk>)
    requires start != [] && start[|start| - 1] == before
    requires log == start + PartStates(before, rows, |rows|) + [before.(index := Some(RowsIn(before.index) + rows))]
    ensures start < log && forall k | |start| <= k < |log| :: IndexGrown(before, log[k])
    ensures Grows(log, |start|)
  {
    PartIsGrown(before, rows, |rows|);
    var parts := PartStates(before, rows, |rows|);
    forall k | |start| <= k < |log| ensures IndexGrown(before, log[k]) {
      if k < |log| - 1 { assert log[k] == parts[k - |start|]; }
    }
    forall k | |start| <= k < |log| ensures GrowStep(log[k - 1], log[k]) {
      assert k > |start| ==> IndexGrown(before, log[k - 1]);
    }
  }

  /** One step of a writer that is not repairing: records are only added, and the head moves to all of them at once. */
  ghost predicate GrowStep(a: Disk, b: Disk) {
    a.records <= b.records && (b.head == a.head || (b.records == a.records && HeadMatches(b.records, b.head)))
  }

  ghost predicate Grows(log: seq<Disk>, from: nat) {
    forall k | 0 < from <= k < |log| :: GrowStep(log[k - 1], log[k])
  }

  predicate AcceptedBatch(inputs: seq<Input>) {
    inputs != [] && ValidInputs(inputs) && DistinctInputs(inputs)
  }

  ghost predicate RebuiltFrom(index: Option<seq<Row>>, binding: Option<Binding>, files: seq<RecordFile>) {
    && Readable(files)
    && index == Some(RowsOf(files))
    && binding == Some(Binding(match LastEvent(files) case None => None case Some(e) => Some(e.eventId), |files|))
  }

  /** The number of rows, when the sidecar names that number too. */
  function IndexSize(index: Option<seq<Row>>, binding: Option<Binding>): Option<nat> {
    if index.Some? && binding.Some? && binding.value.Binding? && binding.value.count == |index.value|
    then Some(|index.value|) else None
  }

  predicate Numbered(events: seq<Event>) {
    forall i | 0 <= i < |events| :: events[i].core.sequence >= 0
  }

  function FilesOf(events: seq<Event>): seq<RecordFile>
    requires Numbered(events)
  {
    seq(|events|, i requires 0 <= i < |events| => FileOf(events[i]))
  }

  /** Where the append loop stands: what it wrote, and the sequence and id the next record continues from. */
  ghost predicate Written(before: seq<RecordFile>, records: seq<RecordFile>, appended: seq<Event>, sequence: int,
                          previous: Option<Id>)
  {
    && Numbered(appended)
    && records == before + FilesOf(appended)
    && sequence == |records| && previous == IdBefore(records, |records|)
    && forall i | 0 <= i < |records| :: records[i].sequence <= |records|
  }

  lemma RowsOfVerified(files: seq<RecordFile>)
    requires Readable(files)
    ensures Linked(files) ==> RowKeys(RowsOf(files)) == Keys(files)
  {
    if Linked(files) { RowsOfChain(files); }
  }

  lemma WrittenOneMore(before: seq<RecordFile>, records: seq<RecordFile>, appended: seq<Event>, sequence: int,
                       previous: Option<Id>, input: Input, now: int)
    requires Written(before, records, appended, sequence, previous)
    ensures var event := BuildEvent(input, sequence + 1, previous, now);
            Written(before, records + [FileOf(event)], appended + [event], sequence + 1, Some(event.eventId))
  {
    var event := BuildEvent(input, sequence + 1, previous, now);
    assert FilesOf(appended + [event]) == FilesOf(appended) + [FileOf(event)];
  }

  // ---- lookups on a verified chain ----

  lemma {:induction false} FileAtFound(files: seq<RecordFile>, sequence: int)
    ensures match FileAt(files, sequence)
            case None => forall i | 0 <= i < |files| :: files[i].sequence != sequence
            case Some(file) => exists i :: 0 <= i < |files| && files[i] == file && file.sequence == sequence
  {
    if files != [] && files[0].sequence != sequence {
      FileAtFound(files[1..], sequence);
      assert forall i | 1 <= i < |files| :: files[i] == files[1..][i - 1];
    }
  }

  /** A read by sequence: a parallel chain is refused, and otherwise the first file of that sequence is read. */
  lemma ReadBySequenceCases(files: seq<RecordFile>, sequence: int)
    ensures ReadBySequence(files, sequence) == Err(ParallelChain) <==> !NoParallelChain(files)
    ensures NoParallelChain(files) ==>
              && (ReadBySequence(files, sequence) == Ok(None) <==> forall i | 0 <= i < |files| :: files[i].sequence != sequence)
              && forall i | 0 <= i < |files| && files[i].sequence == sequence ::
                   ReadBySequence(files, sequence)
                     == if files[i].content.Parsed? then Ok(Some(files[i].content.event)) else Err(ChainBroken)
  {
    FileAtFound(files, sequence);
    if NoParallelChain(files) && FileAt(files, sequence).Some? {
      var k :| 0 <= k < |files| && files[k] == FileAt(files, sequence).value;
      forall i | 0 <= i < |files| && files[i].sequence == sequence ensures i == k {}
    }
  }

  ghost predicate CarriedOnce(files: seq<RecordFile>, key: Key) {
    forall i, j | 0 <= i < j < |files| :: !(KeyOf(files[i]) == key && KeyOf(files[j]) == key)
  }

  /** A key carried by one record is what a scan for it finds. */
  lemma FindUnique(files: seq<RecordFile>, i: nat)
    requires Readable(files) && i < |files| && CarriedOnce(files, KeyOf(files[i]))
    ensures Find(files, KeyOf(files[i])) == Some(files[i].content.event)
  {
    FindMeaning(files, KeyOf(files[i]));
    assert KeyOf(files[i]) in Keys(files);
    var event := Find(files, KeyOf(files[i])).value;
    var j :| 0 <= j < |files| && files[j] == RecordFile(files[j].sequence, files[j].id, Parsed(event));
    assert KeyOf(files[j]) == KeyOf(files[i]);
  }

  /** What a sequence number from the index leads to: at most one record, and the right one if its key matches. */
  lemma ReadBySequenceFinds(files: seq<RecordFile>, sequence: int, key: Key)
    requires Linked(files) && CarriedOnce(files, key)
    ensures ReadBySequence(files, sequence).Ok?
    ensures var found := ReadBySequence(files, sequence).value;
            found.Some? && found.value.core.key == key ==> Find(files, key) == found
  {
    LinkedHasNoParallelChain(files);
    FileAtFound(files, sequence);
    if FileAt(files, sequence).Some? {
      var i :| 0 <= i < |files| && files[i] == FileAt(files, sequence).value;
      if KeyOf(files[i]) == key { FindUnique(files, i); }
    }
  }

  /** The rebuilt index leads to the record of every key on the chain. */
  lemma RebuiltIndexFinds(files: seq<RecordFile>, key: Key)
    requires Linked(files) && CarriedOnce(files, key)
    ensures Readable(files)
    ensures key in IndexMap(RowsOf(files)) <==> Find(files, key).Some?
    ensures key in IndexMap(RowsOf(files)) ==>
              ReadBySequence(files, IndexMap(RowsOf(files))[key]) == Ok(Find(files, key))
  {
    RowsOfChain(files);
    IndexMapKeys(RowsOf(files), key);
    FindMeaning(files, key);
    RowsLead(files, files, key);
    if key in IndexMap(RowsOf(files)) { ReadBySequenceFinds(files, IndexMap(RowsOf(files))[key], key); }
  }

  // ---- the tip ----

  /** An accepted tip: the records end in sequence order at their count. */
  lemma TipMeaning(files: seq<RecordFile>, head: Option<HeadText>)
    requires Sorted(files) && TipOf(files, head).Ok?
    ensures HeadMatches(files, head)
    ensures var core := TipOf(files, head).value.core;
            && TipOf(files, head).value == ExpectedHead(files)
            && core.sequence == |files| && core.eventId == IdBefore(files, |files|)
    ensures forall i | 0 <= i < |files| :: files[i].sequence <= |files|
  {
    if files != [] {
      var n := |files|;
      forall i | 0 <= i < n ensures files[i].sequence <= files[n - 1].sequence {}
    }
  }

  lemma CommittedTip(d: Disk)
    requires Committed(d)
    ensures TipOf(d.records, d.head) == Ok(ExpectedHead(d.records))
  {
    LinkedHasNoParallelChain(d.records);
    var n := |d.records|;
    if n > 0 {
      assert LinkedAt(d.records, n - 1);
      if n > 1 { assert LinkedAt(d.records, n - 2); }
    }
  }

  /** A head commits to one length of a chain: with more records behind it, or fewer, it does not match. */
  lemma HeadCommitsOnce(files: seq<RecordFile>, longer: seq<RecordFile>, head: Option<HeadText>)
    requires Verified(longer) && files <= longer && HeadMatches(files, head)
    ensures HeadMatches(longer, head) <==> files == longer
  {
    if HeadMatches(longer, head) && longer != [] {
      VerifiedPrefix(longer, |files|);
      assert longer[..|files|] == files && longer[..|longer|] == longer;
      HeadPinsPrefix(longer, |files|, |longer|);
    }
  }

  // ---- the states of an append ----

  lemma TrustedCounts(d: Disk)
    requires Verified(d.records) && Trusted(d.index, d.binding, ExpectedHead(d.records))
    ensures |d.index.value| == |d.records| == d.binding.value.count
  {
    if d.records != [] { assert LinkedAt(d.records, |d.records| - 1); }
  }

  /** An index rebuilt from the records, or one with too few rows for them, keeps the cache sound. */
  lemma UnpublishedState(before: Disk, d: Disk)
    requires before.records <= d.records && d.head == before.head && d.quarantine == before.quarantine
    requires || (Readable(d.records) && d.index == Some(RowsOf(d.records)))
             || (IndexSize(d.index, d.binding).Some? && IndexSize(d.index, d.binding).value < |d.records|)
    ensures BeforeHead(before, d.records, d)
  {
    if Verified(d.records) && Trusted(d.index, d.binding, ExpectedHead(d.records)) {
      TrustedCounts(d);
      RowsOfVerified(d.records);
    }
  }

  /** The invariant of the append loop: every state logged since `from` precedes the head, and the index file has
      `indexed` rows, for a prefix of the records. */
  ghost predicate InBatch(before: Disk, from: nat, d: Disk, log: seq<Disk>, indexed: nat) {
    && before.records <= d.records && d.head == before.head && d.quarantine == before.quarantine
    && |before.records| <= indexed <= |d.records| && IndexSize(d.index, d.binding) == Some(indexed)
    && (Verified(before.records) && RowKeys(RowsIn(before.index)) == Keys(before.records)
        ==> RowKeys(d.index.value) == Keys(d.records[..indexed]))
    && (forall k | from <= k < |log| :: BeforeHead(before, d.records, log[k]))
    && log != [] && log[|log| - 1] == d && Grows(log, from)
  }

  lemma InBatchRebuilt(before: Disk, from: nat, d: Disk, log: seq<Disk>, indexed: nat, d': Disk)
    requires InBatch(before, from, d, log, indexed) && (Verified(before.records) ==> Linked(d.records))
    requires d' == d.(index := d'.index, binding := d'.binding) && RebuiltFrom(d'.index, d'.binding, d'.records)
    ensures InBatch(before, from, d', log + [d.(index := d'.index), d'], |d.records|)
  {
    RowsOfVerified(d.records);
    assert d.records[..|d.records|] == d.records;
    UnpublishedState(before, d.(index := d'.index));
    UnpublishedState(before, d');
  }

  lemma InBatchWritten(before: Disk, from: nat, d: Disk, log: seq<Disk>, indexed: nat, file: RecordFile)
    requires InBatch(before, from, d, log, indexed)
    ensures var d' := d.(records := d.records + [file]); InBatch(before, from, d', log + [d'], indexed)
  {
    var d' := d.(records := d.records + [file]);
    assert d'.records[..indexed] == d.records[..indexed];
    StatesSoFar(before, d.records, d'.records, log, from);
    UnpublishedState(before, d');
  }

  lemma StatesSoFar(before: Disk, shorter: seq<RecordFile>, longer: seq<RecordFile>, log: seq<Disk>, from: nat)
    requires shorter <= longer
    requires forall k | from <= k < |log| :: BeforeHead(before, shorter, log[k])
    ensures forall k | from <= k < |log| :: BeforeHead(before, longer, log[k])
  {
    forall k | from <= k < |log| ensures BeforeHead(before, longer, log[k]) {
      assert BeforeHead(before, shorter, log[k]);
    }
  }

  /** One turn of the append loop follows the cached reference, and leaves the later keys carried at most once. */
  lemma LoopStep(files: seq<RecordFile>, known: set<Key>, inputs: seq<Input>, i: nat, now: int, o: Outcome)
    requires i < |inputs| && ValidInputs(inputs) && DistinctInputs(inputs)
    requires o == Cached(files, known, inputs[..i], now)
    requires Linked(o.files) && forall j | i <= j < |inputs| :: CarriedOnce(o.files, inputs[j].key)
    ensures Cached(files, known, inputs[..i + 1], now) == CachedStep(o, known, inputs[i], now)
    ensures Linked(CachedStep(o, known, inputs[i], now).files)
    ensures forall j | i < j < |inputs| :: CarriedOnce(CachedStep(o, known, inputs[i], now).files, inputs[j].key)
  {
    assert inputs[..i + 1][..i] == inputs[..i];
    ExtendLinked(o.files, inputs[i], now);
    var next := CachedStep(o, known, inputs[i], now).files;
    forall j | i < j < |inputs| ensures CarriedOnce(next, inputs[j].key) {
      assert inputs[j].key != inputs[i].key;
      forall a, b | 0 <= a < b < |next| ensures !(KeyOf(next[a]) == inputs[j].key && KeyOf(next[b]) == inputs[j].key) {
        assert CarriedOnce(o.files, inputs[j].key);
      }
    }
  }

  /** The same loop against the cached reference, when it started from a verified chain. */
  ghost predicate Follows(before: seq<RecordFile>, records: seq<RecordFile>, replies: seq<Reply>, known: set<Key>,
                          inputs: seq<Input>, i: nat, now: int)
    requires i <= |inputs|
  {
    Verified(before) ==>
      && Linked(records)
      && (forall j | i <= j < |inputs| :: CarriedOnce(records, inputs[j].key))
      && Outcome(records, replies) == Cached(before, known, inputs[..i], now)
  }

  lemma FollowsFromStart(files: seq<RecordFile>, known: set<Key>, inputs: seq<Input>, now: int)
    ensures Follows(files, files, [], known, inputs, 0, now)
  {
  }

  lemma FollowsReplay(before: seq<RecordFile>, records: seq<RecordFile>, replies: seq<Reply>, found: map<Key, int>,
                      inputs: seq<Input>, i: nat, now: int, event: Event)
    requires i < |inputs| && ValidInputs(inputs) && DistinctInputs(inputs)
    requires Follows(before, records, replies, found.Keys, inputs, i, now)
    requires Verified(before) ==> inputs[i].key in found && Find(records, inputs[i].key) == Some(event)
    ensures Follows(before, records, replies + [Reply(event, true)], found.Keys, inputs, i + 1, now)
  {
    if Verified(before) {
      LoopStep(before, found.Keys, inputs, i, now, Outcome(records, replies));
    }
  }

  lemma FollowsWrite(before: seq<RecordFile>, records: seq<RecordFile>, replies: seq<Reply>, found: map<Key, int>,
                     inputs: seq<Input>, i: nat, now: int)
    requires i < |inputs| && ValidInputs(inputs) && DistinctInputs(inputs)
    requires Follows(before, records, replies, found.Keys, inputs, i, now)
    requires Verified(before) ==> inputs[i].key !in found || Find(records, inputs[i].key) == None
    ensures var event := NextEvent(records, inputs[i], now);
            Follows(before, records + [FileOf(event)], replies + [Reply(event, false)], found.Keys, inputs, i + 1, now)
  {
    if Verified(before) {
      LoopStep(before, found.Keys, inputs, i, now, Outcome(records, replies));
    }
  }

  function RowsFor(events: seq<Event>): seq<Row> {
    seq(|events|, i requires 0 <= i < |events| => Row(events[i].core.key, events[i].core.sequence))
  }

  /** The cache is sound if, whenever the index has one row per record, its keys are the chain's. */
  lemma SoundByCounts(d: Disk)
    requires d.index.Some? && d.binding.Some? && d.binding.value.Binding?
    requires |d.index.value| == |d.records| == d.binding.value.count ==> RowKeys(d.index.value) == Keys(d.records)
    ensures CacheSound(d)
  {
    if Verified(d.records) && Trusted(d.index, d.binding, ExpectedHead(d.records)) { TrustedCounts(d); }
  }

  /** While rows are being added for a head that is already published, the sidecar still counts the old rows: the
      index is trusted only if there was nothing to add. */
  lemma GrowingIndexIsSound(d: Disk, rows: seq<Row>, count: nat)
    requires d.index.Some? && rows <= d.index.value && |rows| == count <= |d.records|
    requires d.binding.Some? && d.binding.value.Binding? && d.binding.value.count == count
    requires RowKeys(rows) == Keys(d.records[..count])
    ensures CacheSound(d)
  {
    if |d.index.value| == |d.records| == count {
      assert d.index.value == rows && d.records[..count] == d.records;
    }
    SoundByCounts(d);
  }

  /** With all rows added and bound, the index is trusted only if the new rows continue the old records' rows;
      after a rebuild inside the batch some are there twice, and the next reader rebuilds. */
  lemma FinalIndexIsSound(d: Disk, before: seq<RecordFile>, rows: seq<Row>, appended: seq<Event>)
    requires Numbered(appended) && d.records == before + FilesOf(appended)
    requires d.index == Some(rows + RowsFor(appended)) && |before| <= |rows| <= |d.records|
    requires d.binding.Some? && d.binding.value.Binding?
    requires RowKeys(rows) == Keys(d.records[..|rows|])
    ensures CacheSound(d)
  {
    if |d.index.value| == |d.records| {
      assert d.records[..|rows|] == before;
      KeysOfParts(before, appended);
      RowKeysOfParts(rows, appended);
    }
    SoundByCounts(d);
  }

  lemma KeysOfParts(before: seq<RecordFile>, appended: seq<Event>)
    requires Numbered(appended)
    ensures Keys(before + FilesOf(appended)) == Keys(before) + set i | 0 <= i < |appended| :: appended[i].core.key
  {
    var all := before + FilesOf(appended);
    forall i | 0 <= i < |before| ensures KeyOf(before[i]) in Keys(all) { assert all[i] == before[i]; }
    forall i | 0 <= i < |appended| ensures appended[i].core.key in Keys(all) {
      assert KeyOf(all[|before| + i]) == appended[i].core.key;
    }
  }

  lemma RowKeysOfParts(rows: seq<Row>, appended: seq<Event>)
    ensures RowKeys(rows + RowsFor(appended)) == RowKeys(rows) + set i | 0 <= i < |appended| :: appended[i].core.key
  {
    var all := rows + RowsFor(appended);
    forall i | 0 <= i < |rows| && rows[i].Row? ensures rows[i].key in RowKeys(all) { assert all[i] == rows[i]; }
    forall i | 0 <= i < |appended| ensures appended[i].core.key in RowKeys(all) {
      assert all[|rows| + i].Row? && all[|rows| + i].key == appended[i].core.key;
    }
  }

  ghost predicate IndexRead(before: Disk, ready: Disk, tip: Head, found: map<Key, int>) {
    && ready == before.(index := ready.index, binding := ready.binding)
    && if Trusted(before.index, before.binding, tip) then ready == before && found == IndexMap(before.index.value)
       else RebuiltFrom(ready.index, ready.binding, ready.records) && found == IndexMap(RowsOf(ready.records))
  }

  /** After the index is read or rebuilt it has one row per record; on a committed store the map has the known keys. */
  lemma IndexReady(before: Disk, ready: Disk, tip: Head, found: map<Key, int>)
    requires Sorted(before.records) && TipOf(before.records, before.head) == Ok(tip)
    requires IndexRead(before, ready, tip, found)
    ensures IndexSize(ready.index, ready.binding) == Some(|before.records|)
    ensures Committed(before) ==> found.Keys == KnownKeys(before)
    ensures Committed(before) && CacheSound(before) ==>
              found.Keys == RowKeys(RowsIn(ready.index)) == Keys(before.records) && CacheSound(ready)
  {
    TipMeaning(before.records, before.head);
    forall key ensures key in found <==> key in RowKeys(ready.index.value) {
      IndexMapKeys(ready.index.value, key);
    }
    assert found.Keys == RowKeys(ready.index.value);
    if !Trusted(before.index, before.binding, tip) { RowsOfVerified(before.records); }
  }

  /** A state after the head is published. */
  ghost predicate AfterHead(before: Disk, after: Disk, d: Disk) {
    && d.records == after.records && d.head == after.head && d.quarantine == before.quarantine
    && (Verified(before.records) && RowKeys(RowsIn(before.index)) == Keys(before.records) ==> CacheSound(d))
  }

  /** Every state from the published head to the bound index has a sound cache. */
  lemma PublishStates(before: Disk, from: nat, d: Disk, log: seq<Disk>, indexed: nat, appended: seq<Event>,
                      published: Disk, grown: seq<Disk>, lo: nat, final: Disk)
    requires InBatch(before, from, d, log, indexed) && Numbered(appended) && d.records == before.records + FilesOf(appended)
    requires published == d.(head := published.head)
    requires forall k | lo <= k < |grown| :: IndexGrown(published, grown[k])
    requires final.index == Some(d.index.value + RowsFor(appended)) && final.records == d.records
    requires final.binding.Some? && final.binding.value.Binding?
    requires Verified(before.records) && RowKeys(RowsIn(before.index)) == Keys(before.records)
    ensures CacheSound(published) && (forall k | lo <= k < |grown| :: CacheSound(grown[k])) && CacheSound(final)
  {
    GrowingIndexIsSound(published, d.index.value, indexed);
    forall k | lo <= k < |grown| ensures CacheSound(grown[k]) {
      assert IndexGrown(published, grown[k]);
      GrowingIndexIsSound(grown[k], d.index.value, indexed);
    }
    FinalIndexIsSound(final, before.records, d.index.value, appended);
  }

  /** The log of a publication: the head, the index as it grows, and the bound index. */
  lemma AfterHeadStates(before: Disk, from: nat, d: Disk, log: seq<Disk>, indexed: nat, appended: seq<Event>,
                        published: Disk, grown: seq<Disk>, final: Disk)
    requires InBatch(before, from, d, log, indexed) && Numbered(appended) && d.records == before.records + FilesOf(appended)
    requires published == d.(head := published.head)
    requires log + [published] <= grown && forall k | |log| + 1 <= k < |grown| :: IndexGrown(published, grown[k])
    requires final == published.(index := Some(d.index.value + RowsFor(appended)), binding := final.binding)
    requires final.binding.Some? && final.binding.value.Binding?
    ensures forall k | |log| <= k < |grown| + 1 :: AfterHead(before, final, (grown + [final])[k])
  {
    if Verified(before.records) && RowKeys(RowsIn(before.index)) == Keys(before.records) {
      PublishStates(before, from, d, log, indexed, appended, published, grown, |log| + 1, final);
    }
    forall k | |log| <= k < |grown| + 1 ensures AfterHead(before, final, (grown + [final])[k]) {
      if |log| < k < |grown| { assert IndexGrown(published, grown[k]); }
      if k == |log| { assert grown[k] == (log + [published])[k]; }
    }
  }

  lemma GrowsOn(log: seq<Disk>, more: seq<Disk>, from: nat)
    requires log != [] && log <= more && Grows(log, from) && Grows(more, |log|)
    ensures Grows(more, from)
  {
  }

  /** The states of an append, seen from the disk before the index was read. */
  lemma AppendStates(before: Disk, ready: Disk, after: Disk, log: seq<Disk>, from: nat, readyAt: nat)
    requires from <= readyAt <= |log| && ready == before.(index := ready.index, binding := ready.binding)
    requires Committed(before) && CacheSound(before) ==>
               CacheSound(ready) && RowKeys(RowsIn(ready.index)) == Keys(before.records)
    requires before.records <= after.records
    requires forall k | from <= k < readyAt :: BeforeHead(before, before.records, log[k])
    requires forall k | readyAt <= k < |log| :: BeforeHead(ready, after.records, log[k]) || AfterHead(ready, after, log[k])
    ensures forall k | from <= k < |log| :: AppendState(before, after, log[k])
  {
    forall k | from <= k < |log| ensures AppendState(before, after, log[k]) {
      if k < readyAt {
        assert BeforeHead(before, before.records, log[k]);
      } else {
        assert BeforeHead(ready, after.records, log[k]) || AfterHead(ready, after, log[k]);
      }
    }
  }

  // ---- repair ----

  ghost predicate LongestVerified(files: seq<RecordFile>, n: nat) {
    n <= |files| && Verified(files[..n]) && (n < |files| ==> !Verified(files[..n + 1]))
  }

  /** The chain links up to record n, whose key repeats an earlier one. */
  ghost predicate FirstRepeat(files: seq<RecordFile>, n: nat) {
    n < |files| && Linked(files[..n + 1]) && DistinctKeys(files[..n]) && !DistinctKeys(files[..n + 1])
  }

  ghost predicate CanRepair(files: seq<RecordFile>, truncate: bool) {
    NoParallelChain(files) && (Verified(files) || (truncate && exists n :: FirstRepeat(files, n)))
  }

  /** A state a repair that keeps n records passes through: k records have been moved away, oldest first. */
  ghost predicate RepairState(before: Disk, n: nat, d: Disk) {
    var k := |before.records| - |d.records|;
    && 0 <= k <= |before.records| - n
    && d.records == before.records[..n] + before.records[n + k..]
    && d.quarantine == before.quarantine + before.records[n..n + k]
    && (d.head == None || d.head == before.head || (n + k == |before.records| && HeadMatches(d.records, d.head)))
    && ((d.index == before.index && d.binding == before.binding) || (Readable(d.records) && d.index == Some(RowsOf(d.records))))
  }

  /** The longest verified chain is kept, the rest is in quarantine, and the store is committed. */
  ghost predicate RepairedTo(before: Disk, d: Disk, r: Repaired) {
    var n := r.eventCount;
    && LongestVerified(before.records, n)
    && d.records == before.records[..n] && r.quarantined == before.records[n..]
    && d.quarantine == before.quarantine + r.quarantined
    && r.head == ExpectedHead(d.records)
    && Committed(d) && RebuiltFrom(d.index, d.binding, d.records) && CacheSound(d)
  }

  ghost predicate RepairStates(log: seq<Disk>, from: nat, before: Disk, n: nat) {
    forall i | from <= i < |log| :: RepairState(before, n, log[i])
  }

  lemma OneMoved(before: Disk, n: nat, k: nat, d: Disk)
    requires n + k < |before.records| && d.head == None && d.index == before.index && d.binding == before.binding
    requires d.records == before.records[..n] + before.records[n + k..]
    requires d.quarantine == before.quarantine + before.records[n..n + k]
    ensures var d' := d.(records := d.records[..n] + d.records[n + 1..], quarantine := d.quarantine + [d.records[n]]);
            && RepairState(before, n, d')
            && d'.records == before.records[..n] + before.records[n + k + 1..]
            && d'.quarantine == before.quarantine + before.records[n..n + k + 1]
  {
    MovedPieces(before.records, n, k, before.quarantine);
  }

  lemma MovedPieces(all: seq<RecordFile>, n: nat, k: nat, quarantine: seq<RecordFile>)
    requires n + k < |all|
    ensures var left := all[..n] + all[n + k..];
            && left[n] == all[n + k] && left[..n] == all[..n] && left[n + 1..] == all[n + k + 1..]
            && quarantine + all[n..n + k] + [left[n]] == quarantine + all[n..n + k + 1]
  {
    assert all[n..n + k] + [all[n + k]] == all[n..n + k + 1];
  }

  lemma UntouchedState(before: Disk, n: nat, d: Disk)
    requires n <= |before.records| && d.records == before.records && d.quarantine == before.quarantine && d.head == None
    requires d.index == before.index && d.binding == before.binding
    ensures RepairState(before, n, d)
  {
    assert before.records == before.records[..n] + before.records[n..];
  }

  lemma MovedState(before: Disk, n: nat, d: Disk)
    requires n <= |before.records| && d.records == before.records[..n]
    requires d.quarantine == before.quarantine + before.records[n..]
    requires d.head == None || HeadMatches(d.records, d.head)
    requires (d.index == before.index && d.binding == before.binding) || (Readable(d.records) && d.index == Some(RowsOf(d.records)))
    ensures RepairState(before, n, d)
  {
  }

  lemma OneMoreRecord(files: seq<RecordFile>, n: nat)
    requires n < |files| && Verified(files[..n])
    ensures Linked(files[..n + 1]) <==> ValidStored(files[n], n + 1, IdBefore(files, n))
    ensures DistinctKeys(files[..n + 1]) <==> KeyOf(files[n]) !in Keys(files[..n])
    ensures Keys(files[..n + 1]) == Keys(files[..n]) + {KeyOf(files[n])}
  {
    var longer := files[..n + 1];
    assert longer == files[..n] + [files[n]];
    ExtendDistinct(files[..n], files[n]);
    assert LinkedAt(longer, n) <==> ValidStored(files[n], n + 1, IdBefore(files, n));
    forall i | 0 <= i < n ensures LinkedAt(longer, i) {
      assert LinkedAt(files[..n], i);
    }
  }

  lemma LongestUnique(files: seq<RecordFile>, m: nat, n: nat)
    requires LongestVerified(files, m) && LongestVerified(files, n) && m <= n
    ensures m == n
  {
    if m < n { VerifiedShorter(files, m + 1, n); }
  }

  lemma VerifiedShorter(files: seq<RecordFile>, m: nat, n: nat)
    requires m <= n <= |files| && Verified(files[..n])
    ensures Verified(files[..m])
  {
    VerifiedPrefix(files[..n], m);
    assert files[..m] == files[..n][..m];
  }

  lemma RepeatEndsVerified(files: seq<RecordFile>, m: nat)
    requires FirstRepeat(files, m)
    ensures LongestVerified(files, m)
  {
    VerifiedPrefix(files[..m + 1], m);
    assert files[..m] == files[..m + 1][..m];
  }

  /** Where the scan of a repair stops decides whether it can go on. */
  lemma RepairDecision(files: seq<RecordFile>, n: nat, truncate: bool)
    requires NoParallelChain(files) && LongestVerified(files, n)
    ensures CanRepair(files, truncate) <==> n == |files| || (truncate && FirstRepeat(files, n))
    ensures (exists m :: FirstRepeat(files, m)) <==> FirstRepeat(files, n)
  {
    assert files[..|files|] == files;
    if Verified(files) {
      LongestUnique(files, n, |files|);
    }
    forall m: nat | FirstRepeat(files, m) ensures m == n {
      RepeatEndsVerified(files, m);
      LongestUnique(files, if m < n then m else n, if m < n then n else m);
    }
  }

  // ---- an index that is in step with the chain ----

  /** The rows and the binding of an append, added to those of the chain before it. */
  lemma StaysInStep(before: seq<RecordFile>, appended: seq<Event>)
    requires Readable(before) && Numbered(appended) && appended != []
    ensures RebuiltFrom(Some(RowsOf(before) + RowsFor(appended)),
                        Some(Binding(Some(appended[|appended| - 1].eventId), |before| + |appended|)), before + FilesOf(appended))
  {
    RowsOfMore(before, appended);
  }

  /** A committed store whose index has the row of every record, in order, and is bound to its tip. */
  ghost predicate InStep(d: Disk) {
    Committed(d) && RebuiltFrom(d.index, d.binding, d.records) && |d.records| <= MAX_SAFE_INTEGER
  }

  lemma RowsAreDistinct(files: seq<RecordFile>)
    requires Verified(files)
    ensures Readable(files)
    ensures forall i, j | 0 <= i < j < |files| ::
              RowsOf(files)[i].key != RowsOf(files)[j].key && RowsOf(files)[i].sequence != RowsOf(files)[j].sequence
    ensures forall k: int :: k in RowSequences(RowsOf(files)) <==> 1 <= k <= |files|
  {
    RowsOfChain(files);
    var rows := RowsOf(files);
    forall i, j | 0 <= i < j < |files| ensures rows[i].key != rows[j].key && rows[i].sequence != rows[j].sequence {
      assert KeyOf(files[i]) != KeyOf(files[j]);
    }
    forall k: int | 1 <= k <= |files| ensures k in RowSequences(rows) {
      assert rows[k - 1].Row? && rows[k - 1].sequence == k;
    }
  }

  lemma InStepIsTrusted(d: Disk, tip: Head)
    requires InStep(d) && TipOf(d.records, d.head) == Ok(tip)
    ensures Trusted(d.index, d.binding, tip) && Leading(d.records, IndexMap(d.index.value))
  {
    CommittedTip(d);
    var rows := RowsOf(d.records);
    RowsOfChain(d.records);
    RowsAreDistinct(d.records);
    forall i | 0 <= i < |rows| ensures SaneRow(rows[i]) { assert LinkedAt(d.records, i); }
    CountsAreBijection(rows, |d.records|);
    if d.records != [] { assert LinkedAt(d.records, |d.records| - 1); }
  }

  /** What the map says of the key is right. */
  ghost predicate LeadsTo(files: seq<RecordFile>, found: map<Key, int>, key: Key) {
    key in found ==>
      var named := ReadBySequence(files, found[key]);
      named.Ok? && named.value.Some? && named.value.value.core.key == key
  }

  /** The rows of a chain lead to its records, however much has been appended behind them. */
  lemma RowsLead(before: seq<RecordFile>, files: seq<RecordFile>, key: Key)
    requires Linked(before) && Linked(files) && before <= files
    ensures Readable(before) && LeadsTo(files, IndexMap(RowsOf(before)), key)
  {
    RowsOfChain(before);
    LinkedHasNoParallelChain(files);
    var rows := RowsOf(before);
    IndexMapKeys(rows, key);
    if key in IndexMap(rows) {
      var i :| 0 <= i < |rows| && rows[i] == Row(key, IndexMap(rows)[key]);
      assert files[i] == before[i] && KeyOf(files[i]) == key;
      assert LinkedAt(files, i);
      FileAtFound(files, i + 1);
    }
  }

  /** The map is that of the chain's own rows. */
  ghost predicate Leading(files: seq<RecordFile>, found: map<Key, int>) {
    Readable(files) && found == IndexMap(RowsOf(files))
  }

  lemma RowsOfMore(before: seq<RecordFile>, appended: seq<Event>)
    requires Readable(before) && Numbered(appended)
    ensures Readable(before + FilesOf(appended))
    ensures RowsOf(before + FilesOf(appended)) == RowsOf(before) + RowsFor(appended)
  {
    var all := before + FilesOf(appended);
    forall i | 0 <= i < |all| ensures all[i].content.Parsed? {
      if i >= |before| { assert all[i] == FileOf(appended[i - |before|]); }
    }
  }

  /** What the scan of a repair finds, and whether that stops it. */
  ghost predicate Scanned(files: seq<RecordFile>, n: nat, broken: bool) {
    && LongestVerified(files, n)
    && (n == |files| ==> !broken) && (n < |files| ==> (broken <==> !FirstRepeat(files, n)))
  }

  /** Why a repair refuses: a broken link, or a repeated key that it may not cut off. */
  lemma RepairRefused(files: seq<RecordFile>, n: nat, broken: bool, truncate: bool)
    requires NoParallelChain(files) && Scanned(files, n, broken)
    ensures CanRepair(files, truncate) <==> !broken && (n == |files| || truncate)
    ensures !broken && n < |files| && !truncate <==> !truncate && exists m :: FirstRepeat(files, m)
  {
    RepairDecision(files, n, truncate);
  }

  class EventStore {
    var records: seq<RecordFile>
    var head: Option<HeadText>
    var index: Option<seq<Row>>
    var binding: Option<Binding>
    var quarantine: seq<RecordFile>
    var log: seq<Disk>

    function Now(): Disk
      reads this
    {
      Disk(records, head, index, binding, quarantine)
    }

    ghost predicate Valid()
      reads this
    {
      Sorted(records) && log != [] && log[|log| - 1] == Now()
    }

    /** An empty runtime root. */
    constructor ()
      ensures Valid() && Now() == Disk([], None, None, None, []) && log == [Now()]
    {
      records, head, index, binding, quarantine := [], None, None, None, [];
      log := [Disk([], None, None, None, [])];
    }

    /** After a crash the disk is found in a state it had been in. */
    method Resume(d: Disk)
      requires Sorted(d.records)
      modifies this
      ensures Valid() && Now() == d && log == [d]
    {
      records, head, index, binding, quarantine := d.records, d.head, d.index, d.binding, d.quarantine;
      log := [d];
    }

    // ---- single file writes ----

    method WriteRecord(event: Event)
      requires Valid() && event.core.sequence >= 0
      requires forall i | 0 <= i < |records| :: records[i].sequence < event.core.sequence
      modifies `records, `log
      ensures Valid() && records == old(records) + [FileOf(event)] && log == old(log) + [Now()]
    {
      InsertLast(records, FileOf(event));
      records := Insert(records, FileOf(event));
      log := log + [Now()];
    }

    method WriteHead(text: HeadText)
      requires Valid()
      modifies `head, `log
      ensures Valid() && head == Some(text) && log == old(log) + [Now()]
    {
      head := Some(text);
      log := log + [Now()];
    }

    method RemoveHead()
      requires Valid()
      modifies `head, `log
      ensures Valid() && head == None && log == old(log) + [Now()]
    {
      head := None;
      log := log + [Now()];
    }

    /** Renames one record file into the quarantine directory. */
    method MoveToQuarantine(at: nat)
      requires Valid() && at < |records|
      modifies `records, `quarantine, `log
      ensures Valid() && log == old(log) + [Now()]
      ensures records == old(records[..at] + records[at + 1..]) && quarantine == old(quarantine + [records[at]])
    {
      quarantine := quarantine + [records[at]];
      records := records[..at] + records[at + 1..];
      log := log + [Now()];
    }

    method WriteIndex(rows: seq<Row>)
      requires Valid()
      modifies `index, `log
      ensures Valid() && index == Some(rows) && log == old(log) + [Now()]
    {
      index := Some(rows);
      log := log + [Now()];
    }

    method WriteBinding(headEventId: Option<Id>, count: int)
      requires Valid()
      modifies `binding, `log
      ensures Valid() && binding == Some(Binding(headEventId, count)) && log == old(log) + [Now()]
    {
      binding := Some(Binding(headEventId, count));
      log := log + [Now()];
    }

    /** Appending to the index file is not atomic: any number of whole rows may have arrived, and a torn one. */
    method AppendIndexRows(rows: seq<Row>)
      requires Valid()
      modifies `index, `log
      ensures Valid() && index == Some(RowsIn(old(index)) + rows)
      ensures old(log) < log && forall k | |old(log)| <= k < |log| :: IndexGrown(old(Now()), log[k])
      ensures log == old(log) + PartStates(old(Now()), rows, |rows|) + [Now()]
      ensures Grows(log, |old(log)|)
    {
      var was := RowsIn(index);
      ghost var before, start := Now(), log;
      for i := 0 to |rows|
        invariant Now() == before.(index := index) && log == start + PartStates(before, rows, i)
        invariant if i == 0 then index == before.index else index == Some(was + rows[..i])
      {
        index := Some(was + rows[..i + 1]);
        log := log + [Now().(index := Some(was + rows[..i] + [Garbled])), Now()];
      }
      assert rows[..|rows|] == rows;
      index := Some(was + rows);
      log := log + [Now()];
      PartsGrow(before, rows, start, log);
    }

    // ---- the index ----

    method RebuildIdempotencyIndex() returns (r: Result<map<Key, int>, Error>)
      requires Valid()
      modifies `index, `binding, `log
      ensures Valid()
      ensures r.Ok? <==> NoParallelChain(records) && Readable(records)
      ensures r.Ok? ==> r.value == IndexMap(RowsOf(records)) && RebuiltFrom(index, binding, records)
                        && log == old(log) + [old(Now()).(index := index), Now()]
      ensures r.Err? ==> unchanged(`index, `binding, `log)
    {
      if !NoParallelChain(records) { return Err(ParallelChain); }
      var found: map<Key, int> := map[];
      var rows: seq<Row> := [];
      var headEventId: Option<Id> := None;
      for i := 0 to |records|
        invariant Readable(records[..i]) && rows == RowsOf(records[..i]) && found == IndexMap(rows)
        invariant headEventId == match LastEvent(records[..i]) case None => None case Some(e) => Some(e.eventId)
      {
        if records[i].content.Unparsable? { return Err(ChainBroken); }
        var event := records[i].content.event;
        assert records[..i + 1] == records[..i] + [records[i]];
        assert RowsOf(records[..i + 1]) == rows + [Row(event.core.key, event.core.sequence)];
        found := found[event.core.key := event.core.sequence];
        rows := rows + [Row(event.core.key, event.core.sequence)];
        assert rows[..i] == RowsOf(records[..i]);
        headEventId := Some(event.eventId);
      }
      assert records[..|records|] == records;
      WriteIndex(rows);
      WriteBinding(headEventId, |rows|);
      r := Ok(found);
    }

    method ReadIdempotencyIndex(tip: Head) returns (r: Result<map<Key, int>, Error>)
      requires Valid()
      modifies `index, `binding, `log
      ensures Valid()
      ensures Trusted(old(index), old(binding), tip) ==> r == Ok(IndexMap(old(index).value)) && unchanged(`index, `binding, `log)
      ensures !Trusted(old(index), old(binding), tip) ==>
                && (r.Ok? <==> NoParallelChain(records) && Readable(records))
                && (r.Ok? ==> r.value == IndexMap(RowsOf(records)) && RebuiltFrom(index, binding, records)
                              && log == old(log) + [old(Now()).(index := index), Now()])
                && (r.Err? ==> unchanged(`index, `binding, `log))
    {
      if index == None || binding != Some(Binding(tip.core.eventId, tip.core.sequence)) {
        r := RebuildIdempotencyIndex();
        return;
      }
      var rows := index.value;
      var found: map<Key, int> := map[];
      var sequences: set<int> := {};
      var highest := 0;
      for i := 0 to |rows|
        invariant Valid() && unchanged(`index, `binding, `log)
        invariant SaneRows(rows[..i])
        invariant found == IndexMap(rows[..i]) && sequences == RowSequences(rows[..i]) && highest == Highest(rows[..i])
      {
        if !SaneRow(rows[i]) {
          r := RebuildIdempotencyIndex();
          return;
        }
        assert rows[..i + 1][..i] == rows[..i];
        RowSetsOfLast(rows[..i + 1]);
        found := found[rows[i].key := rows[i].sequence];
        sequences := sequences + {rows[i].sequence};
        if rows[i].sequence > highest { highest := rows[i].sequence; }
      }
      assert rows[..|rows|] == rows;
      var expected := tip.core.sequence;
      if highest != expected || |rows| != expected || |found| != expected || |sequences| != expected {
        r := RebuildIdempotencyIndex();
        return;
      }
      r := Ok(found);
    }

    /** Answers one key from the index, checking it against the record it names and rebuilding it once. */
    method Lookup(found: map<Key, int>, key: Key) returns (r: Result<Option<Event>, Error>, ghost rebuilt: bool)
      requires Valid()
      modifies `index, `binding, `log
      ensures Valid()
      ensures !rebuilt ==> unchanged(`index, `binding, `log)
      ensures rebuilt ==> RebuiltFrom(index, binding, records) && log == old(log) + [old(Now()).(index := index), Now()]
      ensures r.Ok? && r.value.Some? ==> r.value.value.core.key == key
      ensures LeadsTo(records, found, key) ==> !rebuilt
      ensures Linked(records) && CarriedOnce(records, key) ==> r == Ok(if key in found then Find(records, key) else None)
    {
      rebuilt := false;
      if key !in found { return Ok(None), false; }
      if Linked(records) && CarriedOnce(records, key) {
        ReadBySequenceFinds(records, found[key], key);
        RebuiltIndexFinds(records, key);
        LinkedHasNoParallelChain(records);
        FindMeaning(records, key);
      }
      var named := ReadBySequence(records, found[key]);
      if named.Err? { return Err(named.error), false; }
      if named.value.Some? && named.value.value.core.key == key { return named, false; }
      var again := RebuildIdempotencyIndex();
      if again.Err? { return Err(again.error), false; }
      if key !in again.value { return Ok(None), true; }
      var recovered := ReadBySequence(records, again.value[key]);
      if recovered.Err? { return Err(recovered.error), true; }
      if recovered.value.Some? && recovered.value.value.core.key == key { return recovered, true; }
      return Err(IndexInconsistent), true;
    }

    // ---- append ----

    /** The checks `appendBrokerEvents` makes before it takes the lock. */
    static method CheckBatch(inputs: seq<Input>) returns (r: Option<Error>)
      ensures r == None <==> AcceptedBatch(inputs)
      ensures r == Some(NoEvents) <==> inputs == []
      ensures r == Some(InvalidInput) <==> !ValidInputs(inputs)
      ensures r == Some(RepeatedKey) <==> inputs != [] && ValidInputs(inputs) && !DistinctInputs(inputs)
    {
      if inputs == [] { return Some(NoEvents); }
      for i := 0 to |inputs|
        invariant forall j | 0 <= j < i :: ValidInput(inputs[j])
      {
        if !ValidInput(inputs[i]) { return Some(InvalidInput); }
      }
      var seen: set<Key> := {};
      for i := 0 to |inputs|
        invariant seen == set j | 0 <= j < i :: inputs[j].key
        invariant forall j, k | 0 <= j < k < i :: inputs[j].key != inputs[k].key
      {
        if inputs[i].key in seen { return Some(RepeatedKey); }
        assert forall j | 0 <= j < i :: inputs[j].key in seen;
        seen := seen + {inputs[i].key};
      }
      r := None;
    }

    method AnswerInBatch(found: map<Key, int>, key: Key, ghost before: Disk, ghost from: nat, ghost indexed: nat, ghost leading: bool)
        returns (r: Result<Option<Event>, Error>, ghost indexed': nat)
      requires Valid() && InBatch(before, from, Now(), log, indexed)
      requires Verified(before.records) ==> Linked(records) && CarriedOnce(records, key)
      requires leading ==> Verified(before.records) && Leading(before.records, found)
      modifies `index, `binding, `log
      ensures Valid() && old(log) <= log && InBatch(before, from, Now(), log, indexed')
      ensures Verified(before.records) ==> r == Ok(if key in found then Find(records, key) else None)
      ensures leading ==> unchanged(`index, `binding)
    {
      if leading { RowsLead(before.records, records, key); }
      ghost var start, startLog := Now(), log;
      indexed' := indexed;
      var answer, rebuilt := Lookup(found, key);
      if rebuilt {
        InBatchRebuilt(before, from, start, startLog, indexed, Now());
        assert log == startLog + [start.(index := index), Now()];
        indexed' := |records|;
      }
      r := answer;
    }

    method WriteNext(input: Input, sequence: int, previous: Option<Id>, now: int, ghost before: Disk, ghost from: nat,
                     ghost indexed: nat, ghost appended: seq<Event>)
        returns (event: Event)
      requires Valid() && InBatch(before, from, Now(), log, indexed)
      requires Written(before.records, records, appended, sequence, previous)
      modifies `records, `log
      ensures Valid() && log == old(log) + [Now()] && InBatch(before, from, Now(), log, indexed)
      ensures event == NextEvent(old(records), input, now) && records == old(records) + [FileOf(event)]
      ensures Written(before.records, records, appended + [event], sequence + 1, Some(event.eventId))
    {
      event := BuildEvent(input, sequence + 1, previous, now);
      WrittenOneMore(before.records, records, appended, sequence, previous, input, now);
      InBatchWritten(before, from, Now(), log, indexed, FileOf(event));
      WriteRecord(event);
    }

    /** One input of the loop: the event the index leads to, or a new record. */
    method AnswerOrWrite(found: map<Key, int>, inputs: seq<Input>, i: nat, sequence: int, previous: Option<Id>, now: int,
                         ghost before: Disk, ghost from: nat, ghost indexed: nat, ghost appended: seq<Event>, ghost replies: seq<Reply>,
                         ghost leading: bool)
        returns (reply: Result<Reply, Error>, event: Option<Event>, ghost indexed': nat)
      requires Valid() && AcceptedBatch(inputs) && i < |inputs|
      requires Written(before.records, records, appended, sequence, previous)
      requires InBatch(before, from, Now(), log, indexed)
      requires Follows(before.records, records, replies, found.Keys, inputs, i, now)
      requires leading ==> Verified(before.records) && Leading(before.records, found)
      modifies `records, `index, `binding, `log
      ensures Valid() && old(log) <= log
      ensures InBatch(before, from, Now(), log, indexed')
      ensures reply.Err? ==> records == old(records) && !Verified(before.records)
      ensures event == None ==> Written(before.records, records, appended, sequence, previous)
      ensures event.Some? ==> Written(before.records, records, appended + [event.value], sequence + 1, Some(event.value.eventId))
      ensures reply.Ok? ==> Follows(before.records, records, replies + [reply.value], found.Keys, inputs, i + 1, now)
      ensures leading ==> unchanged(`index, `binding)
    {
      var answer;
      answer, indexed' := AnswerInBatch(found, inputs[i].key, before, from, indexed, leading);
      if answer.Err? { return Err(answer.error), None, indexed'; }
      if answer.value.Some? {
        FollowsReplay(before.records, records, replies, found, inputs, i, now, answer.value.value);
        return Ok(Reply(answer.value.value, true)), None, indexed';
      }
      ghost var was := records;
      var written := WriteNext(inputs[i], sequence, previous, now, before, from, indexed', appended);
      FollowsWrite(before.records, was, replies, found, inputs, i, now);
      return Ok(Reply(written, false)), Some(written), indexed';
    }

    /** The loop over the inputs: replays what the index leads to, writes a record for everything else. */
    method WriteBatch(found: map<Key, int>, tip: Head, inputs: seq<Input>, now: int)
        returns (r: Result<seq<Reply>, Error>, appended: seq<Event>, ghost indexed: nat)
      requires Valid() && AcceptedBatch(inputs) && TipOf(records, head) == Ok(tip)
      requires IndexSize(index, binding) == Some(|records|)
      modifies `records, `index, `binding, `log
      ensures Valid() && old(log) <= log
      ensures Numbered(appended) && records == old(records) + FilesOf(appended)
      ensures InBatch(old(Now()), |old(log)|, Now(), log, indexed)
      ensures r.Ok? ==> |r.value| == |inputs|
      ensures old(Verified(records)) ==>
                r.Ok? && Outcome(records, r.value) == Cached(old(records), found.Keys, inputs, now)
      ensures old(Verified(records)) && Leading(old(records), found) ==> unchanged(`index, `binding)
    {
      TipMeaning(records, head);
      ghost var before := Now();
      ghost var leading := Verified(records) && Leading(records, found);
      var sequence := tip.core.sequence;
      var previous := tip.core.eventId;
      var replies: seq<Reply> := [];
      appended := [];
      indexed := |records|;
      assert records == records + FilesOf([]);
      FollowsFromStart(records, found.Keys, inputs, now);
      for i := 0 to |inputs|
        invariant Valid() && old(log) <= log
        invariant |replies| == i && Written(before.records, records, appended, sequence, previous)
        invariant InBatch(before, |old(log)|, Now(), log, indexed)
        invariant Follows(before.records, records, replies, found.Keys, inputs, i, now)
        invariant leading ==> index == before.index && binding == before.binding
      {
        var reply, event;
        reply, event, indexed :=
          AnswerOrWrite(found, inputs, i, sequence, previous, now, before, |old(log)|, indexed, appended, replies, leading);
        if reply.Err? {
          return Err(reply.error), appended, indexed;
        }
        if event.Some? {
          sequence, previous := sequence + 1, Some(event.value.eventId);
          appended := appended + [event.value];
        }
        replies := replies + [reply.value];
      }
      assert inputs[..|inputs|] == inputs;
      r := Ok(replies);
    }

    /** One head for the whole batch, then the index rows, then the sidecar. */
    method Publish(appended: seq<Event>, ghost before: Disk, ghost from: nat, ghost indexed: nat)
      requires Valid() && appended != [] && Numbered(appended)
      requires records == before.records + FilesOf(appended) && InBatch(before, from, Now(), log, indexed)
      modifies `head, `index, `binding, `log
      ensures Valid() && old(log) <= log && HeadMatches(records, head)
      ensures index == Some(RowsIn(old(index)) + RowsFor(appended))
      ensures binding == Some(Binding(Some(appended[|appended| - 1].eventId), |records|))
      ensures forall k | |old(log)| <= k < |log| :: AfterHead(before, Now(), log[k])
      ensures Grows(log, |old(log)|)
    {
      var last := appended[|appended| - 1];
      ghost var start, startLog := Now(), log;
      assert records[|records| - 1] == FileOf(last);
      WriteHead(Json(HeadOfLast(Some(last))));
      ghost var published := Now();
      AppendIndexRows(RowsFor(appended));
      ghost var grown := log;
      WriteBinding(Some(last.eventId), |records|);
      AfterHeadStates(before, from, start, startLog, indexed, appended, published, grown, Now());
    }

    /** Reads or rebuilds the index, and says what state that leaves. */
    method IndexForTip(tip: Head) returns (found: Result<map<Key, int>, Error>)
      requires Valid() && TipOf(records, head) == Ok(tip)
      modifies `index, `binding, `log
      ensures Valid() && old(log) <= log
      ensures forall k | |old(log)| <= k < |log| :: BeforeHead(old(Now()), records, log[k])
      ensures Grows(log, |old(log)|)
      ensures found.Err? ==> log == old(log) && !Verified(records)
      ensures found.Ok? ==> IndexSize(index, binding) == Some(|records|)
      ensures found.Ok? && old(Committed(Now())) ==> found.value.Keys == old(KnownKeys(Now()))
      ensures found.Ok? && old(InStep(Now())) ==> Now() == old(Now()) && Leading(records, found.value)
      ensures found.Ok? && old(Committed(Now()) && CacheSound(Now())) ==>
                found.value.Keys == RowKeys(RowsIn(index)) == Keys(records) && CacheSound(Now())
    {
      ghost var before := Now();
      ghost var inStep := InStep(before);
      if inStep { InStepIsTrusted(before, tip); }
      found := ReadIdempotencyIndex(tip);
      if found.Err? {
        if Verified(records) { LinkedHasNoParallelChain(records); }
        return;
      }
      IndexReady(before, Now(), tip, found.value);
      if log != old(log) {
        UnpublishedState(before, before.(index := index));
        UnpublishedState(before, Now());
      }
    }

    /** Writes what is new and publishes it, once the index is ready. */
    method WriteAndPublish(found: map<Key, int>, tip: Head, inputs: seq<Input>, now: int, ghost inStep: bool)
        returns (r: Result<seq<Reply>, Error>)
      requires Valid() && AcceptedBatch(inputs) && TipOf(records, head) == Ok(tip)
      requires IndexSize(index, binding) == Some(|records|)
      requires inStep ==> Verified(records) && Leading(records, found) && RebuiltFrom(index, binding, records)
      modifies `records, `head, `index, `binding, `log
      ensures Valid() && old(log) <= log && old(records) <= records
      ensures r.Err? ==> head == old(head)
      ensures r.Ok? ==> |r.value| == |inputs|
      ensures old(Verified(records)) ==>
                && r.Ok?
                && Outcome(records, r.value) == Cached(old(records), found.Keys, inputs, now)
                && HeadMatches(records, head)
      ensures inStep && r.Ok? ==> RebuiltFrom(index, binding, records)
      ensures forall k | |old(log)| <= k < |log| :: BeforeHead(old(Now()), records, log[k]) || AfterHead(old(Now()), Now(), log[k])
      ensures Grows(log, |old(log)|)
    {
      ghost var ready := Now();
      TipMeaning(records, head);
      var replies, appended, indexed := WriteBatch(found, tip, inputs, now);
      ghost var writtenLog := log;
      if appended == [] { assert records == ready.records; }
      if replies.Ok? && appended != [] {
        Publish(appended, ready, |old(log)|, indexed);
        if inStep { StaysInStep(ready.records, appended); }
      }
      GrowsOn(writtenLog, log, |old(log)|);
      r := replies;
    }

    /** The append under the store lock, once the tip is verified. */
    method AppendLocked(tip: Head, inputs: seq<Input>, now: int) returns (r: Result<seq<Reply>, Error>)
      requires Valid() && AcceptedBatch(inputs) && TipOf(records, head) == Ok(tip)
      modifies `records, `head, `index, `binding, `log
      ensures Valid() && old(log) <= log && old(records) <= records
      ensures forall k | |old(log)| <= k < |log| :: AppendState(old(Now()), Now(), log[k])
      ensures Grows(log, |old(log)|)
      ensures r.Err? ==> head == old(head)
      ensures r.Ok? ==> |r.value| == |inputs|
      ensures old(Committed(Now())) ==>
                && r.Ok?
                && Outcome(records, r.value) == Cached(old(records), old(KnownKeys(Now())), inputs, now)
                && HeadMatches(records, head)
      ensures old(Committed(Now()) && CacheSound(Now())) ==>
                && old(KnownKeys(Now())) == Keys(old(records))
                && (log == old(log) || CacheSound(Now()))
      ensures old(InStep(Now())) ==> RebuiltFrom(index, binding, records)
    {
      ghost var before := Now();
      var found := IndexForTip(tip);
      if found.Err? {
        return Err(found.error);
      }
      ghost var ready, readyLog := Now(), log;
      r := WriteAndPublish(found.value, tip, inputs, now, InStep(before));
      GrowsOn(readyLog, log, |old(log)|);
      AppendStates(before, ready, Now(), log, |old(log)|, |readyLog|);
    }

    /** `appendBrokerEvents`. */
    method AppendBrokerEvents(inputs: seq<Input>, now: int) returns (r: Result<seq<Reply>, Error>)
      requires Valid()
      modifies `records, `head, `index, `binding, `log
      ensures Valid() && old(log) <= log && old(records) <= records
      // every crash state: records first, then the head, and a sound cache throughout
      ensures forall k | |old(log)| <= k < |log| :: AppendState(old(Now()), Now(), log[k])
      ensures Grows(log, |old(log)|)
      // refused: nothing is written
      ensures inputs == [] ==> r == Err(NoEvents)
      ensures inputs != [] && !ValidInputs(inputs) ==> r == Err(InvalidInput)
      ensures inputs != [] && ValidInputs(inputs) && !DistinctInputs(inputs) ==> r == Err(RepeatedKey)
      ensures AcceptedBatch(inputs) && TipOf(old(records), old(head)).Err? ==> r == Err(TipOf(old(records), old(head)).error)
      ensures !AcceptedBatch(inputs) || TipOf(old(records), old(head)).Err? ==> log == old(log)
      ensures r.Err? ==> head == old(head)
      ensures r.Ok? ==> |r.value| == |inputs|
      // accepted by a committed store
      ensures AcceptedBatch(inputs) && old(Committed(Now())) ==>
                && r.Ok?
                && Outcome(records, r.value) == Cached(old(records), old(KnownKeys(Now())), inputs, now)
                && HeadMatches(records, head)
      // with a sound cache: the plain scan, and a committed store with a sound cache again
      ensures AcceptedBatch(inputs) && old(Committed(Now()) && CacheSound(Now())) ==>
                && r.Ok? && Outcome(records, r.value) == Plain(old(records), inputs, now)
                && Answers(old(records), records, inputs, r.value, now)
                && Committed(Now()) && CacheSound(Now())
      // an index in step with the chain is used as it is, and stays in step
      ensures old(InStep(Now())) ==> RebuiltFrom(index, binding, records)
    {
      ghost var before := Now();
      if Committed(before) { CommittedTip(before); }
      var refused := CheckBatch(inputs);
      if refused.Some? { return Err(refused.value); }
      var tip := TipOf(records, head);
      if tip.Err? { return Err(tip.error); }
      r := AppendLocked(tip.value, inputs, now);
      if Committed(before) && CacheSound(before) {
        CoveringCacheAgrees(before.records, Keys(before.records), inputs, now);
        PlainKeepsVerified(before.records, inputs, now);
        PlainAnswers(before.records, inputs, now);
      }
    }

    // ---- repair ----

    /** `repairEventHead`. */
    method RepairEventHead(truncate: bool) returns (r: Result<Repaired, Error>)
      requires Valid()
      modifies this
      ensures Valid() && old(log) <= log
      ensures r.Ok? <==> CanRepair(old(records), truncate)
      // refused: the disk is as it was, and the error says why
      ensures r.Err? ==> Now() == old(Now())
      ensures r == Err(ParallelChain) <==> !NoParallelChain(old(records))
      ensures r == Err(KeyTwice) <==> NoParallelChain(old(records)) && !truncate && exists n :: FirstRepeat(old(records), n)
      ensures r.Err? ==> r.error == ParallelChain || r.error == KeyTwice || r.error == ChainBroken
      ensures r.Err? ==> forall i | |old(log)| <= i < |log| ::
                log[i] == old(Now()) || log[i] == old(Now()).(head := None)
      ensures r.Ok? ==> RepairedTo(old(Now()), Now(), r.value)
      ensures r.Ok? ==> RepairStates(log, |old(log)|, old(Now()), r.value.eventCount)
    {
      if !NoParallelChain(records) { return Err(ParallelChain); }
      ghost var before := Now();
      var existing := head;
      if existing.Some? { RemoveHead(); }
      var n, broken := ScanForRepair(records);
      RepairRefused(records, n, broken, truncate);
      if broken || (n < |records| && !truncate) {
        PutBack(existing, before, |old(log)|);
        return Err(if broken then ChainBroken else KeyTwice);
      }
      UntouchedState(before, n, Now());
      var done := Truncate(n, before, |old(log)|);
      r := Ok(done);
    }

    /** The head as it was before the scan. */
    method PutBack(existing: Option<HeadText>, ghost before: Disk, ghost from: nat)
      requires Valid() && head == None && Now() == before.(head := None) && existing == before.head
      requires forall i | from <= i < |log| :: log[i] == before || log[i] == before.(head := None)
      modifies `head, `log
      ensures Valid() && old(log) <= log && Now() == before
      ensures forall i | from <= i < |log| :: log[i] == before || log[i] == before.(head := None)
    {
      if existing.Some? { WriteHead(existing.value); }
    }

    /** Ends the chain at n records, and makes the store consistent again. */
    method Truncate(n: nat, ghost before: Disk, ghost from: nat) returns (r: Repaired)
      requires Valid() && LongestVerified(records, n) && head == None
      requires Now() == before.(head := None)
      requires RepairStates(log, from, before, n)
      modifies this
      ensures Valid() && old(log) <= log
      ensures r.eventCount == n && RepairedTo(before, Now(), r)
      ensures RepairStates(log, from, before, n)
    {
      var quarantined := records[n..];
      QuarantineFrom(n, before);
      ghost var moved := |log|;
      Recommit();
      forall i | moved <= i < |log| ensures RepairState(before, n, log[i]) {
        MovedState(before, n, log[i]);
      }
      r := Repaired(ExpectedHead(records), n, quarantined);
    }

    /** Publishes the head of the records as they are, and rebuilds the index. */
    method Recommit()
      requires Valid() && Verified(records) && head == None
      modifies `head, `index, `binding, `log
      ensures Valid() && old(log) <= log
      ensures Committed(Now()) && RebuiltFrom(index, binding, records) && CacheSound(Now())
      ensures forall i | |old(log)| <= i < |log| ::
                && log[i].records == records && log[i].quarantine == quarantine
                && (log[i].head == None || HeadMatches(records, log[i].head))
                && ((log[i].index == old(index) && log[i].binding == old(binding)) || log[i].index == Some(RowsOf(records)))
    {
      LinkedHasNoParallelChain(records);
      RowsOfVerified(records);
      if records != [] {
        WriteHead(Json(ExpectedHead(records)));
      }
      var rebuilt := RebuildIdempotencyIndex();
    }

    /** Walks the records from the first until one does not validate or repeats a key. */
    static method ScanForRepair(paths: seq<RecordFile>) returns (n: nat, broken: bool)
      ensures Scanned(paths, n, broken)
    {
      n := 0;
      var keys: set<Key> := {};
      var previous: Option<Id> := None;
      while n < |paths|
        invariant n <= |paths| && Verified(paths[..n])
        invariant keys == Keys(paths[..n]) && previous == IdBefore(paths, n)
      {
        OneMoreRecord(paths, n);
        if !ValidStored(paths[n], n + 1, previous) { return n, true; }
        var event := paths[n].content.event;
        if event.core.key in keys { return n, false; }
        keys := keys + {event.core.key};
        previous := Some(event.eventId);
        n := n + 1;
      }
      broken := false;
    }

    /** Moves record n and everything after it into quarantine, one file at a time. */
    method QuarantineFrom(n: nat, ghost before: Disk)
      requires Valid() && n <= |records| && head == None
      requires Now() == before.(head := None)
      modifies `records, `quarantine, `log
      ensures Valid() && old(log) <= log
      ensures records == before.records[..n] && quarantine == before.quarantine + before.records[n..]
      ensures index == before.index && binding == before.binding
      ensures RepairStates(log, |old(log)|, before, n)
    {
      ghost var k := 0;
      assert records == before.records[..n] + before.records[n..] && quarantine == before.quarantine + before.records[n..n];
      while n < |records|
        invariant Valid() && old(log) <= log && 0 <= k <= |before.records| - n
        invariant records == before.records[..n] + before.records[n + k..]
        invariant quarantine == before.quarantine + before.records[n..n + k]
        invariant RepairStates(log, |old(log)|, before, n)
        decreases |records|
      {
        OneMoved(before, n, k, Now());
        MoveToQuarantine(n);
        k := k + 1;
      }
    }
  }
}
