/** Outbox delivery of `src/lifecycle-events.mts`: pending entries are appended to the event store and then
    acknowledged with a receipt. Delivery may stop after any file write and be run again. */
module LifecycleOutbox {
  import opened Wrappers
  import opened EventChain
  import opened ReferenceAppend
  import opened EventStore
  import opened CrashRecovery

  /** A pending outbox file. Its attestations and deltas are given as the broker events they become; `subjects` are the
      references of what is attested. */
  datatype OutboxEntry = OutboxEntry(name: string, attestations: seq<Input>, subjects: set<string>, events: seq<Input>)

  datatype Receipt = UnreadableReceipt | Receipt(headEventId: Option<Id>, eventIds: seq<Id>)

  datatype DeliveryError = StoreFailed(error: Error) | RefusedGenesis

  datatype Delivery = Delivery(entries: nat, events: nat, subjects: set<string>)

  /** The clock is read anew for every append: when the k-th append for an entry happens. */
  type Clock = nat -> int

  /** The store and the delivered directory at one moment. */
  datatype State = State(disk: Disk, receipts: map<string, Receipt>)

  function EntryKeys(entry: OutboxEntry): set<Key> {
    InputKeys(entry.attestations) + InputKeys(entry.events)
  }

  function ReceiptProves(receipt: Receipt): bool {
    receipt.UnreadableReceipt? || receipt.headEventId.Some? || receipt.eventIds != []
  }

  predicate ReceiptsProveChain(receipts: map<string, Receipt>) {
    exists name | name in receipts :: ReceiptProves(receipts[name])
  }

  /** Some receipt proves that a chain existed: it cannot be read, or names the head it left or an event. */
  ghost predicate ChainProved(receipts: map<string, Receipt>) {
    exists name :: name in receipts && match receipts[name]
                                       case UnreadableReceipt => true
                                       case Receipt(headEventId, eventIds) => headEventId != None || |eventIds| > 0
  }

  lemma ProofMeaning(receipts: map<string, Receipt>)
    ensures ReceiptsProveChain(receipts) <==> ChainProved(receipts)
  {
    forall name | name in receipts && ReceiptProves(receipts[name]) ensures ChainProved(receipts) {
      match receipts[name] { case UnreadableReceipt => case Receipt(_, _) => }
    }
  }

  /** The receipt of a delivered entry: an id for each of its attestations and events, and the last of them as the head. */
  ghost predicate ReceiptOf(receipt: Receipt, entry: OutboxEntry) {
    && receipt.Receipt? && |receipt.eventIds| == |entry.attestations| + |entry.events|
    && receipt.headEventId == (if |receipt.eventIds| == 0 then None else Some(receipt.eventIds[|receipt.eventIds| - 1]))
  }

  ghost predicate ReceiptKept(was: map<string, Receipt>, receipts: map<string, Receipt>, name: string) {
    name in was ==> name in receipts && receipts[name] == was[name]
  }

  ghost predicate ReceiptAdded(was: map<string, Receipt>, receipts: map<string, Receipt>, entry: OutboxEntry) {
    entry.name !in was ==> entry.name in receipts && ReceiptOf(receipts[entry.name], entry)
  }

  /** A new receipt is that of one of the first n entries. */
  ghost predicate ReceiptExpected(was: map<string, Receipt>, receipts: map<string, Receipt>, pending: seq<OutboxEntry>, n: nat,
                                  name: string)
    requires n <= |pending|
  {
    name in receipts && name !in was ==> exists i :: 0 <= i < n && pending[i].name == name
  }

  /** The receipts that there were are untouched, the first n entries that had none before have one now, and nothing
      else has. */
  ghost predicate ReceiptsAdded(was: map<string, Receipt>, receipts: map<string, Receipt>, pending: seq<OutboxEntry>, n: nat)
    requires n <= |pending|
  {
    && (forall name :: ReceiptKept(was, receipts, name) && ReceiptExpected(was, receipts, pending, n, name))
    && (forall i | 0 <= i < n :: ReceiptAdded(was, receipts, pending[i]))
  }

  lemma AllHaveReceipts(was: map<string, Receipt>, receipts: map<string, Receipt>, pending: seq<OutboxEntry>)
    requires ReceiptsAdded(was, receipts, pending, |pending|)
    ensures forall i | 0 <= i < |pending| :: pending[i].name in receipts
  {
    forall i | 0 <= i < |pending| ensures pending[i].name in receipts {
      assert ReceiptKept(was, receipts, pending[i].name) && ReceiptAdded(was, receipts, pending[i]);
    }
  }

  lemma NotDeliveredYet(was: map<string, Receipt>, before: map<string, Receipt>, pending: seq<OutboxEntry>, i: nat)
    requires i < |pending| && DistinctNames(pending) && ReceiptsAdded(was, before, pending, i)
    ensures pending[i].name in before <==> pending[i].name in was
  {
    assert ReceiptKept(was, before, pending[i].name) && ReceiptExpected(was, before, pending, i, pending[i].name);
  }

  lemma OneMoreReceipt(was: map<string, Receipt>, before: map<string, Receipt>, receipts: map<string, Receipt>,
                       pending: seq<OutboxEntry>, i: nat)
    requires i < |pending| && DistinctNames(pending) && ReceiptsAdded(was, before, pending, i)
    requires receipts.Keys == before.Keys + {pending[i].name}
    requires (forall name :: ReceiptKept(before, receipts, name)) && ReceiptAdded(before, receipts, pending[i])
    ensures ReceiptsAdded(was, receipts, pending, i + 1)
  {
    forall name ensures ReceiptKept(was, receipts, name) && ReceiptExpected(was, receipts, pending, i + 1, name) {
      assert ReceiptKept(was, before, name) && ReceiptKept(before, receipts, name);
      assert ReceiptExpected(was, before, pending, i, name);
    }
    forall j | 0 <= j <= i ensures ReceiptAdded(was, receipts, pending[j]) {
      assert ReceiptKept(before, receipts, pending[j].name);
      if j < i { assert ReceiptAdded(was, before, pending[j]); } else { NotDeliveredYet(was, before, pending, i); }
    }
  }

  /** A receipt for an entry that delivered anything is such a proof. */
  lemma ReceiptOfProves(receipts: map<string, Receipt>, entry: OutboxEntry)
    requires entry.name in receipts && ReceiptOf(receipts[entry.name], entry) && entry.attestations + entry.events != []
    ensures ChainProved(receipts)
  {
    assert |entry.attestations + entry.events| > 0;
    match receipts[entry.name] { case UnreadableReceipt => case Receipt(_, eventIds) => assert |eventIds| > 0; }
  }

  /** Wherever the receipts are backed, that of an entry that delivered anything is such a proof. */
  lemma DeliveredProves(state: State, pending: seq<OutboxEntry>, i: nat)
    requires Backed(state, pending) && i < |pending| && pending[i].name in state.receipts
    requires pending[i].attestations + pending[i].events != []
    ensures ChainProved(state.receipts)
  {
    var receipt := state.receipts[pending[i].name];
    assert ReceiptBacked(receipt, pending[i], state.disk.records);
    match receipt { case UnreadableReceipt => case Receipt(_, eventIds) => assert |eventIds| > 0; }
  }

  /** The chain verifies, whether or not its head is published, and the index can be relied on when it is. */
  ghost predicate Healthy(d: Disk) {
    Verified(d.records) && CacheSound(d)
  }

  /** Every receipt is backed by the chain. */
  ghost predicate Backed(state: State, pending: seq<OutboxEntry>) {
    && Healthy(state.disk)
    && forall i | 0 <= i < |pending| :: pending[i].name in state.receipts ==>
         ReceiptBacked(state.receipts[pending[i].name], pending[i], state.disk.records)
  }

  /** The keys of the entry are on the chain, and the receipt names the events that carry them, in order. */
  ghost predicate ReceiptBacked(receipt: Receipt, entry: OutboxEntry, files: seq<RecordFile>) {
    && EntryKeys(entry) <= Keys(files)
    && (receipt.Receipt? ==>
          && NamesEvents(receipt.eventIds, entry.attestations + entry.events, files)
          && receipt.headEventId == LastId(receipt.eventIds))
  }

  function LastId(ids: seq<Id>): Option<Id> {
    if ids == [] then None else Some(ids[|ids| - 1])
  }

  predicate NamesEvents(ids: seq<Id>, inputs: seq<Input>, files: seq<RecordFile>) {
    && |ids| == |inputs|
    && forall i | 0 <= i < |inputs| :: IdOfKey(files, inputs[i].key) == Some(ids[i])
  }

  function IdOfKey(files: seq<RecordFile>, key: Key): Option<Id> {
    match Find(files, key)
    case None => None
    case Some(event) => Some(event.eventId)
  }

  function ReplyIds(replies: seq<Reply>): seq<Id> {
    seq(|replies|, i requires 0 <= i < |replies| => replies[i].event.eventId)
  }

  /** The ids an append answers with are those of the events on the chain. */
  lemma RepliesName(files: seq<RecordFile>, inputs: seq<Input>, now: int, ids: seq<Id>)
    requires ids == ReplyIds(Plain(files, inputs, now).replies)
    ensures NamesEvents(ids, inputs, Plain(files, inputs, now).files)
  {
    RepliesAreLookups(files, inputs, now);
  }

  lemma NamesStay(ids: seq<Id>, inputs: seq<Input>, files: seq<RecordFile>, longer: seq<RecordFile>)
    requires NamesEvents(ids, inputs, files) && files <= longer
    ensures NamesEvents(ids, inputs, longer)
  {
    forall i | 0 <= i < |inputs| ensures IdOfKey(longer, inputs[i].key) == Some(ids[i]) {
      assert IdOfKey(files, inputs[i].key) == Some(ids[i]);
      assert longer == files + longer[|files|..];
      FindInLonger(files, longer[|files|..], inputs[i].key);
    }
  }

  lemma NamesTogether(a: seq<Id>, xs: seq<Input>, b: seq<Id>, ys: seq<Input>, files: seq<RecordFile>)
    requires NamesEvents(a, xs, files) && NamesEvents(b, ys, files)
    ensures NamesEvents(a + b, xs + ys, files)
  {
  }

  /** Every state from this point of the log on is backed. */
  ghost predicate BackedFrom(log: seq<State>, from: nat, pending: seq<OutboxEntry>) {
    forall k {:trigger Backed(log[k], pending)} | from <= k < |log| :: Backed(log[k], pending)
  }

  function Occurrences(files: seq<RecordFile>, key: Key): nat {
    if files == [] then 0 else Occurrences(files[..|files| - 1], key) + if KeyOf(files[|files| - 1]) == key then 1 else 0
  }

  lemma {:induction false} OccursOnce(files: seq<RecordFile>, key: Key)
    requires DistinctKeys(files)
    ensures Occurrences(files, key) == if key in Keys(files) then 1 else 0
    decreases |files|
  {
    if files != [] {
      var n := |files| - 1;
      VerifiedPrefix(files, n);
      OccursOnce(files[..n], key);
      assert files == files[..n] + [files[n]];
      ExtendDistinct(files[..n], files[n]);
    }
  }

  /** Exactly once: each key of an entry is on the chain at most once, and exactly once as soon as the entry has its
      receipt. */
  lemma BackedMeansExactlyOnce(state: State, pending: seq<OutboxEntry>, i: nat, key: Key)
    requires Backed(state, pending) && i < |pending| && key in EntryKeys(pending[i])
    ensures Occurrences(state.disk.records, key) <= 1
    ensures pending[i].name in state.receipts ==> Occurrences(state.disk.records, key) == 1
  {
    OccursOnce(state.disk.records, key);
  }

  lemma OneMoreNamed(inputs: seq<Input>, i: nat, taken: seq<Id>, one: seq<Id>, files: seq<RecordFile>, longer: seq<RecordFile>)
    requires i < |inputs| && files <= longer
    requires NamesEvents(taken, inputs[..i], files) && InputKeys(inputs[..i]) <= Keys(files)
    requires NamesEvents(one, [inputs[i]], longer) && InputKeys([inputs[i]]) <= Keys(longer)
    ensures NamesEvents(taken + one, inputs[..i + 1], longer) && InputKeys(inputs[..i + 1]) <= Keys(longer)
  {
    KeysGrow(files, longer);
    InputKeysOfLast(inputs[..i + 1]);
    NamesStay(taken, inputs[..i], files, longer);
    NamesTogether(taken, inputs[..i], one, [inputs[i]], longer);
    assert inputs[..i + 1] == inputs[..i] + [inputs[i]];
    assert [inputs[i]][0].key in InputKeys([inputs[i]]);
  }

  lemma KeysGrow(files: seq<RecordFile>, longer: seq<RecordFile>)
    requires files <= longer
    ensures Keys(files) <= Keys(longer)
  {
    forall i | 0 <= i < |files| ensures KeyOf(files[i]) in Keys(longer) {
      assert longer[i] == files[i];
    }
  }

  function Paired(disks: seq<Disk>, receipts: map<string, Receipt>): seq<State> {
    seq(|disks|, k requires 0 <= k < |disks| => State(disks[k], receipts))
  }

  lemma StaysBacked(receipt: Receipt, entry: OutboxEntry, files: seq<RecordFile>, longer: seq<RecordFile>)
    requires ReceiptBacked(receipt, entry, files) && files <= longer
    ensures ReceiptBacked(receipt, entry, longer)
  {
    KeysGrow(files, longer);
    if receipt.Receipt? { NamesStay(receipt.eventIds, entry.attestations + entry.events, files, longer); }
  }

  /** States reached from a backed one by growing the chain are backed. */
  lemma GrownStatesBacked(receipts: map<string, Receipt>, pending: seq<OutboxEntry>, before: Disk, disks: seq<Disk>)
    requires Backed(State(before, receipts), pending)
    requires forall k | 0 <= k < |disks| :: Healthy(disks[k]) && before.records <= disks[k].records
    ensures BackedFrom(Paired(disks, receipts), 0, pending)
  {
    forall k | 0 <= k < |disks| ensures Backed(State(disks[k], receipts), pending) {
      forall i | 0 <= i < |pending| && pending[i].name in receipts
        ensures ReceiptBacked(receipts[pending[i].name], pending[i], disks[k].records) {
        StaysBacked(receipts[pending[i].name], pending[i], before.records, disks[k].records);
      }
    }
  }

  /** An entry that is still to be delivered, and has something to deliver. */
  ghost predicate DeliversAny(entry: OutboxEntry, receipts: map<string, Receipt>) {
    entry.name !in receipts && entry.attestations + entry.events != []
  }

  predicate DistinctNames(pending: seq<OutboxEntry>) {
    forall i, j | 0 <= i < j < |pending| :: pending[i].name != pending[j].name
  }

  /** What there is to deliver among the first n entries: those without a receipt, their events and their subjects. */
  function Undelivered(pending: seq<OutboxEntry>, n: nat, delivered: set<string>): Delivery
    requires n <= |pending|
  {
    if n == 0 then Delivery(0, 0, {})
    else
      var before := Undelivered(pending, n - 1, delivered);
      if pending[n - 1].name in delivered then before else Plus(before, pending[n - 1])
  }

  function Plus(total: Delivery, entry: OutboxEntry): Delivery {
    Delivery(total.entries + 1, total.events + |entry.events|, total.subjects + entry.subjects)
  }

  /** The places of the undelivered entries among the first n. */
  ghost function UndeliveredAt(pending: seq<OutboxEntry>, n: nat, delivered: set<string>): set<nat>
    requires n <= |pending|
  {
    set i: nat | i < n && pending[i].name !in delivered
  }

  /** The events of the undelivered entries, one after the other. */
  ghost function UndeliveredEvents(pending: seq<OutboxEntry>, n: nat, delivered: set<string>): seq<Input>
    requires n <= |pending|
  {
    if n == 0 then []
    else UndeliveredEvents(pending, n - 1, delivered) + if pending[n - 1].name in delivered then [] else pending[n - 1].events
  }

  ghost predicate SubjectOf(s: string, pending: seq<OutboxEntry>, at: set<nat>) {
    exists i :: i in at && i < |pending| && s in pending[i].subjects
  }

  lemma OneMoreUndelivered(pending: seq<OutboxEntry>, n: nat, delivered: set<string>)
    requires 0 < n <= |pending|
    ensures UndeliveredAt(pending, n, delivered) ==
              UndeliveredAt(pending, n - 1, delivered) + if pending[n - 1].name in delivered then {} else {n - 1}
  {
  }

  /** A delivery counts the entries without a receipt and their events. */
  lemma {:induction false} UndeliveredMeaning(pending: seq<OutboxEntry>, n: nat, delivered: set<string>)
    requires n <= |pending|
    ensures Undelivered(pending, n, delivered).entries == |UndeliveredAt(pending, n, delivered)|
    ensures Undelivered(pending, n, delivered).events == |UndeliveredEvents(pending, n, delivered)|
  {
    if n > 0 {
      UndeliveredMeaning(pending, n - 1, delivered);
      OneMoreUndelivered(pending, n, delivered);
    }
  }

  /** And it gathers their subjects. */
  lemma {:induction false} UndeliveredSubjects(pending: seq<OutboxEntry>, n: nat, delivered: set<string>, s: string)
    requires n <= |pending|
    ensures s in Undelivered(pending, n, delivered).subjects <==> SubjectOf(s, pending, UndeliveredAt(pending, n, delivered))
  {
    if n > 0 {
      UndeliveredSubjects(pending, n - 1, delivered, s);
      OneMoreUndelivered(pending, n, delivered);
      SubjectsOfLast(pending, UndeliveredAt(pending, n - 1, delivered), n - 1, s);
    }
  }

  lemma SubjectsOfLast(pending: seq<OutboxEntry>, at: set<nat>, last: nat, s: string)
    requires last < |pending|
    ensures SubjectOf(s, pending, at + {last}) <==> SubjectOf(s, pending, at) || s in pending[last].subjects
    ensures SubjectOf(s, pending, at + {}) <==> SubjectOf(s, pending, at)
  {
    assert at + {} == at;
    if SubjectOf(s, pending, at) {
      var i :| i in at && i < |pending| && s in pending[i].subjects;
      assert i in at + {last};
    }
    if s in pending[last].subjects { assert last in at + {last}; }
  }

  /** The inputs of every append for this entry pass the checks of the store. */
  predicate AcceptedEntry(entry: OutboxEntry) {
    ValidInputs(entry.attestations) && (entry.events == [] || AcceptedBatch(entry.events))
  }

  predicate AcceptedEntries(pending: seq<OutboxEntry>) {
    forall i | 0 <= i < |pending| :: AcceptedEntry(pending[i])
  }

  lemma NothingDelivered(pending: seq<OutboxEntry>, receipts: map<string, Receipt>)
    ensures DeliveredTo(pending, 0, receipts, receipts, Delivery(0, 0, {}))
  {
  }

  /** What the loop over the entries keeps: which receipts there are, and what was delivered. */
  ghost predicate DeliveredTo(pending: seq<OutboxEntry>, i: nat, was: map<string, Receipt>, receipts: map<string, Receipt>,
                              total: Delivery)
  {
    && i <= |pending| && total == Undelivered(pending, i, was.Keys)
    && ReceiptsAdded(was, receipts, pending, i)
  }

  lemma OneMoreEntry(pending: seq<OutboxEntry>, i: nat, was: map<string, Receipt>, before: map<string, Receipt>,
                     receipts: map<string, Receipt>, total: Delivery)
    requires i < |pending| && DistinctNames(pending) && DeliveredTo(pending, i, was, before, total)
    requires receipts.Keys == before.Keys + {pending[i].name}
    requires (forall name :: ReceiptKept(before, receipts, name)) && ReceiptAdded(before, receipts, pending[i])
    ensures DeliveredTo(pending, i + 1, was, receipts, if pending[i].name in before then total else Plus(total, pending[i]))
  {
    NotDeliveredYet(was, before, pending, i);
    OneMoreReceipt(was, before, receipts, pending, i);
  }

  /** The states of one append to a store whose chain verifies stay backed; an unpublished head writes nothing. */
  lemma GrowthIsBacked(before: Disk, after: Disk, disks: seq<Disk>, inputs: seq<Input>, now: int,
                       receipts: map<string, Receipt>, pending: seq<OutboxEntry>)
    requires Backed(State(before, receipts), pending)
    requires disks != [] ==> Uninterrupted(before, inputs, now, after)
    requires forall k | 0 <= k < |disks| :: AppendState(before, after, disks[k])
    ensures BackedFrom(Paired(disks, receipts), 0, pending)
  {
    forall k | 0 <= k < |disks| ensures Healthy(disks[k]) && before.records <= disks[k].records {
      CrashKeepsVerified(before, inputs, now, after, disks[k]);
    }
    GrownStatesBacked(receipts, pending, before, disks);
  }

  lemma JoinStates(middle: seq<State>, end: seq<State>, from: nat, pending: seq<OutboxEntry>)
    requires middle != [] && middle <= end
    requires BackedFrom(middle, from, pending) && BackedFrom(end, |middle| - 1, pending)
    ensures BackedFrom(end, from, pending)
  {
    forall k | from <= k < |end| ensures Backed(end[k], pending) {
      if k < |middle| { assert end[k] == middle[k]; }
    }
  }

  lemma AppendedStates(start: seq<State>, more: seq<State>, pending: seq<OutboxEntry>)
    requires start != [] && Backed(start[|start| - 1], pending) && BackedFrom(more, 0, pending)
    ensures BackedFrom(start + more, |start| - 1, pending)
  {
  }

  lemma AppendIsBacked(log: seq<State>, before: Disk, after: Disk, disks: seq<Disk>, inputs: seq<Input>, now: int,
                       receipts: map<string, Receipt>, pending: seq<OutboxEntry>)
    requires log != [] && log[|log| - 1] == State(before, receipts) && Backed(State(before, receipts), pending)
    requires disks != [] ==> Uninterrupted(before, inputs, now, after)
    requires forall k | 0 <= k < |disks| :: AppendState(before, after, disks[k])
    ensures BackedFrom(log + Paired(disks, receipts), |log| - 1, pending)
  {
    GrowthIsBacked(before, after, disks, inputs, now, receipts, pending);
    AppendedStates(log, Paired(disks, receipts), pending);
  }

  /** What may happen next, and after how many of its writes it stops. */
  datatype Work =
    | DeliverOutbox(allowGenesis: bool, clock: nat -> Clock)
    | RepairStore
    | OtherAppend(inputs: seq<Input>, now: int)
    | EntryArrives(entry: OutboxEntry, at: nat)

  datatype Action = Action(work: Work, crash: Option<nat>)

  lemma RepairedIsHealthy(before: Disk, d: Disk)
    requires Healthy(before) && RepairState(before, |before.records|, d)
    ensures Healthy(d) && d.records == before.records
  {
    assert d.records == before.records[..|before.records|] + before.records[|before.records|..] == before.records;
    LinkedHasNoParallelChain(d.records);
    RowsOfVerified(d.records);
  }

  lemma RecordsSorted(files: seq<RecordFile>)
    requires Linked(files)
    ensures Sorted(files)
  {
    forall i | 0 <= i < |files| ensures files[i].sequence == i + 1 { assert LinkedAt(files, i); }
  }

  predicate IsNewName(name: string, pending: seq<OutboxEntry>, receipts: map<string, Receipt>) {
    name !in receipts && forall i | 0 <= i < |pending| :: pending[i].name != name
  }

  lemma Inserted(pending: seq<OutboxEntry>, k: nat, entry: OutboxEntry)
    requires k <= |pending|
    ensures forall e :: e in pending[..k] + [entry] + pending[k..] <==> e in pending || e == entry
  {
    assert pending == pending[..k] + pending[k..];
  }

  /** Where an action stops, of the states it passes through. */
  ghost function StoppedIn(action: Action, passed: seq<State>): State
    requires passed != []
  {
    passed[if action.crash.Some? && action.crash.value < |passed| then action.crash.value else |passed| - 1]
  }

  /** The next action starts where this one stopped. */
  ghost predicate Continues(action: Action, passed: seq<State>, next: seq<State>) {
    passed != [] && next != [] && next[0] == StoppedIn(action, passed)
  }

  class Lifecycle {
    const store: EventStore
    var pending: seq<OutboxEntry>
    var receipts: map<string, Receipt>
    var log: seq<State>

    ghost predicate Valid()
      reads this, store
    {
      && store.Valid()
      && log != [] && log[|log| - 1] == State(store.Now(), receipts)
    }

    constructor (store: EventStore, pending: seq<OutboxEntry>, receipts: map<string, Receipt>)
      requires store.Valid()
      ensures Valid() && this.store == store && this.pending == pending && this.receipts == receipts
      ensures log == [State(store.Now(), receipts)]
    {
      this.store, this.pending, this.receipts := store, pending, receipts;
      log := [State(store.Now(), receipts)];
    }

    /** One call of `appendBrokerEvents`, on a store that may be waiting for a repair, and the states it passes through. */
    method AppendToStore(inputs: seq<Input>, now: int, ghost sound: bool)
        returns (ids: Result<seq<Id>, DeliveryError>, states: seq<Disk>)
      requires store.Valid() && (sound ==> Healthy(store.Now()))
      modifies store
      ensures store.Valid() && old(store.records) <= store.records
      ensures store.Now() == if states == [] then old(store.Now()) else states[|states| - 1]
      ensures old(store.log) <= store.log && states == store.log[|old(store.log)|..]
      ensures forall k | 0 <= k < |states| :: AppendState(old(store.Now()), store.Now(), states[k])
      ensures sound && states != [] ==> Uninterrupted(old(store.Now()), inputs, now, store.Now())
      ensures ids.Ok? && sound ==> NamesEvents(ids.value, inputs, store.records) && InputKeys(inputs) <= Keys(store.records)
      ensures sound && old(Committed(store.Now())) ==> Committed(store.Now()) && (AcceptedBatch(inputs) ==> ids.Ok?)
      ensures if ids.Ok? then |ids.value| == |inputs| else ids.error.StoreFailed?
    {
      ghost var before := store.Now();
      var mark := |store.log|;
      if sound { TipOfVerified(before.records, before.head); }
      var replies := store.AppendBrokerEvents(inputs, now);
      states := store.log[mark..];
      if replies.Err? { return Err(StoreFailed(replies.error)), states; }
      var taken := IdsOf(replies.value);
      if sound {
        PlainKeepsVerified(before.records, inputs, now);
        RepliesName(before.records, inputs, now, taken);
      }
      ids := Ok(taken);
    }

    method Append(inputs: seq<Input>, now: int, ghost sound: bool) returns (ids: Result<seq<Id>, DeliveryError>)
      requires Valid() && (sound ==> Backed(log[|log| - 1], pending))
      modifies `receipts, `log, store
      ensures Valid() && old(log) <= log && receipts == old(receipts) && old(store.records) <= store.records
      ensures sound ==> BackedFrom(log, |old(log)| - 1, pending)
      ensures ids.Ok? && sound ==> NamesEvents(ids.value, inputs, store.records) && InputKeys(inputs) <= Keys(store.records)
      ensures sound && old(Committed(store.Now())) ==> Committed(store.Now()) && (AcceptedBatch(inputs) ==> ids.Ok?)
      ensures if ids.Ok? then |ids.value| == |inputs| else ids.error.StoreFailed?
      ensures old(store.log) <= store.log && log == old(log) + Paired(store.log[|old(store.log)|..], receipts)
    {
      ghost var before := store.Now();
      var states;
      ids, states := AppendToStore(inputs, now, sound);
      if sound { AppendIsBacked(log, before, store.Now(), states, inputs, now, receipts, pending); }
      log := log + Paired(states, receipts);
    }

    static method IdsOf(replies: seq<Reply>) returns (ids: seq<Id>)
      ensures ids == ReplyIds(replies)
    {
      ids := [];
      for i := 0 to |replies|
        invariant ids == ReplyIds(replies[..i])
      {
        ids := ids + [replies[i].event.eventId];
      }
      assert replies[..|replies|] == replies;
    }

    /** One append per attestation of an entry. */
    method DeliverAttestations(attestations: seq<Input>, clock: Clock, ghost sound: bool) returns (ids: Result<seq<Id>, DeliveryError>)
      requires Valid() && (sound ==> Backed(log[|log| - 1], pending))
      modifies `receipts, `log, store
      ensures Valid() && old(log) <= log && receipts == old(receipts) && old(store.records) <= store.records
      ensures sound ==> BackedFrom(log, |old(log)| - 1, pending)
      ensures ids.Ok? && sound ==> NamesEvents(ids.value, attestations, store.records) && InputKeys(attestations) <= Keys(store.records)
      ensures sound && old(Committed(store.Now())) ==> Committed(store.Now()) && (ValidInputs(attestations) ==> ids.Ok?)
      ensures if ids.Ok? then |ids.value| == |attestations| else ids.error.StoreFailed?
    {
      var taken: seq<Id> := [];
      for i := 0 to |attestations|
        invariant Valid() && old(log) <= log && receipts == old(receipts) && old(store.records) <= store.records
        invariant |taken| == i && (sound ==> BackedFrom(log, |old(log)| - 1, pending))
        invariant sound && old(Committed(store.Now())) ==> Committed(store.Now())
        invariant sound ==> NamesEvents(taken, attestations[..i], store.records) && InputKeys(attestations[..i]) <= Keys(store.records)
      {
        ghost var files, soFar := store.records, log;
        var one := Append([attestations[i]], clock(i), sound);
        if sound { JoinStates(soFar, log, |old(log)| - 1, pending); }
        if one.Err? { return Err(one.error); }
        if sound { OneMoreNamed(attestations, i, taken, one.value, files, store.records); }
        taken := taken + one.value;
      }
      assert attestations[..|attestations|] == attestations;
      ids := Ok(taken);
    }

    /** The appends of one entry: one per attestation, then one batch for the events. */
    method DeliverEntry(entry: OutboxEntry, clock: Clock, ghost sound: bool) returns (ids: Result<seq<Id>, DeliveryError>)
      requires Valid() && (sound ==> Backed(log[|log| - 1], pending))
      modifies `receipts, `log, store
      ensures Valid() && old(log) <= log && receipts == old(receipts) && old(store.records) <= store.records
      ensures sound ==> BackedFrom(log, |old(log)| - 1, pending)
      ensures ids.Ok? && sound ==> EntryKeys(entry) <= Keys(store.records)
      ensures ids.Ok? && sound ==> NamesEvents(ids.value, entry.attestations + entry.events, store.records)
      ensures sound && old(Committed(store.Now())) ==> Committed(store.Now()) && (AcceptedEntry(entry) ==> ids.Ok?)
      ensures if ids.Ok? then |ids.value| == |entry.attestations| + |entry.events| else ids.error.StoreFailed?
    {
      ids := DeliverAttestations(entry.attestations, clock, sound);
      if ids.Err? { return; }
      if entry.events == [] {
        assert entry.attestations + entry.events == entry.attestations;
        return;
      }
      ghost var files, soFar := store.records, log;
      var rest := Append(entry.events, clock(|entry.attestations|), sound);
      if sound { JoinStates(soFar, log, |old(log)| - 1, pending); }
      if rest.Err? { return Err(rest.error); }
      if sound {
        KeysGrow(files, store.records);
        NamesStay(ids.value, entry.attestations, files, store.records);
        NamesTogether(ids.value, entry.attestations, rest.value, entry.events, store.records);
      }
      ids := Ok(ids.value + rest.value);
    }

    method WriteReceipt(i: nat, ids: seq<Id>, ghost sound: bool)
      requires Valid() && i < |pending| && DistinctNames(pending)
      requires sound ==>
                 && Backed(log[|log| - 1], pending) && EntryKeys(pending[i]) <= Keys(store.records)
                 && NamesEvents(ids, pending[i].attestations + pending[i].events, store.records)
      modifies `receipts, `log
      ensures Valid() && log == old(log) + [State(store.Now(), receipts)]
      ensures sound ==> Backed(log[|log| - 1], pending)
      ensures receipts == old(receipts)[pending[i].name := Receipt(LastId(ids), ids)]
    {
      receipts := receipts[pending[i].name := Receipt(LastId(ids), ids)];
      log := log + [State(store.Now(), receipts)];
    }

    /** One pending entry without a receipt: its appends, then the receipt. */
    method DeliverPending(i: nat, clock: Clock, ghost sound: bool) returns (refused: Option<DeliveryError>)
      requires Valid() && i < |pending| && DistinctNames(pending)
      requires sound ==> Backed(log[|log| - 1], pending)
      modifies `receipts, `log, store
      ensures Valid() && old(log) <= log && old(store.records) <= store.records
      ensures sound ==> BackedFrom(log, |old(log)| - 1, pending)
      ensures refused.Some? ==> receipts == old(receipts) && refused.value.StoreFailed?
      ensures refused == None ==>
                && pending[i].name in receipts && ReceiptOf(receipts[pending[i].name], pending[i])
                && receipts == old(receipts)[pending[i].name := receipts[pending[i].name]]
      ensures sound && old(Committed(store.Now())) ==> Committed(store.Now()) && (AcceptedEntry(pending[i]) ==> refused == None)
    {
      var ids := DeliverEntry(pending[i], clock, sound);
      if ids.Err? { return Some(ids.error); }
      ghost var soFar := log;
      WriteReceipt(i, ids.value, sound);
      if sound { JoinStates(soFar, log, |old(log)| - 1, pending); }
      refused := None;
    }

    /** `deliverLifecycleOutbox`. From a backed state every state it passes through is backed, whatever fails or
        stops on the way; when it completes every pending entry has its receipt. Once a receipt proves that a chain
        existed, a store without records is refused before anything is written, unless a genesis is allowed. */
    method Deliver(allowGenesis: bool, clock: nat -> Clock) returns (r: Result<Delivery, DeliveryError>)
      requires Valid() && DistinctNames(pending)
      modifies `receipts, `log, store
      ensures Valid() && old(log) <= log && old(store.records) <= store.records
      // a second genesis is refused
      ensures old(ChainProved(receipts)) && !allowGenesis && old(store.records) == [] ==> r.Err? && log == old(log)
      ensures r == Err(RefusedGenesis) <==>
                old(ChainProved(receipts)) && !allowGenesis && old(store.records) == [] && old(store.head) == None
      // whatever fails or stops
      ensures old(Backed(log[|log| - 1], pending)) ==>
                BackedFrom(log, |old(log)| - 1, pending)
      ensures old(receipts.Keys) <= receipts.Keys
      // delivered
      ensures old(Backed(log[|log| - 1], pending) && Committed(store.Now())) && AcceptedEntries(pending) ==>
                (r.Ok? <==> old(store.records) != [] || allowGenesis || !old(ChainProved(receipts)))
      ensures r.Ok? ==> ReceiptsAdded(old(receipts), receipts, pending, |pending|)
      ensures r.Ok? ==>
                && (forall i | 0 <= i < |pending| :: pending[i].name in receipts)
                && r.value == Undelivered(pending, |pending|, old(receipts.Keys))
    {
      ProofMeaning(receipts);
      if ReceiptsProveChain(receipts) && !allowGenesis {
        var refused := GenesisGuard();
        if refused.Some? { return Err(refused.value); }
      }
      r := DeliverAll(clock, Backed(log[|log| - 1], pending));
      if r.Ok? { AllHaveReceipts(old(receipts), receipts, pending); }
    }

    /** Delivers, and delivers again after the records have gone from the store, or the wrong store is found: once
        anything has been delivered, no second chain is started. */
    method DeliverTwice(allowGenesis: bool, clock: nat -> Clock, found: Disk, again: nat -> Clock)
        returns (first: Result<Delivery, DeliveryError>, second: Result<Delivery, DeliveryError>)
      requires Valid() && DistinctNames(pending) && found.records == []
      modifies `receipts, `log, store
      ensures first.Ok? && (exists i :: 0 <= i < |pending| && DeliversAny(pending[i], old(receipts))) ==>
                second.Err? && store.Now() == found
    {
      first := Deliver(allowGenesis, clock);
      ghost var delivered := receipts;
      store.Resume(found);
      log := [State(found, receipts)];
      if first.Ok? && exists i :: 0 <= i < |pending| && DeliversAny(pending[i], old(receipts)) {
        ghost var i :| 0 <= i < |pending| && DeliversAny(pending[i], old(receipts));
        ReceiptOfProves(receipts, pending[i]);
      }
      second := Deliver(false, again);
    }

    /** One turn of the loop: an entry with a receipt is left alone. */
    method DeliverUnlessDone(i: nat, clock: Clock, total: Delivery, ghost sound: bool, ghost from: nat, ghost committed: bool,
                             ghost was: map<string, Receipt>)
        returns (done: Result<Delivery, DeliveryError>)
      requires Valid() && i < |pending| && DistinctNames(pending) && DeliveredTo(pending, i, was, receipts, total)
      requires from < |log| && (sound ==> BackedFrom(log, from, pending)) && (committed ==> sound && Committed(store.Now()))
      modifies `receipts, `log, store
      ensures Valid() && old(log) <= log && old(store.records) <= store.records
      ensures sound ==> BackedFrom(log, from, pending)
      ensures done.Ok? ==> DeliveredTo(pending, i + 1, was, receipts, done.value)
      ensures done.Err? ==> done.error.StoreFailed?
      ensures old(receipts.Keys) <= receipts.Keys
      ensures committed ==> Committed(store.Now()) && (AcceptedEntry(pending[i]) ==> done.Ok?)
    {
      if pending[i].name in receipts {
        OneMoreEntry(pending, i, was, receipts, receipts, total);
        return Ok(total);
      }
      ghost var before, soFar := receipts, log;
      var refused := DeliverPending(i, clock, sound);
      if sound { JoinStates(soFar, log, from, pending); }
      if refused.Some? { return Err(refused.value); }
      OneMoreEntry(pending, i, was, before, receipts, total);
      done := Ok(Plus(total, pending[i]));
    }

    method DeliverAll(clock: nat -> Clock, ghost sound: bool) returns (r: Result<Delivery, DeliveryError>)
      requires Valid() && DistinctNames(pending) && (sound ==> Backed(log[|log| - 1], pending))
      modifies `receipts, `log, store
      ensures Valid() && old(log) <= log && old(store.records) <= store.records
      ensures sound ==> BackedFrom(log, |old(log)| - 1, pending)
      ensures old(receipts.Keys) <= receipts.Keys
      ensures r.Ok? ==> DeliveredTo(pending, |pending|, old(receipts), receipts, r.value)
      ensures sound && old(Committed(store.Now())) && AcceptedEntries(pending) ==> r.Ok?
      ensures r.Err? ==> r.error.StoreFailed?
    {
      ghost var was, committed := receipts, sound && Committed(store.Now());
      var total := Delivery(0, 0, {});
      NothingDelivered(pending, receipts);
      for i := 0 to |pending|
        invariant Valid() && old(log) <= log && old(store.records) <= store.records
        invariant sound ==> BackedFrom(log, |old(log)| - 1, pending)
        invariant committed ==> Committed(store.Now())
        invariant was.Keys <= receipts.Keys && DeliveredTo(pending, i, was, receipts, total)
      {
        var done := DeliverUnlessDone(i, clock(i), total, sound, |old(log)| - 1, committed, was);
        if done.Err? { return Err(done.error); }
        total := done.value;
      }
      r := Ok(total);
    }

    /** The check at the start of a delivery, once a receipt proves that a chain existed. */
    method GenesisGuard() returns (refused: Option<DeliveryError>)
      ensures store.records == [] ==> refused.Some?
      ensures Committed(store.Now()) && store.records != [] ==> refused == None
      ensures refused == Some(RefusedGenesis) <==> store.records == [] && store.head == None
      ensures refused == match TipOf(store.records, store.head)
                         case Ok(tip) => if tip.core.sequence == 0 then Some(RefusedGenesis) else None
                         case Err(Busy) => Some(StoreFailed(if store.head == None then HeadMissing else HeadMismatch))
                         case Err(error) => Some(StoreFailed(error))
    {
      if Committed(store.Now()) && store.records != [] {
        CommittedTip(store.Now());
        assert LinkedAt(store.records, |store.records| - 1);
      }
      var tip := TipOf(store.records, store.head);
      if tip.Err? {
        // without the lock a head that does not match is an error, not a busy store
        var unlocked := if store.head == None then HeadMissing else HeadMismatch;
        return Some(StoreFailed(if tip.error == Busy then unlocked else tip.error));
      }
      if tip.value.core.sequence == 0 { return Some(RefusedGenesis); }
      refused := None;
    }

    // ---- schedules ----

    /** A repair of the store, without truncation. */
    method Repair()
      requires Valid() && Backed(log[|log| - 1], pending)
      modifies `receipts, `log, store
      ensures Valid() && old(log) <= log && BackedFrom(log, |old(log)| - 1, pending)
      ensures receipts == old(receipts) && store.records == old(store.records) && Committed(store.Now())
      ensures old(store.log) <= store.log && log == old(log) + Paired(store.log[|old(store.log)|..] + [store.Now()], receipts)
    {
      ghost var before := store.Now();
      var mark := |store.log|;
      RepairKeepsAll(before, false);
      var repaired := store.RepairEventHead(false);
      var states := store.log[mark..] + [store.Now()];
      forall k | 0 <= k < |states| ensures Healthy(states[k]) && before.records <= states[k].records {
        if k < |states| - 1 { RepairedIsHealthy(before, states[k]); }
      }
      GrownStatesBacked(receipts, pending, before, states);
      AppendedStates(log, Paired(states, receipts), pending);
      log := log + Paired(states, receipts);
    }

    /** A crash: the runtime is found in a state it passed through since position `from` of the log. */
    method Crash(k: nat)
      requires Valid() && k < |log| && Backed(log[k], pending)
      modifies `receipts, `log, store
      ensures Valid() && log == [old(log[k])]
    {
      RecordsSorted(log[k].disk.records);
      var found := log[k];
      store.Resume(found.disk);
      receipts := found.receipts;
      log := [found];
    }

    /** A new outbox file appears somewhere in the listing. Its name, which identifies its run, is new; a file that is
        written again is the one there is. */
    method Arrive(entry: OutboxEntry, at: nat)
      requires Valid() && Backed(log[|log| - 1], pending) && DistinctNames(pending)
      modifies `pending
      ensures Valid() && Backed(log[|log| - 1], pending) && DistinctNames(pending)
      ensures pending == if !IsNewName(entry.name, old(pending), receipts) then old(pending)
                         else old(pending[..if at < |pending| then at else |pending|] + [entry] + pending[if at < |pending| then at else |pending|..])
      ensures forall e :: e in pending <==>
                (e in old(pending) || (e == entry && e.name !in receipts && forall p | p in old(pending) :: p.name != e.name))
    {
      if !IsNewName(entry.name, pending, receipts) { return; }
      var k := if at <= |pending| then at else |pending|;
      Inserted(pending, k, entry);
      pending := pending[..k] + [entry] + pending[k..];
    }

    /** What an action does. */
    method DoWork(work: Work)
      requires Valid() && DistinctNames(pending) && Backed(log[|log| - 1], pending)
      modifies this, store
      ensures Valid() && DistinctNames(pending) && old(log) <= log && BackedFrom(log, |old(log)| - 1, pending)
      ensures forall e :: e in old(pending) ==> e in pending
    {
      match work {
        case DeliverOutbox(allowGenesis, clock) => var delivery := Deliver(allowGenesis, clock);
        case EntryArrives(entry, at) => Arrive(entry, at);
        case RepairStore => Repair();
        case OtherAppend(inputs, now) => var ids := Append(inputs, now, true);
      }
    }

    /** One action: what it does, and where it stops. `passed` are the states it would pass through if it did not. */
    method Perform(action: Action) returns (ghost passed: seq<State>)
      requires Valid() && DistinctNames(pending) && Backed(log[|log| - 1], pending)
      modifies this, store
      ensures Valid() && DistinctNames(pending) && BackedFrom(passed, 0, pending)
      ensures passed != [] && passed[0] == old(log[|log| - 1]) && log[|log| - 1] == StoppedIn(action, passed)
      ensures forall e :: e in old(pending) ==> e in pending
    {
      var from := |log| - 1;
      DoWork(action.work);
      passed := log[from..];
      assert forall k | 0 <= k < |passed| :: passed[k] == log[from + k] && Backed(log[from + k], pending);
      if action.crash.Some? && from + action.crash.value < |log| {
        Crash(from + action.crash.value);
      }
    }

    /** Any schedule of deliveries, repairs, other writers' appends and new entries, each of which may crash at any write,
        keeps every receipt backed: with BackedMeansExactlyOnce, no key is ever on the chain twice, and the keys of a
        delivered entry are there exactly once. `runs` are the states each action passed through until it stopped or ended. */
    method RunSchedule(actions: seq<Action>) returns (ghost runs: seq<seq<State>>)
      requires Valid() && DistinctNames(pending) && Backed(log[|log| - 1], pending)
      modifies this, store
      ensures Valid() && DistinctNames(pending) && Backed(log[|log| - 1], pending)
      ensures forall e :: e in old(pending) ==> e in pending
      ensures |runs| == |actions| && forall i | 0 <= i < |runs| :: runs[i] != []
      ensures forall i | 0 < i < |runs| :: Continues(actions[i - 1], runs[i - 1], runs[i])
    {
      runs := [];
      for i := 0 to |actions|
        invariant Valid() && DistinctNames(pending) && Backed(log[|log| - 1], pending)
        invariant forall e :: e in old(pending) ==> e in pending
        invariant |runs| == i && (forall j | 0 <= j < i :: runs[j] != [])
        invariant forall j | 0 < j < i :: Continues(actions[j - 1], runs[j - 1], runs[j])
        invariant i > 0 ==> log[|log| - 1] == StoppedIn(actions[i - 1], runs[i - 1])
      {
        ghost var passed := Perform(actions[i]);
        runs := runs + [passed];
      }
    }
  }
}
