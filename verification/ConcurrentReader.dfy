/** `verifyEventStore` and `verifyEventTail` read without the lock while appenders work. The disk's history is given
    as a run of states; before every file operation any number of steps may pass, so the results below hold for
    every interleaving. */
module ConcurrentReader {
  import opened Wrappers
  import opened EventChain
  import opened EventStore
  import opened ReferenceAppend
  import opened CrashRecovery

  /** A run made of appender steps only: every state holds a verified chain, whose head commits to a part of it. */
  ghost predicate Growing(run: seq<Disk>) {
    && run != [] && Grows(run, 1)
    && (forall i | 0 <= i < |run| :: Verified(run[i].records))
    && exists n: nat :: CommitsTo(run[0], n)
  }

  /** The head on this disk commits to the first n records. */
  ghost predicate CommitsTo(d: Disk, n: nat) {
    n <= |d.records| && HeadMatches(d.records[..n], d.head)
  }

  /** A run in which nothing changes. */
  ghost predicate Still(run: seq<Disk>) {
    |run| == 1
  }

  ghost predicate Predictable(run: seq<Disk>) {
    Growing(run) || Still(run)
  }

  // ---- growing runs ----

  lemma {:induction false} RecordsOnlyGrow(run: seq<Disk>, i: nat, j: nat)
    requires Growing(run) && i <= j < |run|
    ensures run[i].records <= run[j].records
    decreases j - i
  {
    if i < j {
      RecordsOnlyGrow(run, i, j - 1);
      assert GrowStep(run[j - 1], run[j]);
    }
  }

  /** The committed part only grows. */
  lemma {:induction false} CommitsOnlyGrow(run: seq<Disk>, i: nat, j: nat, n: nat) returns (m: nat)
    requires Growing(run) && i <= j < |run| && CommitsTo(run[i], n)
    ensures n <= m && CommitsTo(run[j], m)
    decreases j - i
  {
    m := n;
    if i < j {
      m := CommitsOnlyGrow(run, i, j - 1, n);
      assert GrowStep(run[j - 1], run[j]);
      if run[j].head == run[j - 1].head {
        assert run[j].records[..m] == run[j - 1].records[..m];
      } else {
        m := |run[j].records|;
        assert run[j].records[..m] == run[j].records;
      }
    }
  }

  lemma {:induction false} AlwaysCommits(run: seq<Disk>, i: nat) returns (n: nat)
    requires Growing(run) && i < |run|
    ensures CommitsTo(run[i], n)
  {
    var n0: nat :| CommitsTo(run[0], n0);
    n := CommitsOnlyGrow(run, 0, i, n0);
  }

  lemma CommitsOnce(d: Disk, m: nat, n: nat)
    requires Verified(d.records) && CommitsTo(d, m) && CommitsTo(d, n)
    ensures m == n
  {
    if m == 0 || n == 0 {
    } else {
      HeadPinsPrefix(d.records, m, n);
    }
  }

  /** Heads do not come back: equal heads before and after mean one head, for one committed chain, in between. */
  lemma NoReturn(run: seq<Disk>, i: nat, t: nat, j: nat, n: nat)
    requires Growing(run) && i <= t <= j < |run|
    requires run[i].head == run[j].head && CommitsTo(run[i], n)
    ensures run[t].head == run[i].head && CommitsTo(run[t], n) && run[t].records[..n] == run[i].records[..n]
  {
    RecordsOnlyGrow(run, i, t);
    RecordsOnlyGrow(run, t, j);
    var m := CommitsOnlyGrow(run, i, t, n);
    var k := CommitsOnlyGrow(run, t, j, m);
    assert run[j].records[..n] == run[t].records[..n] == run[i].records[..n];
    assert CommitsTo(run[j], n);
    CommitsOnce(run[j], n, k);
  }

  lemma GrowingOn(log: seq<Disk>, more: seq<Disk>, inputs: seq<Input>, now: int, before: Disk, after: Disk)
    requires Growing(log) && log <= more && Grows(more, |log|)
    requires Uninterrupted(before, inputs, now, after)
    requires forall k | |log| <= k < |more| :: AppendState(before, after, more[k])
    ensures Growing(more)
  {
    forall k | |log| <= k < |more| ensures Verified(more[k].records) {
      CrashKeepsVerified(before, inputs, now, after, more[k]);
    }
    forall k | 0 < k < |more| ensures GrowStep(more[k - 1], more[k]) {
      if k < |log| { assert GrowStep(log[k - 1], log[k]); }
    }
  }

  /** One append, accepted or refused, keeps all this. */
  ghost predicate Sound(store: EventStore)
    reads store
  {
    store.Valid() && Growing(store.log) && Committed(store.Now()) && CacheSound(store.Now())
  }

  method AppendSoundly(store: EventStore, inputs: seq<Input>, now: int) returns (r: Result<seq<Reply>, Error>)
    requires Sound(store)
    modifies store
    ensures Sound(store)
    ensures r.Ok? <==> AcceptedBatch(inputs)
    ensures r.Ok? ==> Outcome(store.records, r.value) == Plain(old(store.records), inputs, now)
    ensures r.Err? ==> store.Now() == old(store.Now())
  {
    ghost var before, log := store.Now(), store.log;
    r := store.AppendBrokerEvents(inputs, now);
    if AcceptedBatch(inputs) { GrowingOn(log, store.log, inputs, now, before, store.Now()); }
  }

  /** From an empty root, whatever the batches and the times, refused batches included: every state on the way is one the
      readers expect, and the whole chain verifies with its head published. What is on it is what was accepted, one
      batch after the other. */
  method AppendersRun(batches: seq<seq<Input>>, nows: seq<int>) returns (store: EventStore, replies: seq<Reply>)
    requires |batches| == |nows|
    ensures fresh(store) && Sound(store)
    ensures Outcome(store.records, replies) == Accepted(batches, nows)
  {
    store := new EventStore();
    replies := [];
    assert CommitsTo(store.log[0], 0);
    for i := 0 to |batches|
      invariant fresh(store) && Sound(store)
      invariant Outcome(store.records, replies) == Accepted(batches[..i], nows[..i])
    {
      var some := AppendSoundly(store, batches[i], nows[i]);
      assert batches[..i + 1][..i] == batches[..i] && nows[..i + 1][..i] == nows[..i];
      if some.Ok? { replies := replies + some.value; }
    }
    assert batches[..|batches|] == batches && nows[..|nows|] == nows;
  }

  /** One append after the other, each at its own time; a refused batch adds nothing. */
  function Accepted(batches: seq<seq<Input>>, nows: seq<int>): Outcome
    requires |batches| == |nows|
  {
    if batches == [] then Outcome([], [])
    else
      var n := |batches| - 1;
      var before := Accepted(batches[..n], nows[..n]);
      if !AcceptedBatch(batches[n]) then before
      else
        var o := Plain(before.files, batches[n], nows[n]);
        Outcome(o.files, before.replies + o.replies)
  }

  /** At one time, accepted batches are appended as if they were one. */
  lemma {:induction false} AcceptedTogether(batches: seq<seq<Input>>, nows: seq<int>, now: int)
    requires |batches| == |nows|
    requires forall i | 0 <= i < |batches| :: AcceptedBatch(batches[i]) && nows[i] == now
    ensures Accepted(batches, nows) == Plain([], Flatten(batches), now)
    decreases |batches|
  {
    if batches != [] {
      var n := |batches| - 1;
      AcceptedTogether(batches[..n], nows[..n], now);
      OneMoreBatch(batches, n, now);
      assert batches[..n + 1] == batches;
    }
  }

  /** Every input of an accepted batch is on the chain, once. */
  lemma {:induction false} AcceptedOnce(batches: seq<seq<Input>>, nows: seq<int>)
    requires |batches| == |nows|
    ensures Verified(Accepted(batches, nows).files)
    ensures Keys(Accepted(batches, nows).files) == AcceptedKeys(batches)
    decreases |batches|
  {
    if batches != [] {
      var n := |batches| - 1;
      AcceptedOnce(batches[..n], nows[..n]);
      if AcceptedBatch(batches[n]) { PlainKeepsVerified(Accepted(batches[..n], nows[..n]).files, batches[n], nows[n]); }
    }
  }

  function AcceptedKeys(batches: seq<seq<Input>>): set<Key> {
    if batches == [] then {}
    else
      AcceptedKeys(batches[..|batches| - 1])
      + if AcceptedBatch(batches[|batches| - 1]) then InputKeys(batches[|batches| - 1]) else {}
  }

  // ---- why a read fails ----

  /** The error names what is wrong: a parallel chain, a key that comes twice, or else a broken chain. */
  ghost predicate WhyNotVerified(files: seq<RecordFile>, error: Error) {
    && !Verified(files)
    && (error == ParallelChain <==> !NoParallelChain(files))
    && (error == KeyTwice <==> NoParallelChain(files) && exists n :: FirstRepeat(files, n))
    && (error == ParallelChain || error == KeyTwice || error == ChainBroken)
  }

  /** What a read accepts on a store at rest: a committed store, or a head for zero records. */
  ghost predicate ReadAtRest(d: Disk) {
    Committed(d) || (d.records == [] && d.head == Some(Json(HeadOfLast(None))))
  }

  /** A verified chain without the head it should have: the head is unreadable, missing, or another one. While a writer
      holds the lock the last two end as a busy store. */
  ghost predicate WhyNotCommitted(d: Disk, error: Error, locked: bool) {
    && Verified(d.records) && !HeadMatches(d.records, d.head)
    && (error == ChainBroken <==> d.head.Some? && d.head.value.Garbage?)
    && (error == HeadMissing <==> d.head == None && !locked)
    && (error == HeadMismatch <==> d.head.Some? && d.head.value.Json? && !locked)
    && (error == ChainBroken || error == HeadMissing || error == HeadMismatch || error == Busy)
  }

  lemma StoppedAt(files: seq<RecordFile>, i: nat, broken: bool)
    requires NoParallelChain(files) && i < |files| && Verified(files[..i])
    requires broken <==> !ValidStored(files[i], i + 1, IdBefore(files, i))
    requires !broken ==> KeyOf(files[i]) in Keys(files[..i])
    ensures WhyNotVerified(files, if broken then ChainBroken else KeyTwice)
  {
    OneMoreRecord(files, i);
    VerifiedPrefix(files, i + 1);
    assert LongestVerified(files, i);
    RepairDecision(files, i, true);
  }

  // ---- files ----

  function FileNamed(files: seq<RecordFile>, sequence: nat, id: Id): Option<Content> {
    if files == [] then None
    else if files[0].sequence == sequence && files[0].id == id then Some(files[0].content)
    else FileNamed(files[1..], sequence, id)
  }

  lemma {:induction false} FileNamedFinds(files: seq<RecordFile>, i: nat)
    requires NoParallelChain(files) && i < |files|
    ensures FileNamed(files, files[i].sequence, files[i].id) == Some(files[i].content)
  {
    if i > 0 {
      assert files[1..][i - 1] == files[i];
      FileNamedFinds(files[1..], i - 1);
    }
  }

  /** A file is found exactly by its name. */
  lemma {:induction false} FileNamedExactly(files: seq<RecordFile>, sequence: nat, id: Id)
    ensures match FileNamed(files, sequence, id)
            case None => forall f | f in files :: f.sequence != sequence || f.id != id
            case Some(content) => RecordFile(sequence, id, content) in files
  {
    if files != [] && !(files[0].sequence == sequence && files[0].id == id) {
      FileNamedExactly(files[1..], sequence, id);
      assert files == [files[0]] + files[1..];
    }
  }

  datatype Name = Name(sequence: nat, id: Id)

  function NamesOf(files: seq<RecordFile>): seq<Name> {
    seq(|files|, i requires 0 <= i < |files| => Name(files[i].sequence, files[i].id))
  }

  /** What a reader returns: the events it verified and the head they have. */
  datatype View = View(events: seq<Event>, head: Head, truncated: bool)

  /** The view is the last part, from `start` on, of the n records that the head committed to from time i to time j. */
  ghost predicate CommittedView(run: seq<Disk>, i: nat, j: nat, n: nat, start: nat, view: View) {
    && i <= j < |run| && start <= n <= |run[i].records|
    && Verified(run[i].records[..n])
    && view.events == EventsFrom(run[i].records[..n], start) && view.head == ExpectedHead(run[i].records[..n])
    && forall t | i <= t <= j :: CommitsTo(run[t], n) && run[t].records[..n] == run[i].records[..n]
  }

  ghost function EventsFrom(files: seq<RecordFile>, start: nat): seq<Event>
    requires Verified(files) && start <= |files|
  {
    LinkedHasNoParallelChain(files);
    EventsOf(files)[start..]
  }

  class StoreReader {
    const run: seq<Disk>
    var clock: nat
    var delays: seq<nat>
    var locks: seq<bool>

    ghost predicate Valid()
      reads this
    {
      clock < |run|
    }

    constructor (run: seq<Disk>, delays: seq<nat>, locks: seq<bool>)
      requires run != []
      ensures Valid() && this.run == run && clock == 0
    {
      this.run, clock, this.delays, this.locks := run, 0, delays, locks;
    }

    /** The next three looks at the lock file find it, as those of a writer do that holds the lock. */
    ghost predicate LockHeld(looks: nat)
      reads this
    {
      |locks| >= looks && forall k | 0 <= k < looks :: locks[k]
    }

    /** One file operation is behind: its delay has passed, as far as the run goes. */
    ghost predicate Waited(since: nat, waits: seq<nat>)
      reads this
    {
      if waits == [] then clock == since && delays == []
      else clock == (if since + waits[0] < |run| then since + waits[0] else |run| - 1) && delays == waits[1..]
    }

    /** Others may act before the next file operation. */
    method Pass()
      requires Valid()
      modifies `clock, `delays
      ensures Valid() && old(clock) <= clock && Waited(old(clock), old(delays))
    {
      if delays != [] {
        clock := if clock + delays[0] < |run| then clock + delays[0] else |run| - 1;
        delays := delays[1..];
      }
    }

    method ReadHead() returns (head: Option<HeadText>)
      requires Valid()
      modifies `clock, `delays
      ensures Valid() && old(clock) <= clock && Waited(old(clock), old(delays)) && head == run[clock].head
    {
      Pass();
      head := run[clock].head;
    }

    method LockExists() returns (locked: bool)
      requires Valid()
      modifies this
      ensures Valid() && old(clock) <= clock && Waited(old(clock), old(delays))
      ensures locked <==> old(locks) != [] && old(locks[0])
      ensures locks == if old(locks) == [] then [] else old(locks)[1..]
    {
      Pass();
      locked := locks != [] && locks[0];
      if locks != [] { locks := locks[1..]; }
    }

    /** `recordFiles`: the sorted listing, refused when a sequence appears twice. */
    method List() returns (names: Result<seq<Name>, Error>)
      requires Valid()
      modifies `clock, `delays
      ensures Valid() && old(clock) <= clock && Waited(old(clock), old(delays))
      ensures names == if NoParallelChain(run[clock].records) then Ok(NamesOf(run[clock].records)) else Err(ParallelChain)
    {
      Pass();
      if !NoParallelChain(run[clock].records) { return Err(ParallelChain); }
      names := Ok(NamesOf(run[clock].records));
    }

    /** Reads the file that was record i of the listing at time t: records never change and never leave. */
    method ReadFile(name: Name, ghost t: nat, ghost i: nat) returns (content: Option<Content>)
      requires Valid() && t <= clock && i < |run[t].records| && name == NamesOf(run[t].records)[i]
      modifies `clock, `delays
      ensures Valid() && old(clock) <= clock && Waited(old(clock), old(delays)) && content == FileNamed(run[clock].records, name.sequence, name.id)
      ensures Predictable(run) && NoParallelChain(run[t].records) ==> content == Some(run[t].records[i].content)
    {
      Pass();
      content := FileNamed(run[clock].records, name.sequence, name.id);
      if Predictable(run) && NoParallelChain(run[t].records) {
        if Growing(run) {
          RecordsOnlyGrow(run, t, clock);
          LinkedHasNoParallelChain(run[clock].records);
        }
        FileNamedFinds(run[clock].records, i);
      }
    }

    /** `verifyEventRecords`. */
    method VerifyEventRecords() returns (r: Result<View, Error>, ghost listed: nat)
      requires Valid()
      modifies `clock, `delays
      ensures Valid() && old(clock) <= listed <= clock
      ensures Predictable(run) ==>
                && (r.Ok? <==> Verified(run[listed].records))
                && (r.Ok? ==> r.value == View(EventsFrom(run[listed].records, 0), ExpectedHead(run[listed].records), false))
                && (r.Err? ==> WhyNotVerified(run[listed].records, r.error))
    {
      var names := List();
      listed := clock;
      ghost var files := run[listed].records;
      if names.Err? {
        if Verified(files) { LinkedHasNoParallelChain(files); }
        return Err(names.error), listed;
      }
      var events: seq<Event> := [];
      var keys: set<Key> := {};
      var previous: Option<Id> := None;
      for i := 0 to |names.value|
        invariant Valid() && listed <= clock && |events| == i
        invariant Predictable(run) ==>
                    && Verified(files[..i])
                    && events == EventsFrom(files[..i], 0)
                    && keys == Keys(files[..i]) && previous == IdBefore(files, i)
      {
        var content := ReadFile(names.value[i], listed, i);
        if content == None { return Err(ChainBroken), listed; }
        var file := RecordFile(names.value[i].sequence, names.value[i].id, content.value);
        if Predictable(run) { NextRecord(files, i, events); }
        if !ValidStored(file, i + 1, previous) {
          if Predictable(run) { StoppedAt(files, i, true); }
          return Err(ChainBroken), listed;
        }
        if file.content.event.core.key in keys {
          if Predictable(run) { StoppedAt(files, i, false); }
          return Err(KeyTwice), listed;
        }
        keys := keys + {file.content.event.core.key};
        events := events + [file.content.event];
        previous := Some(file.content.event.eventId);
      }
      assert files[..|files|] == files;
      r := Ok(View(events, HeadOfLast(if events == [] then None else Some(events[|events| - 1])), false));
      if Predictable(run) { LinkedHasNoParallelChain(files); }
    }

    /** One attempt of `verifyEventStore`: `None` asks for another one. */
    method TryVerify() returns (r: Result<Option<View>, Error>, ghost i: nat, ghost j: nat, ghost n: nat)
      requires Valid()
      modifies this
      ensures Valid() && old(clock) <= clock
      ensures locks == old(locks) || (old(locks) != [] && locks == old(locks)[1..])
      ensures Growing(run) && r.Ok? && r.value.Some? ==>
                old(clock) <= i && j <= clock && CommittedView(run, i, j, n, 0, r.value.value)
      ensures Still(run) ==> (r.Ok? && r.value.Some? <==> ReadAtRest(run[0]))
      ensures Still(run) && r.Ok? && r.value.Some? ==>
                r.value.value == View(EventsFrom(run[0].records, 0), ExpectedHead(run[0].records), false)
      ensures Still(run) && r == Ok(None) ==> old(LockHeld(1)) && WhyNotCommitted(run[0], Busy, true)
      ensures Still(run) && r.Err? ==>
                WhyNotVerified(run[0].records, r.error) || WhyNotCommitted(run[0], r.error, old(LockHeld(1)))
    {
      var before := ReadHead();
      i, j, n := clock, clock, 0;
      var result, listed := VerifyEventRecords();
      if result.Err? { return Err(result.error), i, j, n; }
      var after := ReadHead();
      j := clock;
      n := |run[listed].records|;
      if before != after { return Ok(None), i, j, n; }
      if after.Some? && after.value.Garbage? { return Err(ChainBroken), i, j, n; }
      if (after == None && result.value.events == []) || (after.Some? && after.value.head == result.value.head) {
        if Growing(run) { ViewIsCommitted(run, i, listed, j, 0, result.value); }
        return Ok(Some(result.value)), i, j, n;
      }
      var locked := LockExists();
      if locked { return Ok(None), i, j, n; }
      r := Err(if after == None then HeadMissing else HeadMismatch);
    }

    /** `verifyEventStore`. Whatever it returns under concurrent appends is the chain that one head committed to at
        every moment from its first to its last read; on a store at rest it accepts exactly the committed ones. */
    method VerifyEventStore() returns (r: Result<View, Error>, ghost i: nat, ghost j: nat, ghost n: nat)
      requires Valid()
      modifies this
      ensures Valid() && old(clock) <= clock
      ensures Growing(run) && r.Ok? ==> old(clock) <= i && j <= clock && CommittedView(run, i, j, n, 0, r.value)
      ensures Still(run) ==> (r.Ok? <==> ReadAtRest(run[0]))
      ensures Still(run) && r.Ok? ==> r.value == View(EventsFrom(run[0].records, 0), ExpectedHead(run[0].records), false)
      ensures Still(run) && r.Err? && !old(LockHeld(1)) ==>
                WhyNotVerified(run[0].records, r.error) || WhyNotCommitted(run[0], r.error, false)
      ensures Still(run) && r.Err? && old(LockHeld(3)) ==>
                WhyNotVerified(run[0].records, r.error) || WhyNotCommitted(run[0], r.error, true)
    {
      i, j, n := 0, 0, 0;
      for attempt := 0 to 3
        invariant Valid() && old(clock) <= clock
        invariant old(LockHeld(3)) ==> LockHeld(3 - attempt)
        invariant attempt == 0 ==> locks == old(locks)
        invariant Still(run) && attempt > 0 ==> !ReadAtRest(run[0]) && old(LockHeld(1)) && WhyNotCommitted(run[0], Busy, true)
      {
        var read;
        read, i, j, n := TryVerify();
        if read.Err? { return Err(read.error), i, j, n; }
        if read.value.Some? { return Ok(read.value.value), i, j, n; }
      }
      r := Err(Busy);
    }

    /** One attempt of `verifyEventTail`: `None` asks for another one. */
    method TryTail(requested: int) returns (r: Result<Option<View>, Error>, ghost i: nat, ghost j: nat, ghost n: nat)
      requires Valid()
      modifies this
      ensures Valid() && old(clock) <= clock
      ensures locks == old(locks) || (old(locks) != [] && locks == old(locks)[1..])
      ensures Growing(run) && r.Ok? && r.value.Some? ==>
                old(clock) <= i && j <= clock && CommittedTail(run, i, j, n, requested, r.value.value)
      ensures Still(run) ==> SaysAtRest(run[0], requested, old(LockHeld(1)), r)
    {
      var before := ReadHead();
      i, j, n := clock, clock, 0;
      var read, listed := ReadTail(requested);
      n := |run[listed].records|;
      if Still(run) { TailSays(run[0], requested, old(LockHeld(1)), read); }
      if read.Err? { return Err(read.error), i, j, n; }
      var after := ReadHead();
      j := clock;
      if before != after { return Ok(None), i, j, n; }
      if read.value.events == [] {
        if after != None { return Err(HeadMismatch), i, j, n; }
      } else {
        if after.Some? && after.value.Garbage? { return Err(ChainBroken), i, j, n; }
        if after == None || after.value.head != read.value.head {
          var locked := LockExists();
          if locked { return Ok(None), i, j, n; }
          return Err(if after == None then HeadMissing else HeadMismatch), i, j, n;
        }
      }
      if Growing(run) { TailIsCommitted(run, i, listed, j, requested, read.value); }
      r := Ok(Some(read.value));
    }

    /** `verifyEventTail`: the same for the newest `count` records (512 unless a positive count is given). */
    method VerifyEventTail(requested: int) returns (r: Result<View, Error>, ghost i: nat, ghost j: nat, ghost n: nat)
      requires Valid()
      modifies this
      ensures Valid() && old(clock) <= clock
      // the last events, as many as asked for, of what one head commits to while they are read
      ensures Growing(run) && r.Ok? ==> old(clock) <= i && j <= clock && CommittedTail(run, i, j, n, requested, r.value)
      ensures Still(run) ==> (r.Ok? <==> TailAccepted(run[0], requested))
      ensures Still(run) && r.Ok? ==> WholeTail(run[0].records, requested, r.value)
      // one record, read by a writer that holds the lock
      ensures Still(run) && requested == 1 && old(LockHeld(3)) ==>
                match TipOf(run[0].records, run[0].head)
                case Ok(head) => r.Ok? && r.value.head == head
                case Err(error) => r == Err(error)
      // nobody holds it
      ensures Still(run) && !old(LockHeld(1)) && r.Err? ==> WhyNotTail(run[0], requested, r.error)
    {
      if Still(run) {
        AtRestMeaning(run[0], requested, false);
        AtRestMeaning(run[0], requested, true);
        if requested == 1 { AtRestAsTip(run[0]); }
      }
      i, j, n := 0, 0, 0;
      for attempt := 0 to 3
        invariant Valid() && old(clock) <= clock
        invariant old(LockHeld(3)) ==> LockHeld(3 - attempt)
        invariant attempt == 0 ==> locks == old(locks)
        invariant Still(run) && attempt > 0 ==> old(LockHeld(1)) && AtRest(run[0], requested, true) == Ok(false)
      {
        var read;
        read, i, j, n := TryTail(requested);
        if read.Err? { return Err(read.error), i, j, n; }
        if read.value.Some? { return Ok(read.value.value), i, j, n; }
      }
      r := Err(Busy);
    }

    /** Lists the records, and reads and validates the newest of them, anchored at the record before them. */
    method ReadTail(requested: int) returns (r: Result<View, Error>, ghost listed: nat)
      requires Valid()
      modifies `clock, `delays
      ensures Valid() && old(clock) <= listed <= clock
      ensures r.Ok? ==> (r.value.events == [] <==> run[listed].records == [])
      ensures Predictable(run) ==>
                IsTailRead(run[listed].records, requested, r)
    {
      var names := List();
      listed := clock;
      ghost var files := run[listed].records;
      if names.Err? { return Err(names.error), listed; }
      if names.value == [] { return Ok(View([], HeadOfLast(None), false)), listed; }
      var start := TailStart(|names.value|, requested);
      var previous: Option<Id> := None;
      if start > 0 {
        var anchor := ReadAnchor(names.value[start - 1], listed, start - 1);
        if anchor.Err? { return Err(anchor.error), listed; }
        previous := Some(anchor.value);
      }
      var events := ReadFrom(names.value, start, previous, listed);
      if events.Err? { return Err(events.error), listed; }
      if Predictable(run) {
        TailHead(files, start);
        WindowIsNewest(files, requested, start);
      }
      r := Ok(View(events.value, HeadOfLast(Some(events.value[|events.value| - 1])), start > 0));
    }

    method ReadFrom(names: seq<Name>, start: nat, anchor: Option<Id>, ghost listed: nat) returns (r: Result<seq<Event>, Error>)
      requires Valid() && listed <= clock && names == NamesOf(run[listed].records) && start < |names|
      modifies `clock, `delays
      ensures Valid() && old(clock) <= clock
      ensures r.Ok? ==> |r.value| == |names| - start
      ensures Predictable(run) && NoParallelChain(run[listed].records) && TailAnchor(run[listed].records, start) == Ok(anchor) ==>
                var files := run[listed].records;
                && (r.Ok? <==> TailLinks(files, start))
                && (r.Ok? ==> r.value == TailEvents(files, start))
                && (r.Err? ==> r.error == ChainBroken)
    {
      ghost var files := run[listed].records;
      ghost var sound := Predictable(run) && NoParallelChain(files) && TailAnchor(files, start) == Ok(anchor);
      var previous := anchor;
      var events: seq<Event> := [];
      for index := start to |names|
        invariant Valid() && old(clock) <= clock && |events| == index - start
        invariant sound ==> ReadSoFar(files, start, index, previous, events)
      {
        var event := ReadValidated(names[index], index + 1, previous, listed, index);
        if event.Err? {
          if sound { assert !LinksAt(files, index); }
          return Err(event.error);
        }
        if sound { ReadOneMore(files, start, index, previous, events, event.value); }
        events := events + [event.value];
        previous := Some(event.value.eventId);
      }
      r := Ok(events);
      if sound { AllRead(files, start, previous, events); }
    }

    method ReadAnchor(name: Name, ghost listed: nat, ghost index: nat) returns (id: Result<Id, Error>)
      requires Valid() && listed <= clock && index < |run[listed].records| && name == NamesOf(run[listed].records)[index]
      modifies `clock, `delays
      ensures Valid() && old(clock) <= clock
      ensures Predictable(run) && NoParallelChain(run[listed].records) ==>
                var content := run[listed].records[index].content;
                id == if content.Parsed? then Ok(content.event.eventId) else Err(ChainBroken)
    {
      var content := ReadFile(name, listed, index);
      if content == None || content.value.Unparsable? { return Err(ChainBroken); }
      id := Ok(content.value.event.eventId);
    }

    method ReadValidated(name: Name, sequence: int, previous: Option<Id>, ghost listed: nat, ghost index: nat)
        returns (event: Result<Event, Error>)
      requires Valid() && listed <= clock && index < |run[listed].records| && name == NamesOf(run[listed].records)[index]
      modifies `clock, `delays
      ensures Valid() && old(clock) <= clock
      ensures Predictable(run) && NoParallelChain(run[listed].records) ==>
                var file := run[listed].records[index];
                && (event.Ok? <==> ValidStored(file, sequence, previous))
                && (event.Ok? ==> event.value == file.content.event)
                && (event.Err? ==> event.error == ChainBroken)
    {
      var content := ReadFile(name, listed, index);
      if content == None { return Err(ChainBroken); }
      var file := RecordFile(name.sequence, name.id, content.value);
      if !ValidStored(file, sequence, previous) { return Err(ChainBroken); }
      event := Ok(file.content.event);
    }
  }

  /** The id the window starts from: that of the record before it, which is read and not validated. */
  function TailAnchor(files: seq<RecordFile>, start: nat): Result<Option<Id>, Error>
    requires start <= |files|
  {
    if start == 0 then Ok(None)
    else if files[start - 1].content.Parsed? then Ok(Some(files[start - 1].content.event.eventId))
    else Err(ChainBroken)
  }

  /** What record k must link to. */
  function PreviousLink(files: seq<RecordFile>, k: nat): Option<Id>
    requires k <= |files|
  {
    if k == 0 || files[k - 1].content.Unparsable? then None else Some(files[k - 1].content.event.eventId)
  }

  predicate LinksAt(files: seq<RecordFile>, k: nat)
    requires k < |files|
  {
    ValidStored(files[k], k + 1, PreviousLink(files, k))
  }

  /** The newest records validate, from `start` on, behind a record that parses. */
  predicate TailLinks(files: seq<RecordFile>, start: nat)
    requires start <= |files|
  {
    TailAnchor(files, start).Ok? && forall k | start <= k < |files| :: LinksAt(files, k)
  }

  function TailEvents(files: seq<RecordFile>, start: nat): seq<Event>
    requires start <= |files| && TailLinks(files, start)
  {
    seq(|files| - start, k requires 0 <= k < |files| - start =>
      assert LinksAt(files, start + k);
      files[start + k].content.event)
  }

  /** What reading the window keeps. */
  ghost predicate ReadSoFar(files: seq<RecordFile>, start: nat, index: nat, previous: Option<Id>, events: seq<Event>) {
    && start <= index <= |files| && previous == PreviousLink(files, index) && |events| == index - start
    && forall k | start <= k < index :: LinksAt(files, k) && events[k - start] == files[k].content.event
  }

  lemma ReadOneMore(files: seq<RecordFile>, start: nat, index: nat, previous: Option<Id>, events: seq<Event>, event: Event)
    requires ReadSoFar(files, start, index, previous, events) && index < |files|
    requires LinksAt(files, index) && event == files[index].content.event
    ensures ReadSoFar(files, start, index + 1, Some(event.eventId), events + [event])
  {
  }

  lemma AllRead(files: seq<RecordFile>, start: nat, previous: Option<Id>, events: seq<Event>)
    requires ReadSoFar(files, start, |files|, previous, events) && TailAnchor(files, start).Ok?
    ensures TailLinks(files, start) && events == TailEvents(files, start)
  {
  }

  lemma TailHead(files: seq<RecordFile>, start: nat)
    requires start < |files| && TailLinks(files, start)
    ensures ExpectedHead(files) == HeadOfLast(Some(TailEvents(files, start)[|files| - start - 1]))
  {
    assert LinksAt(files, |files| - 1);
  }

  /** The stores at rest whose tail is accepted. */
  predicate TailAccepted(d: Disk, requested: int) {
    && NoParallelChain(d.records) && TailLinks(d.records, TailStart(|d.records|, requested))
    && HeadMatches(d.records, d.head)
  }

  /** On a verified chain every window validates, and holds the last events. */
  lemma VerifiedTail(files: seq<RecordFile>, start: nat)
    requires Verified(files) && start <= |files|
    ensures NoParallelChain(files) && TailLinks(files, start)
    ensures TailEvents(files, start) == EventsFrom(files, start)
  {
    LinkedHasNoParallelChain(files);
    forall k | start <= k < |files| ensures LinksAt(files, k) {
      assert LinkedAt(files, k);
      if k > 0 { assert LinkedAt(files, k - 1); }
    }
  }

  function TailStart(n: nat, requested: int): (start: nat)
    ensures start <= n && (n > 0 ==> start < n)
  {
    var count := if 0 < requested <= 9007199254740991 then requested else 512;
    if n > count then n - count else 0
  }

  /** The events of a view are the last ones of these records, in order: as many as asked for (512 where that is no
      positive safe integer), or all where there are fewer; and it says whether some were left out. */
  ghost predicate NewestOf(records: seq<RecordFile>, requested: int, view: View) {
    var count := if 0 < requested <= 9007199254740991 then requested else 512;
    && |view.events| == (if |records| < count then |records| else count)
    && (forall k | 0 <= k < |view.events| :: records[|records| - |view.events| + k].content == Parsed(view.events[k]))
    && (view.truncated <==> |view.events| < |records|)
  }

  /** The newest records of a listing, with the head of all of them. */
  ghost predicate WholeTail(records: seq<RecordFile>, requested: int, view: View) {
    NewestOf(records, requested, view) && view.head == ExpectedHead(records)
  }

  /** The newest of the n records that the head committed to from time i to time j. */
  ghost predicate CommittedTail(run: seq<Disk>, i: nat, j: nat, n: nat, requested: int, view: View) {
    && |view.events| <= n && CommittedView(run, i, j, n, n - |view.events|, view)
    && NewestOf(run[i].records[..n], requested, view)
  }

  /** Why a tail is refused while nobody holds the lock. */
  ghost predicate WhyNotTail(d: Disk, requested: int, error: Error) {
    var start := TailStart(|d.records|, requested);
    && (error == ParallelChain <==> !NoParallelChain(d.records))
    && (error == HeadMissing <==> NoParallelChain(d.records) && TailLinks(d.records, start) && d.records != [] && d.head == None)
    && (error == HeadMismatch <==>
          && NoParallelChain(d.records) && TailLinks(d.records, start) && d.head.Some?
          && (d.records == [] || (d.head.value.Json? && d.head.value.head != ExpectedHead(d.records))))
    && (error == ParallelChain || error == HeadMissing || error == HeadMismatch || error == ChainBroken)
  }

  /** What a tail read says of a store at rest: the window is accepted, or asked for again because of the lock, or refused. */
  ghost function AtRest(d: Disk, requested: int, locked: bool): Result<bool, Error> {
    if !NoParallelChain(d.records) then Err(ParallelChain)
    else if !TailLinks(d.records, TailStart(|d.records|, requested)) then Err(ChainBroken)
    else if d.records == [] then (if d.head == None then Ok(true) else Err(HeadMismatch))
    else if d.head.Some? && d.head.value.Garbage? then Err(ChainBroken)
    else if d.head == Some(Json(ExpectedHead(d.records))) then Ok(true)
    else if locked then Ok(false)
    else Err(if d.head == None then HeadMissing else HeadMismatch)
  }

  /** The listing's window, if it validates. */
  ghost predicate IsTailRead(files: seq<RecordFile>, requested: int, r: Result<View, Error>) {
    && (r.Ok? <==> NoParallelChain(files) && TailLinks(files, TailStart(|files|, requested)))
    && (r.Ok? ==> WholeTail(files, requested, r.value))
    && (r.Err? ==> r.error == if NoParallelChain(files) then ChainBroken else ParallelChain)
  }

  ghost predicate SaysAtRest(d: Disk, requested: int, locked: bool, r: Result<Option<View>, Error>) {
    match AtRest(d, requested, locked)
    case Err(error) => r == Err(error)
    case Ok(accepted) => r.Ok? && r.value.Some? == accepted && (accepted ==> WholeTail(d.records, requested, r.value.value))
  }

  /** What is read decides, with the head and the lock, what is said. */
  lemma TailSays(d: Disk, requested: int, locked: bool, read: Result<View, Error>)
    requires IsTailRead(d.records, requested, read)
    ensures read.Err? ==> SaysAtRest(d, requested, locked, Err(read.error))
    ensures read.Ok? ==> (read.value.events == [] <==> d.records == []) && read.value.head == ExpectedHead(d.records)
    ensures read.Ok? && d.records == [] ==>
              SaysAtRest(d, requested, locked, if d.head == None then Ok(Some(read.value)) else Err(HeadMismatch))
    ensures read.Ok? && d.records != [] ==>
              SaysAtRest(d, requested, locked,
                if d.head.Some? && d.head.value.Garbage? then Err(ChainBroken)
                else if d.head == Some(Json(read.value.head)) then Ok(Some(read.value))
                else if locked then Ok(None)
                else Err(if d.head == None then HeadMissing else HeadMismatch))
  {
    if read.Ok? { assert NewestOf(d.records, requested, read.value); }
  }

  lemma AtRestMeaning(d: Disk, requested: int, locked: bool)
    ensures AtRest(d, requested, locked) == Ok(true) <==> TailAccepted(d, requested)
    ensures AtRest(d, requested, locked) == Ok(false) ==> locked && !TailAccepted(d, requested)
    ensures AtRest(d, requested, locked).Err? && !locked ==> WhyNotTail(d, requested, AtRest(d, requested, locked).error)
  {
  }

  /** For one record, under the lock, it is the tip check of the writers. */
  lemma AtRestAsTip(d: Disk)
    ensures match TipOf(d.records, d.head)
            case Ok(head) => AtRest(d, 1, true) == Ok(true) && head == ExpectedHead(d.records)
            case Err(error) => AtRest(d, 1, true) == if error == Busy then Ok(false) else Err(error)
  {
    TipCases(d);
  }

  lemma WindowIsNewest(files: seq<RecordFile>, requested: int, start: nat)
    requires start == TailStart(|files|, requested) && TailLinks(files, start)
    ensures NewestOf(files, requested, View(TailEvents(files, start), ExpectedHead(files), start > 0))
  {
    var events := TailEvents(files, start);
    forall k | 0 <= k < |events| ensures files[|files| - |events| + k].content == Parsed(events[k]) {
      assert LinksAt(files, start + k);
    }
  }

  /** Another head than that of the records, or none. */
  ghost predicate MissedByHead(d: Disk) {
    && NoParallelChain(d.records) && d.records != [] && TailLinks(d.records, |d.records| - 1)
    && (d.head == None || (d.head.value.Json? && d.head.value.head != ExpectedHead(d.records)))
  }

  /** The tip check of the writers, case by case. */
  lemma TipCases(d: Disk)
    ensures TipOf(d.records, d.head) ==
              if !NoParallelChain(d.records) then Err(ParallelChain)
              else if d.records == [] then (if d.head == None then Ok(HeadOfLast(None)) else Err(HeadMismatch))
              else if !TailLinks(d.records, |d.records| - 1) || (d.head.Some? && d.head.value.Garbage?) then Err(ChainBroken)
              else if MissedByHead(d) then Err(Busy)
              else Ok(ExpectedHead(d.records))
  {
    var n := |d.records|;
    if n > 0 {
      assert TailLinks(d.records, n - 1) <==> TailAnchor(d.records, n - 1).Ok? && LinksAt(d.records, n - 1);
    }
  }

  /** A head equal to that of an earlier listing commits to that listing. */
  lemma CommittedLater(run: seq<Disk>, listed: nat, j: nat)
    requires Growing(run) && listed <= j < |run|
    requires run[j].head == (if run[j].head == None then None else Some(Json(ExpectedHead(run[listed].records))))
    requires run[j].head == None ==> run[listed].records == []
    ensures CommitsTo(run[j], |run[listed].records|)
    ensures run[j].records[..|run[listed].records|] == run[listed].records
  {
    var files := run[listed].records;
    RecordsOnlyGrow(run, listed, j);
    assert run[j].records[..|files|] == files;
    var k := AlwaysCommits(run, j);
    LinkedHasNoParallelChain(run[j].records);
  }

  /** A head read before and after, equal both times to the head of the listing in between, was the head of that
      listing throughout. */
  lemma ViewIsCommitted(run: seq<Disk>, i: nat, listed: nat, j: nat, start: nat, view: View)
    requires Growing(run) && i <= listed <= j < |run| && run[i].head == run[j].head
    requires run[j].head == (if run[j].head == None then None else Some(Json(ExpectedHead(run[listed].records))))
    requires run[j].head == None ==> run[listed].records == []
    requires start <= |run[listed].records|
    requires view.events == EventsFrom(run[listed].records, start) && view.head == ExpectedHead(run[listed].records)
    ensures CommittedView(run, i, j, |run[listed].records|, start, view)
    ensures run[i].records[..|run[listed].records|] == run[listed].records
  {
    var n := |run[listed].records|;
    CommittedLater(run, listed, j);
    CommittedSince(run, i, j, n);
    assert run[listed].records[..n] == run[listed].records;
  }

  lemma CommittedSince(run: seq<Disk>, i: nat, j: nat, n: nat)
    requires Growing(run) && i <= j < |run| && run[i].head == run[j].head && CommitsTo(run[j], n)
    ensures n <= |run[i].records|
    ensures forall t | i <= t <= j :: CommitsTo(run[t], n) && run[t].records[..n] == run[i].records[..n]
  {
    var m := AlwaysCommits(run, i);
    NoReturn(run, i, j, j, m);
    CommitsOnce(run[j], m, n);
    forall t | i <= t <= j ensures CommitsTo(run[t], n) && run[t].records[..n] == run[i].records[..n] {
      NoReturn(run, i, t, j, n);
    }
  }

  lemma TailIsCommitted(run: seq<Disk>, i: nat, listed: nat, j: nat, requested: int, view: View)
    requires Growing(run) && i <= listed <= j < |run| && run[i].head == run[j].head
    requires run[j].head == (if run[j].head == None then None else Some(Json(ExpectedHead(run[listed].records))))
    requires run[j].head == None ==> run[listed].records == []
    requires WholeTail(run[listed].records, requested, view)
    ensures CommittedTail(run, i, j, |run[listed].records|, requested, view)
  {
    var files := run[listed].records;
    var n := |files|;
    VerifiedTail(files, TailStart(n, requested));
    ViewIsCommitted(run, i, listed, j, TailStart(n, requested), view);
  }

  /** One more record of a listing: verified with it exactly when it validates and its key is new. */
  lemma NextRecord(files: seq<RecordFile>, i: nat, events: seq<Event>)
    requires i < |files| && Verified(files[..i]) && events == EventsFrom(files[..i], 0)
    ensures var ok := ValidStored(files[i], i + 1, IdBefore(files, i)) && KeyOf(files[i]) !in Keys(files[..i]);
            && (ok <==> Verified(files[..i + 1]))
            && (!ok ==> !Verified(files))
            && Keys(files[..i + 1]) == Keys(files[..i]) + {KeyOf(files[i])}
            && (ok ==> EventsFrom(files[..i + 1], 0) == events + [files[i].content.event])
  {
    OneMoreRecord(files, i);
    VerifiedPrefix(files, i + 1);
    LinkedHasNoParallelChain(files[..i]);
    if Verified(files[..i + 1]) { LinkedHasNoParallelChain(files[..i + 1]); }
  }
}
