/** What the store's operations give across crashes, retries and repairs. A crash leaves the disk in one of the
    states the interrupted operation logged (`AppendState`, `RepairState`). */
module CrashRecovery {
  import opened Wrappers
  import opened EventChain
  import opened ReferenceAppend
  import opened EventStore

  /** `after` is what an uninterrupted append of the batch leaves. */
  ghost predicate Uninterrupted(before: Disk, inputs: seq<Input>, now: int, after: Disk) {
    && Committed(before) && CacheSound(before) && AcceptedBatch(inputs)
    && after.records == Plain(before.records, inputs, now).files && HeadMatches(after.records, after.head)
  }

  /** A crash keeps a verified chain: the old records and some of the new ones, in order. */
  lemma CrashKeepsVerified(before: Disk, inputs: seq<Input>, now: int, after: Disk, d: Disk)
    requires Uninterrupted(before, inputs, now, after) && AppendState(before, after, d)
    ensures before.records <= d.records <= after.records && Verified(d.records) && d.quarantine == before.quarantine
  {
    PlainKeepsVerified(before.records, inputs, now);
    VerifiedPrefix(after.records, |d.records|);
    assert after.records[..|d.records|] == d.records;
  }

  lemma RepairKeepsAll(d: Disk, truncate: bool)
    requires Verified(d.records)
    ensures CanRepair(d.records, truncate)
    ensures forall n: nat :: LongestVerified(d.records, n) ==> n == |d.records|
  {
    LinkedHasNoParallelChain(d.records);
    forall n: nat | LongestVerified(d.records, n) ensures n == |d.records| {
      assert d.records[..|d.records|] == d.records;
      LongestUnique(d.records, n, |d.records|);
    }
  }

  /** Crash safety with exactly-once retry: after a crash anywhere in an append, repair followed by the same batch
      at the same time leaves the records and head of the uninterrupted run, and answers with the same events. */
  method RepairAndRetry(store: EventStore, inputs: seq<Input>, now: int, ghost before: Disk, ghost after: Disk)
      returns (r: Result<seq<Reply>, Error>)
    requires store.Valid() && Uninterrupted(before, inputs, now, after) && AppendState(before, after, store.Now())
    modifies store
    ensures store.Valid() && Committed(store.Now()) && CacheSound(store.Now())
    ensures store.records == after.records && store.head == after.head && store.quarantine == before.quarantine
    ensures r.Ok? && |r.value| == |inputs| == |Plain(before.records, inputs, now).replies|
    ensures forall i | 0 <= i < |inputs| :: r.value[i].event == Plain(before.records, inputs, now).replies[i].event
  {
    ghost var crashed := store.Now();
    CrashKeepsVerified(before, inputs, now, after, crashed);
    RepairKeepsAll(crashed, false);
    var repaired := store.RepairEventHead(false);
    assert store.records == crashed.records;
    RetryCompletes(before.records, crashed.records, inputs, now);
    r := store.AppendBrokerEvents(inputs, now);
  }

  /** Without a repair, a retry runs exactly when the crash left records and head in step; it then completes to
      the same chain, and otherwise refuses with a busy store and writes nothing. */
  lemma RetryWithoutRepair(before: Disk, inputs: seq<Input>, now: int, after: Disk, d: Disk)
    requires Uninterrupted(before, inputs, now, after) && AppendState(before, after, d)
    ensures TipOf(d.records, d.head).Ok? <==> d.head == after.head || d.records == before.records
    ensures TipOf(d.records, d.head).Err? ==> TipOf(d.records, d.head) == Err(Busy)
    ensures TipOf(d.records, d.head).Ok? ==>
              Committed(d) && CacheSound(d) && Plain(d.records, inputs, now).files == after.records
  {
    CrashKeepsVerified(before, inputs, now, after, d);
    PlainKeepsVerified(before.records, inputs, now);
    RetryCompletes(before.records, d.records, inputs, now);
    LinkedHasNoParallelChain(d.records);
    HeadCommitsOnce(before.records, d.records, before.head);
    HeadCommitsOnce(before.records, after.records, before.head);
    TipOfVerified(d.records, d.head);
  }

  /** On a verified chain the tip check is the head check. */
  lemma TipOfVerified(files: seq<RecordFile>, head: Option<HeadText>)
    requires Verified(files)
    ensures TipOf(files, head).Ok? <==> HeadMatches(files, head)
    ensures files != [] && TipOf(files, head).Err? ==>
              TipOf(files, head) == Err(if head.Some? && head.value.Garbage? then ChainBroken else Busy)
  {
    LinkedHasNoParallelChain(files);
    if files != [] {
      assert LinkedAt(files, |files| - 1);
      if |files| > 1 { assert LinkedAt(files, |files| - 2); }
    }
  }

  // ---- any number of crashes ----

  /** A crash of a repair, or of an append of the batch from a committed store, takes the disk from a to b. */
  ghost predicate CrashStep(inputs: seq<Input>, now: int, a: Disk, b: Disk) {
    || RepairState(a, |a.records|, b)
    || exists after :: Uninterrupted(a, inputs, now, after) && AppendState(a, after, b)
  }

  ghost predicate Schedule(inputs: seq<Input>, now: int, states: seq<Disk>) {
    forall i | 0 < i < |states| :: CrashStep(inputs, now, states[i - 1], states[i])
  }

  /** However often the append and its repairs crash, the records stay between the old chain and the finished one,
      so a repair and one completed append reach the chain of the run that never crashed. */
  lemma {:induction false} AnyScheduleCompletes(states: seq<Disk>, inputs: seq<Input>, now: int, i: nat)
    requires i < |states| && Schedule(inputs, now, states)
    requires Committed(states[0]) && CacheSound(states[0]) && AcceptedBatch(inputs)
    ensures var final := Plain(states[0].records, inputs, now).files;
            && states[0].records <= states[i].records <= final && Verified(states[i].records)
            && CanRepair(states[i].records, false)
            && Plain(states[i].records, inputs, now).files == final
  {
    PlainKeepsVerified(states[0].records, inputs, now);
    if i == 0 {
      RepairKeepsAll(states[0], false);
    } else {
      AnyScheduleCompletes(states, inputs, now, i - 1);
      var a, b := states[i - 1], states[i];
      assert CrashStep(inputs, now, a, b);
      if RepairState(a, |a.records|, b) {
        assert b.records == a.records[..|a.records|] + a.records[|a.records|..] == a.records;
      } else {
        var after :| Uninterrupted(a, inputs, now, after) && AppendState(a, after, b);
        CrashKeepsVerified(a, inputs, now, after, b);
      }
      RepairKeepsAll(b, false);
      RetryCompletes(states[0].records, b.records, inputs, now);
    }
  }

  // ---- repairing a repair ----

  /** A repair that truncates renames files one at a time, oldest first. Run again after a crash it succeeds exactly
      if none or all of them had been moved: a partial move leaves a gap that no longer validates. When it succeeds
      it keeps the same records, and in the end the same files are in quarantine. */
  lemma RepairAgain(before: Disk, n: nat, d: Disk)
    requires Sorted(before.records) && NoParallelChain(before.records) && FirstRepeat(before.records, n)
    requires RepairState(before, n, d)
    ensures CanRepair(d.records, true) <==> d.records == before.records || d.records == before.records[..n]
    ensures CanRepair(d.records, true) ==>
              && LongestVerified(d.records, n)
              && d.quarantine + d.records[n..] == before.quarantine + before.records[n..]
  {
    var k := |before.records| - |d.records|;
    if k == 0 {
      assert d.records == before.records by { assert before.records == before.records[..n] + before.records[n..]; }
      NothingMoved(before, n, d);
    } else if n + k == |before.records| {
      AllMoved(before, n, d);
    } else {
      assert |d.records| != |before.records| && |d.records| != n;
      GapBreaksRepair(before.records, n, k);
    }
  }

  lemma NothingMoved(before: Disk, n: nat, d: Disk)
    requires NoParallelChain(before.records) && FirstRepeat(before.records, n)
    requires d.records == before.records && d.quarantine == before.quarantine + before.records[n..n]
    ensures CanRepair(d.records, true) && LongestVerified(d.records, n)
    ensures d.quarantine + d.records[n..] == before.quarantine + before.records[n..]
  {
    RepeatEndsVerified(before.records, n);
    RepairDecision(d.records, n, true);
  }

  lemma AllMoved(before: Disk, n: nat, d: Disk)
    requires NoParallelChain(before.records) && FirstRepeat(before.records, n)
    requires d.records == before.records[..n] + before.records[|before.records|..]
    requires d.quarantine == before.quarantine + before.records[n..|before.records|]
    ensures d.records == before.records[..n] && CanRepair(d.records, true) && LongestVerified(d.records, n)
    ensures d.quarantine + d.records[n..] == before.quarantine + before.records[n..]
  {
    RepeatEndsVerified(before.records, n);
    assert d.records[..n] == d.records;
    LinkedHasNoParallelChain(d.records);
  }

  lemma GapHasNoParallelChain(files: seq<RecordFile>, n: nat, k: nat)
    requires NoParallelChain(files) && n + k < |files|
    ensures NoParallelChain(files[..n] + files[n + k..])
  {
    var gap := files[..n] + files[n + k..];
    forall i, j | 0 <= i < j < |gap| ensures gap[i].sequence != gap[j].sequence {
      var i', j' := if i < n then i else i + k, if j < n then j else j + k;
      assert gap[i] == files[i'] && gap[j] == files[j'];
    }
  }

  lemma PastTheRepeat(files: seq<RecordFile>, n: nat, k: nat)
    requires NoParallelChain(files) && FirstRepeat(files, n) && 0 < k && n + k < |files|
    ensures files[n + k].sequence != n + 1
  {
    assert LinkedAt(files[..n + 1], n);
    assert files[..n + 1][n] == files[n];
  }

  lemma GapEndsChain(files: seq<RecordFile>, n: nat, k: nat)
    requires NoParallelChain(files) && FirstRepeat(files, n) && 0 < k && n + k < |files|
    ensures var gap := files[..n] + files[n + k..];
            LongestVerified(gap, n) && !Linked(gap[..n + 1])
  {
    var gap := files[..n] + files[n + k..];
    RepeatEndsVerified(files, n);
    assert gap[..n] == files[..n];
    PastTheRepeat(files, n, k);
    assert gap[n] == files[n + k];
    OneMoreRecord(gap, n);
  }

  lemma GapBreaksRepair(files: seq<RecordFile>, n: nat, k: nat)
    requires Sorted(files) && NoParallelChain(files) && FirstRepeat(files, n)
    requires 0 < k && n + k < |files|
    ensures !CanRepair(files[..n] + files[n + k..], true)
  {
    GapEndsChain(files, n, k);
    GapHasNoParallelChain(files, n, k);
    RepairDecision(files[..n] + files[n + k..], n, true);
  }

  /** Three records, the second repeating the first one's key. */
  function RepeatedChain(): seq<RecordFile> {
    var one := [FileOf(BuildEvent(Example('a'), 1, None, 0))];
    var two := one + [FileOf(BuildEvent(Example('a'), 2, IdBefore(one, 1), 0))];
    two + [FileOf(BuildEvent(Example('b'), 3, IdBefore(two, 2), 0))]
  }

  /** A truncating repair accepts this chain; stopped after the first of its two renames, no repair accepts the rest. */
  lemma HalfMovedExample()
    ensures CanRepair(RepeatedChain(), true)
    ensures !CanRepair(RepeatedChain()[..1] + RepeatedChain()[2..], true)
  {
    var files := RepeatedChain();
    assert files[..1] == [files[0]] && files[..2] == [files[0], files[1]];
    assert LinkedAt(files[..1], 0) && LinkedAt(files[..2], 0) && LinkedAt(files[..2], 1);
    assert FirstRepeat(files, 1);
    GapBreaksRepair(files, 1, 1);
  }

  // ---- runs of appends ----

  /** `appendBrokerEvent`, once per input, leaves the chain of one batch. */
  method AppendOneByOne(store: EventStore, inputs: seq<Input>, now: int) returns (replies: seq<Reply>)
    requires store.Valid() && Committed(store.Now()) && CacheSound(store.Now()) && ValidInputs(inputs)
    modifies store
    ensures store.Valid() && Committed(store.Now()) && CacheSound(store.Now())
    ensures Outcome(store.records, replies) == Plain(old(store.records), inputs, now)
  {
    replies := [];
    for i := 0 to |inputs|
      invariant store.Valid() && Committed(store.Now()) && CacheSound(store.Now())
      invariant Outcome(store.records, replies) == Plain(old(store.records), inputs[..i], now)
    {
      var one := store.AppendBrokerEvents([inputs[i]], now);
      SplitBatch(old(store.records), inputs[..i], [inputs[i]], now);
      assert inputs[..i + 1] == inputs[..i] + [inputs[i]];
      replies := replies + one.value;
    }
    assert inputs[..|inputs|] == inputs;
  }

  lemma OneMoreBatch(batches: seq<seq<Input>>, i: nat, now: int)
    requires i < |batches|
    ensures var o := Plain([], Flatten(batches[..i]), now);
            var next := Plain(o.files, batches[i], now);
            Plain([], Flatten(batches[..i + 1]), now) == Outcome(next.files, o.replies + next.replies)
  {
    SplitBatch([], Flatten(batches[..i]), batches[i], now);
    FlattenLast(batches[..i + 1]);
    assert batches[..i + 1][..i] == batches[..i];
  }

  lemma {:induction false} FlattenLast(batches: seq<seq<Input>>)
    requires batches != []
    ensures Flatten(batches) == Flatten(batches[..|batches| - 1]) + batches[|batches| - 1]
    decreases |batches|
  {
    if |batches| > 1 {
      FlattenLast(batches[1..]);
      assert batches[1..][..|batches| - 2] == batches[..|batches| - 1][1..];
    } else {
      assert Flatten(batches) == batches[0] + [];
    }
  }
}
