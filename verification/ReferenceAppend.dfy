/** What an append is meant to do, with no index file: each input is answered from the chain by scanning it for
    the key, or appended as the next link. The store's cached, batched append is proved against this. */
module ReferenceAppend {
  import opened Wrappers
  import opened EventChain

  /** One result of `appendBrokerEvents`: the event, and whether it was already on the chain. */
  datatype Reply = Reply(event: Event, replay: bool)

  datatype Outcome = Outcome(files: seq<RecordFile>, replies: seq<Reply>)

  /** The first record that carries the key. */
  function Find(files: seq<RecordFile>, key: Key): Option<Event> {
    if files == [] then None
    else if files[0].content.Parsed? && files[0].content.event.core.key == key then Some(files[0].content.event)
    else Find(files[1..], key)
  }

  function NextEvent(files: seq<RecordFile>, input: Input, now: int): Event {
    BuildEvent(input, |files| + 1, IdBefore(files, |files|), now)
  }

  function Replayed(o: Outcome, event: Event): Outcome {
    Outcome(o.files, o.replies + [Reply(event, true)])
  }

  function Appended(o: Outcome, event: Event): Outcome
    requires event.core.sequence >= 0
  {
    Outcome(o.files + [FileOf(event)], o.replies + [Reply(event, false)])
  }

  function PlainStep(o: Outcome, input: Input, now: int): Outcome {
    match Find(o.files, input.key)
    case Some(event) => Replayed(o, event)
    case None => Appended(o, NextEvent(o.files, input, now))
  }

  /** The reference: one scan of the chain per input. */
  function Plain(files: seq<RecordFile>, inputs: seq<Input>, now: int): Outcome
    decreases |inputs|
  {
    if inputs == [] then Outcome(files, [])
    else PlainStep(Plain(files, inputs[..|inputs| - 1], now), inputs[|inputs| - 1], now)
  }

  function CachedStep(o: Outcome, known: set<Key>, input: Input, now: int): Outcome {
    if input.key in known then PlainStep(o, input, now) else Appended(o, NextEvent(o.files, input, now))
  }

  /** The same, except that only keys the cache knows are looked up at all. */
  function Cached(files: seq<RecordFile>, known: set<Key>, inputs: seq<Input>, now: int): Outcome
    decreases |inputs|
  {
    if inputs == [] then Outcome(files, [])
    else CachedStep(Cached(files, known, inputs[..|inputs| - 1], now), known, inputs[|inputs| - 1], now)
  }

  predicate ValidInputs(inputs: seq<Input>) {
    forall i | 0 <= i < |inputs| :: ValidInput(inputs[i])
  }

  predicate DistinctInputs(inputs: seq<Input>) {
    forall i, j | 0 <= i < j < |inputs| :: inputs[i].key != inputs[j].key
  }

  function InputKeys(inputs: seq<Input>): set<Key> {
    set i | 0 <= i < |inputs| :: inputs[i].key
  }

  /** The cache knows every key of the batch that is already on the chain. */
  predicate CacheCovers(files: seq<RecordFile>, known: set<Key>, inputs: seq<Input>) {
    forall i | 0 <= i < |inputs| :: inputs[i].key in Keys(files) ==> inputs[i].key in known
  }

  // ---- lookups ----

  lemma {:induction false} FindMeaning(files: seq<RecordFile>, key: Key)
    requires Readable(files)
    ensures match Find(files, key)
            case None => key !in Keys(files)
            case Some(event) => key in Keys(files) && event.core.key == key
                                && exists i :: 0 <= i < |files| && files[i] == RecordFile(files[i].sequence, files[i].id, Parsed(event))
  {
    if files != [] {
      assert files == [files[0]] + files[1..];
      assert KeyOf(files[0]) in Keys(files);
      if KeyOf(files[0]) != key {
        FindMeaning(files[1..], key);
        forall i | 1 <= i < |files| ensures KeyOf(files[i]) in Keys(files[1..]) {
          assert files[i] == files[1..][i - 1];
        }
        if Find(files[1..], key).Some? {
          var i :| 0 <= i < |files[1..]|
                   && files[1..][i] == RecordFile(files[1..][i].sequence, files[1..][i].id, Parsed(Find(files, key).value));
          assert files[i + 1] == files[1..][i];
        }
      }
    }
  }

  lemma {:induction false} FindInLonger(files: seq<RecordFile>, more: seq<RecordFile>, key: Key)
    ensures Find(files + more, key) == if Find(files, key).Some? then Find(files, key) else Find(more, key)
  {
    if files == [] {
      assert files + more == more;
    } else {
      assert (files + more)[1..] == files[1..] + more;
      FindInLonger(files[1..], more, key);
    }
  }

  // ---- the reference keeps the chain verified ----

  lemma StepKeepsVerified(o: Outcome, input: Input, now: int)
    requires Verified(o.files) && ValidInput(input)
    ensures Verified(PlainStep(o, input, now).files)
    ensures Keys(PlainStep(o, input, now).files) == Keys(o.files) + {input.key}
  {
    LinkedHasNoParallelChain(o.files);
    FindMeaning(o.files, input.key);
    ExtendLinked(o.files, input, now);
    ExtendDistinct(o.files, FileOf(NextEvent(o.files, input, now)));
  }

  /** Appends only extend, keep the whole-chain check true, and put exactly the input keys on the chain. */
  lemma {:induction false} PlainKeepsVerified(files: seq<RecordFile>, inputs: seq<Input>, now: int)
    requires Verified(files) && ValidInputs(inputs)
    ensures var o := Plain(files, inputs, now);
            && Verified(o.files) && files <= o.files
            && Keys(o.files) == Keys(files) + InputKeys(inputs)
            && |o.replies| == |inputs|
    decreases |inputs|
  {
    if inputs != [] {
      var n := |inputs| - 1;
      assert ValidInputs(inputs[..n]) && ValidInput(inputs[n]);
      PlainKeepsVerified(files, inputs[..n], now);
      StepKeepsVerified(Plain(files, inputs[..n], now), inputs[n], now);
      InputKeysOfLast(inputs);
    }
  }

  lemma InputKeysOfLast(inputs: seq<Input>)
    requires inputs != []
    ensures InputKeys(inputs) == InputKeys(inputs[..|inputs| - 1]) + {inputs[|inputs| - 1].key}
  {
    forall i | 0 <= i < |inputs| - 1 ensures inputs[..|inputs| - 1][i] == inputs[i] {}
  }

  lemma {:induction false} PlainExtends(files: seq<RecordFile>, inputs: seq<Input>, now: int)
    ensures files <= Plain(files, inputs, now).files && |Plain(files, inputs, now).replies| == |inputs|
    decreases |inputs|
  {
    if inputs != [] {
      PlainExtends(files, inputs[..|inputs| - 1], now);
    }
  }

  /** Every reply is the event the final chain holds for that input's key. */
  lemma {:induction false} RepliesAreLookups(files: seq<RecordFile>, inputs: seq<Input>, now: int)
    ensures var o := Plain(files, inputs, now);
            && |o.replies| == |inputs|
            && forall i | 0 <= i < |inputs| :: Find(o.files, inputs[i].key) == Some(o.replies[i].event)
    decreases |inputs|
  {
    if inputs != [] {
      var n := |inputs| - 1;
      var before := Plain(files, inputs[..n], now);
      var o := Plain(files, inputs, now);
      RepliesAreLookups(files, inputs[..n], now);
      var event := NextEvent(before.files, inputs[n], now);
      forall i | 0 <= i <= n ensures Find(o.files, inputs[i].key) == Some(o.replies[i].event) {
        FindInLonger(before.files, [FileOf(event)], inputs[i].key);
        if i < n {
          assert inputs[..n][i] == inputs[i];
        }
      }
    }
  }

  /** A reply says `replay` exactly when the key was on the chain before the batch. */
  lemma {:induction false} RepliesSayReplay(files: seq<RecordFile>, inputs: seq<Input>, now: int)
    requires Verified(files) && ValidInputs(inputs) && DistinctInputs(inputs)
    ensures var o := Plain(files, inputs, now);
            && |o.replies| == |inputs|
            && forall i | 0 <= i < |inputs| :: o.replies[i].replay <==> inputs[i].key in Keys(files)
    decreases |inputs|
  {
    if inputs != [] {
      var n := |inputs| - 1;
      RepliesSayReplay(files, inputs[..n], now);
      PlainKeepsVerified(files, inputs[..n], now);
      var before := Plain(files, inputs[..n], now);
      LinkedHasNoParallelChain(before.files);
      FindMeaning(before.files, inputs[n].key);
      assert inputs[n].key !in InputKeys(inputs[..n]);
      forall i | 0 <= i <= n ensures Plain(files, inputs, now).replies[i].replay <==> inputs[i].key in Keys(files) {
        if i < n {
          assert inputs[..n][i] == inputs[i];
        }
      }
    }
  }

  // ---- what a batch does, record by record ----

  /** The record says what the input said, and when it was recorded; it does not take anything from elsewhere. */
  ghost predicate RecordsInput(event: Event, input: Input, now: int) {
    && event.core.key == input.key && event.core.body == input.body && event.core.payload == input.payload
    && event.core.shaped == input.shaped && event.core.recordedAt == now
  }

  /** The record file at sequence k + 1 holds the event. */
  ghost predicate HoldsAt(files: seq<RecordFile>, k: int, event: Event) {
    0 <= k < |files| && files[k].content == Parsed(event)
  }

  ghost predicate CarriesKey(files: seq<RecordFile>, key: Key) {
    exists k :: 0 <= k < |files| && files[k].content.Parsed? && files[k].content.event.core.key == key
  }

  /** One input is answered: with the old record of its key if there is one, and else with a new record of it. */
  ghost predicate Answered(before: seq<RecordFile>, after: seq<RecordFile>, input: Input, reply: Reply, now: int) {
    && reply.event.core.key == input.key
    && (reply.replay <==> CarriesKey(before, input.key))
    && (reply.replay ==> exists k :: HoldsAt(before, k, reply.event))
    && (!reply.replay ==>
          && |before| < reply.event.core.sequence
          && HoldsAt(after, reply.event.core.sequence - 1, reply.event)
          && RecordsInput(reply.event, input, now))
  }

  /** Some reply of the batch announces the record as new. */
  ghost predicate Announced(file: RecordFile, replies: seq<Reply>) {
    exists i :: 0 <= i < |replies| && !replies[i].replay && file.content == Parsed(replies[i].event)
  }

  ghost predicate NewInOrder(replies: seq<Reply>) {
    forall i, j | 0 <= i < j < |replies| && !replies[i].replay && !replies[j].replay ::
      replies[i].event.core.sequence < replies[j].event.core.sequence
  }

  /** What a batch does: every input is answered, the new records are those of the replies that are no replays, in
      the order of the inputs, and no other record appears. */
  ghost predicate Answers(before: seq<RecordFile>, after: seq<RecordFile>, inputs: seq<Input>, replies: seq<Reply>, now: int) {
    && before <= after && |replies| == |inputs|
    && (forall i {:trigger Answered(before, after, inputs[i], replies[i], now)} | 0 <= i < |inputs| ::
          Answered(before, after, inputs[i], replies[i], now))
    && NewInOrder(replies)
    && (forall k {:trigger Announced(after[k], replies)} | |before| <= k < |after| :: Announced(after[k], replies))
  }

  lemma CarriesKeyMeaning(files: seq<RecordFile>, key: Key)
    requires Readable(files)
    ensures CarriesKey(files, key) <==> key in Keys(files)
  {
    if key in Keys(files) {
      var k :| 0 <= k < |files| && KeyOf(files[k]) == key;
      assert files[k].content.Parsed?;
    }
    if CarriesKey(files, key) {
      var k :| 0 <= k < |files| && files[k].content.Parsed? && files[k].content.event.core.key == key;
      assert KeyOf(files[k]) in Keys(files);
    }
  }

  lemma FoundIsHeld(files: seq<RecordFile>, key: Key)
    requires Readable(files)
    ensures CarriesKey(files, key) <==> Find(files, key).Some?
    ensures Find(files, key).Some? ==>
              && Find(files, key).value.core.key == key
              && exists k :: HoldsAt(files, k, Find(files, key).value)
  {
    FindMeaning(files, key);
    CarriesKeyMeaning(files, key);
    if Find(files, key).Some? {
      var event := Find(files, key).value;
      var k :| 0 <= k < |files| && files[k] == RecordFile(files[k].sequence, files[k].id, Parsed(event));
      assert HoldsAt(files, k, event);
    }
  }

  lemma AnsweredStays(before: seq<RecordFile>, after: seq<RecordFile>, longer: seq<RecordFile>, input: Input, reply: Reply, now: int)
    requires Answered(before, after, input, reply, now) && after <= longer
    ensures Answered(before, longer, input, reply, now)
  {
  }

  /** The last input of a batch: no earlier one had its key, so it is looked up among the old records. */
  lemma LastAnswered(before: seq<RecordFile>, o: Outcome, input: Input, now: int)
    requires Readable(before) && before <= o.files
    requires Find(o.files, input.key) == Find(before, input.key)
    ensures var next := PlainStep(o, input, now);
            Answered(before, next.files, input, next.replies[|o.replies|], now)
  {
    FoundIsHeld(before, input.key);
  }

  lemma LookedUpBefore(before: seq<RecordFile>, files: seq<RecordFile>, key: Key)
    requires Readable(files) && before <= files && (key in Keys(files) ==> key in Keys(before))
    ensures Find(files, key) == Find(before, key)
  {
    assert files == before + files[|before|..];
    FindInLonger(before, files[|before|..], key);
    assert forall k | 0 <= k < |before| :: before[k] == files[k];
    FindMeaning(before, key);
    FindMeaning(files, key);
  }

  lemma OrderOfLast(o: Outcome, input: Input, now: int)
    requires NewInOrder(o.replies)
    requires forall i | 0 <= i < |o.replies| && !o.replies[i].replay :: o.replies[i].event.core.sequence <= |o.files|
    ensures NewInOrder(PlainStep(o, input, now).replies)
  {
  }

  lemma AnnouncedStill(file: RecordFile, replies: seq<Reply>, more: seq<Reply>)
    requires Announced(file, replies) && replies <= more
    ensures Announced(file, more)
  {
    var i :| 0 <= i < |replies| && !replies[i].replay && file.content == Parsed(replies[i].event);
    assert more[i] == replies[i];
  }

  lemma AnnouncedAll(before: seq<RecordFile>, o: Outcome, input: Input, now: int)
    requires before <= o.files && forall k | |before| <= k < |o.files| :: Announced(o.files[k], o.replies)
    ensures var next := PlainStep(o, input, now);
            forall k | |before| <= k < |next.files| :: Announced(next.files[k], next.replies)
  {
    var next := PlainStep(o, input, now);
    forall k | |before| <= k < |next.files| ensures Announced(next.files[k], next.replies) {
      if k < |o.files| {
        AnnouncedStill(o.files[k], o.replies, next.replies);
      } else {
        assert !next.replies[|o.replies|].replay && next.files[k].content == Parsed(next.replies[|o.replies|].event);
      }
    }
  }

  /** The reference does exactly that. */
  lemma {:induction false} PlainAnswers(files: seq<RecordFile>, inputs: seq<Input>, now: int)
    requires Verified(files) && ValidInputs(inputs) && DistinctInputs(inputs)
    ensures var o := Plain(files, inputs, now); Answers(files, o.files, inputs, o.replies, now)
    decreases |inputs|
  {
    if inputs != [] {
      var n := |inputs| - 1;
      assert forall i | 0 <= i < n :: inputs[..n][i] == inputs[i];
      PlainAnswers(files, inputs[..n], now);
      AnswersOneMore(files, inputs, Plain(files, inputs[..n], now), now);
    }
  }

  lemma AllAnswered(files: seq<RecordFile>, inputs: seq<Input>, o: Outcome, next: Outcome, now: int)
    requires inputs != [] && |o.replies| == |inputs| - 1 && |next.replies| == |inputs| && o.replies <= next.replies
    requires o.files <= next.files
    requires forall i | 0 <= i < |inputs| - 1 :: Answered(files, o.files, inputs[..|inputs| - 1][i], o.replies[i], now)
    requires Answered(files, next.files, inputs[|inputs| - 1], next.replies[|inputs| - 1], now)
    ensures forall i | 0 <= i < |inputs| :: Answered(files, next.files, inputs[i], next.replies[i], now)
  {
    forall i | 0 <= i < |inputs| ensures Answered(files, next.files, inputs[i], next.replies[i], now) {
      if i < |inputs| - 1 {
        assert Answered(files, o.files, inputs[..|inputs| - 1][i], o.replies[i], now);
        AnsweredStays(files, o.files, next.files, inputs[i], o.replies[i], now);
      }
    }
  }

  lemma NewAreBelow(files: seq<RecordFile>, after: seq<RecordFile>, inputs: seq<Input>, replies: seq<Reply>, now: int)
    requires Answers(files, after, inputs, replies, now)
    ensures forall i | 0 <= i < |replies| && !replies[i].replay :: replies[i].event.core.sequence <= |after|
  {
    forall i | 0 <= i < |replies| && !replies[i].replay ensures replies[i].event.core.sequence <= |after| {
      assert Answered(files, after, inputs[i], replies[i], now);
    }
  }

  lemma AnswersOneMore(files: seq<RecordFile>, inputs: seq<Input>, o: Outcome, now: int)
    requires Verified(files) && ValidInputs(inputs) && DistinctInputs(inputs) && inputs != []
    requires o == Plain(files, inputs[..|inputs| - 1], now)
    requires Answers(files, o.files, inputs[..|inputs| - 1], o.replies, now)
    ensures var next := PlainStep(o, inputs[|inputs| - 1], now); Answers(files, next.files, inputs, next.replies, now)
  {
    var n := |inputs| - 1;
    var next := PlainStep(o, inputs[n], now);
    assert Find(o.files, inputs[n].key) == Find(files, inputs[n].key) && Readable(files) by {
      PlainKeepsVerified(files, inputs[..n], now);
      LinkedHasNoParallelChain(files);
      LinkedHasNoParallelChain(o.files);
      assert inputs[n].key !in InputKeys(inputs[..n]);
      LookedUpBefore(files, o.files, inputs[n].key);
    }
    LastAnswered(files, o, inputs[n], now);
    AllAnswered(files, inputs, o, next, now);
    NewAreBelow(files, o.files, inputs[..n], o.replies, now);
    OrderOfLast(o, inputs[n], now);
    AnnouncedAll(files, o, inputs[n], now);
  }

  // ---- batches ----

  lemma StepAfterReplies(o: Outcome, earlier: seq<Reply>, input: Input, now: int)
    ensures var next := PlainStep(o, input, now);
            PlainStep(Outcome(o.files, earlier + o.replies), input, now) == Outcome(next.files, earlier + next.replies)
  {
    var next := PlainStep(o, input, now);
    assert earlier + next.replies == (earlier + o.replies) + [next.replies[|o.replies|]];
  }

  /** Splitting a batch changes neither the chain nor the replies. */
  lemma {:induction false} SplitBatch(files: seq<RecordFile>, xs: seq<Input>, ys: seq<Input>, now: int)
    ensures var first := Plain(files, xs, now);
            var second := Plain(first.files, ys, now);
            Plain(files, xs + ys, now) == Outcome(second.files, first.replies + second.replies)
    decreases |ys|
  {
    var first := Plain(files, xs, now);
    if ys == [] {
      assert xs + ys == xs;
      assert first.replies + [] == first.replies;
    } else {
      var n := |ys| - 1;
      SplitBatch(files, xs, ys[..n], now);
      assert (xs + ys)[..|xs| + n] == xs + ys[..n];
      StepAfterReplies(Plain(first.files, ys[..n], now), first.replies, ys[n], now);
    }
  }

  function Flatten(batches: seq<seq<Input>>): seq<Input> {
    if batches == [] then [] else batches[0] + Flatten(batches[1..])
  }

  /** One append call per batch, all at the same time. */
  function PlainBatches(files: seq<RecordFile>, batches: seq<seq<Input>>, now: int): Outcome
    decreases |batches|
  {
    if batches == [] then Outcome(files, [])
    else
      var first := Plain(files, batches[0], now);
      var rest := PlainBatches(first.files, batches[1..], now);
      Outcome(rest.files, first.replies + rest.replies)
  }

  /** Any partition of the inputs into batches gives the same chain and the same replies. */
  lemma {:induction false} PartitionIrrelevant(files: seq<RecordFile>, batches: seq<seq<Input>>, now: int)
    ensures PlainBatches(files, batches, now) == Plain(files, Flatten(batches), now)
    decreases |batches|
  {
    if batches != [] {
      SplitBatch(files, batches[0], Flatten(batches[1..]), now);
      PartitionIrrelevant(Plain(files, batches[0], now).files, batches[1..], now);
    }
  }

  // ---- retries ----

  lemma {:induction false} AllReplayed(files: seq<RecordFile>, inputs: seq<Input>, now: int)
    requires forall i | 0 <= i < |inputs| :: Find(files, inputs[i].key).Some?
    ensures Plain(files, inputs, now).files == files
    decreases |inputs|
  {
    if inputs != [] {
      var n := |inputs| - 1;
      forall i | 0 <= i < n ensures Find(files, inputs[..n][i].key).Some? {
        assert inputs[..n][i] == inputs[i];
      }
      AllReplayed(files, inputs[..n], now);
    }
  }

  /** Exactly-once retry: from any point between the chain before and after a batch, the same batch at the same
      time completes to the same chain, and answers with the same events. */
  lemma RetryCompletes(files: seq<RecordFile>, middle: seq<RecordFile>, inputs: seq<Input>, now: int)
    requires files <= middle <= Plain(files, inputs, now).files
    ensures var once := Plain(files, inputs, now);
            var again := Plain(middle, inputs, now);
            && again.files == once.files
            && |again.replies| == |once.replies| == |inputs|
            && forall i | 0 <= i < |inputs| :: again.replies[i].event == once.replies[i].event
  {
    RetryFiles(files, middle, inputs, now);
    RepliesAreLookups(files, inputs, now);
    RepliesAreLookups(middle, inputs, now);
  }

  lemma {:induction false} RetryFiles(files: seq<RecordFile>, middle: seq<RecordFile>, inputs: seq<Input>, now: int)
    requires files <= middle <= Plain(files, inputs, now).files
    ensures Plain(middle, inputs, now).files == Plain(files, inputs, now).files
    decreases |inputs|
  {
    if inputs != [] {
      var n := |inputs| - 1;
      var before := Plain(files, inputs[..n], now).files;
      var after := Plain(files, inputs, now).files;
      PlainExtends(files, inputs[..n], now);
      if |middle| <= |before| {
        assert middle == after[..|middle|] == before[..|middle|];
        RetryFiles(files, middle, inputs[..n], now);
      } else {
        assert middle == after;
        RepliesAreLookups(files, inputs, now);
        AllReplayed(middle, inputs, now);
      }
    }
  }

  // ---- the cache ----

  lemma {:induction false} CoveringCacheAgrees(files: seq<RecordFile>, known: set<Key>, inputs: seq<Input>, now: int)
    requires Verified(files) && ValidInputs(inputs) && DistinctInputs(inputs) && CacheCovers(files, known, inputs)
    ensures Cached(files, known, inputs, now) == Plain(files, inputs, now)
    decreases |inputs|
  {
    if inputs != [] {
      var n := |inputs| - 1;
      forall i | 0 <= i < n ensures inputs[..n][i] == inputs[i] {}
      CoveringCacheAgrees(files, known, inputs[..n], now);
      PlainKeepsVerified(files, inputs[..n], now);
      var before := Plain(files, inputs[..n], now).files;
      LinkedHasNoParallelChain(before);
      FindMeaning(before, inputs[n].key);
      assert inputs[n].key !in InputKeys(inputs[..n]);
    }
  }

  lemma {:induction false} CachedExtends(files: seq<RecordFile>, known: set<Key>, inputs: seq<Input>, now: int)
    ensures files <= Cached(files, known, inputs, now).files
    ensures |Cached(files, known, inputs, now).replies| == |inputs|
    decreases |inputs|
  {
    if inputs != [] {
      CachedExtends(files, known, inputs[..|inputs| - 1], now);
    }
  }

  /** A missing key shows on the chain: the event is appended a second time. */
  lemma {:induction false} MissingKeyDuplicates(files: seq<RecordFile>, known: set<Key>, inputs: seq<Input>, now: int)
    requires !CacheCovers(files, known, inputs)
    ensures !DistinctKeys(Cached(files, known, inputs, now).files)
    decreases |inputs|
  {
    var n := |inputs| - 1;
    var before := Cached(files, known, inputs[..n], now).files;
    var after := Cached(files, known, inputs, now).files;
    assert before <= after;
    forall k | 0 <= k < n ensures inputs[..n][k] == inputs[k] {}
    if CacheCovers(files, known, inputs[..n]) {
      var i :| 0 <= i < |inputs| && inputs[i].key in Keys(files) && inputs[i].key !in known;
      assert i == n;
      CachedExtends(files, known, inputs[..n], now);
      var j :| 0 <= j < |files| && KeyOf(files[j]) == inputs[n].key;
      assert after[j] == files[j] && KeyOf(after[|before|]) == inputs[n].key;
    } else {
      MissingKeyDuplicates(files, known, inputs[..n], now);
      var i, j :| 0 <= i < j < |before| && KeyOf(before[i]) == KeyOf(before[j]);
      assert after[i] == before[i] && after[j] == before[j];
    }
  }

  /** The cache is transparent exactly when it misses none of the batch's keys that are on the chain; and
      otherwise the chain it leaves fails verification. */
  lemma CacheTransparency(files: seq<RecordFile>, known: set<Key>, inputs: seq<Input>, now: int)
    requires Verified(files) && ValidInputs(inputs) && DistinctInputs(inputs)
    ensures Cached(files, known, inputs, now) == Plain(files, inputs, now) <==> CacheCovers(files, known, inputs)
    ensures Verified(Cached(files, known, inputs, now).files) <==> CacheCovers(files, known, inputs)
  {
    PlainKeepsVerified(files, inputs, now);
    if CacheCovers(files, known, inputs) {
      CoveringCacheAgrees(files, known, inputs, now);
    } else {
      MissingKeyDuplicates(files, known, inputs, now);
    }
  }

  function Example(key: char): Input {
    Input(seq(64, i => key), true, "", "")
  }

  /** One record, and a cache that does not know its key: the event is appended again, and the chain no longer verifies. */
  lemma UncoveredKeyExample(now: int)
    ensures var files := [FileOf(BuildEvent(Example('a'), 1, None, 0))];
            Verified(files) && !Verified(Cached(files, {}, [Example('a')], now).files)
  {
    var files, inputs := [FileOf(BuildEvent(Example('a'), 1, None, 0))], [Example('a')];
    assert LinkedAt(files, 0);
    assert KeyOf(files[0]) in Keys(files) && inputs[0].key !in {};
    assert !CacheCovers(files, {}, inputs);
    CacheTransparency(files, {}, inputs, now);
  }
}
