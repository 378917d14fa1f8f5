/** Whole runs of the emergency grant ledger: any requests in any order, each of which may stop after any of its
    writes. */
module EmergencyRuns {
  import opened Wrappers
  import opened EmergencyLedger
  import opened EmergencyGrants

  datatype Request =
    | Evaluate(provider: Provider, now: int, execute: bool)
    | Open(provider: Provider, fieldsOk: bool, openedByOk: bool, grantId: string, until: int, now: int, execute: bool)
    | Close(provider: Provider, reasonOk: bool, reason: CloseReason, now: int, execute: bool)
    | Use(used: Option<string>, now: int, at: int, plain: bool)

  /** `stop`: how many writes of the request reach the disk before the process stops. */
  datatype Step = Step(request: Request, stop: Option<nat>)

  /** Every request to open brings an id that no other request brought. */
  predicate FreshIds(steps: seq<Step>) {
    forall i, j | 0 <= i < j < |steps| ::
      steps[i].request.Open? && steps[j].request.Open? ==> steps[i].request.grantId != steps[j].request.grantId
  }

  function IdsOf(steps: seq<Step>): set<string> {
    set i | 0 <= i < |steps| && steps[i].request.Open? :: steps[i].request.grantId
  }

  function WithId(ids: set<string>, request: Request): set<string> {
    if request.Open? then ids + {request.grantId} else ids
  }

  lemma IdsOfLast(steps: seq<Step>, i: nat)
    requires i < |steps|
    ensures IdsOf(steps[..i + 1]) == WithId(IdsOf(steps[..i]), steps[i].request)
  {
    assert steps[..i + 1] == steps[..i] + [steps[i]];
    forall k | 0 <= k < i && steps[k].request.Open? ensures steps[k].request.grantId in IdsOf(steps[..i + 1]) {
      assert steps[..i + 1][k] == steps[k];
    }
    if steps[i].request.Open? { assert steps[..i + 1][i] == steps[i]; }
  }

  lemma SomeIds(steps: seq<Step>, n: nat)
    requires n <= |steps|
    ensures IdsOf(steps[..n]) <= IdsOf(steps)
  {
  }

  lemma FreshIdIsNew(steps: seq<Step>, i: nat)
    requires FreshIds(steps) && i < |steps| && steps[i].request.Open?
    ensures steps[i].request.grantId !in IdsOf(steps[..i])
  {
  }

  lemma AcceptedIsReady(store: EmergencyStore, ids: set<string>)
    requires store.Valid() && EverSafe(store.log, ids) && Accepted(store.Now())
    ensures store.Ready(ids)
  {
    assert SafeIfAccepted(store.log[|store.log| - 1], ids);
  }

  method Serve(store: EmergencyStore, request: Request, ghost ids: set<string>)
    requires store.Valid() && EverSafe(store.log, ids)
    requires request.Open? ==> request.grantId !in ids
    modifies store
    ensures store.Valid() && old(store.log) <= store.log && EverSafe(store.log, WithId(ids, request))
    ensures old(Accepted(store.Now())) ==> Accepted(store.Now())
  {
    if Accepted(store.Now()) { AcceptedIsReady(store, ids); }
    EverSafeWidens(store.log, ids, WithId(ids, request));
    match request
    case Evaluate(provider, now, execute) =>
      var grant, valid := store.EvaluateEmergency(provider, now, execute, ids);
    case Open(provider, fieldsOk, openedByOk, grantId, until, now, execute) =>
      var opening := store.OpenEmergency(provider, fieldsOk, openedByOk, grantId, until, now, execute, ids);
    case Close(provider, reasonOk, reason, now, execute) =>
      var closing := store.CloseEmergency(provider, reasonOk, reason, now, execute, ids);
    case Use(used, now, at, plain) =>
      var failed := store.EmergencyUse(used, now, at, plain, ids);
  }

  /** Where a step stops, of the states it passes through. */
  ghost function StoppedIn(step: Step, passed: seq<Files>): Files
    requires passed != []
  {
    passed[if step.stop.Some? && step.stop.value < |passed| then step.stop.value else |passed| - 1]
  }

  /** What request i passed through is safe wherever it verifies, and starts where the one before stopped. */
  ghost predicate RunOk(steps: seq<Step>, runs: seq<seq<Files>>, i: nat)
    requires i < |runs| <= |steps|
  {
    && runs[i] != [] && EverSafe(runs[i], IdsOf(steps))
    && (i > 0 ==> runs[i - 1] != [] && runs[i][0] == StoppedIn(steps[i - 1], runs[i - 1]))
  }

  ghost predicate RunsOf(steps: seq<Step>, runs: seq<seq<Files>>) {
    |runs| <= |steps| && forall i {:trigger RunOk(steps, runs, i)} | 0 <= i < |runs| :: RunOk(steps, runs, i)
  }

  ghost predicate LedTo(steps: seq<Step>, runs: seq<seq<Files>>, now: Files) {
    runs != [] ==>
      |runs| <= |steps| && runs[|runs| - 1] != [] && now == StoppedIn(steps[|runs| - 1], runs[|runs| - 1])
  }

  lemma OneMoreRun(steps: seq<Step>, runs: seq<seq<Files>>, passed: seq<Files>)
    requires |runs| < |steps| && RunsOf(steps, runs)
    requires passed != [] && LedTo(steps, runs, passed[0]) && EverSafe(passed, IdsOf(steps))
    ensures RunsOf(steps, runs + [passed])
  {
    var more := runs + [passed];
    forall i | 0 <= i < |more| ensures RunOk(steps, more, i) {
      if i < |runs| { assert RunOk(steps, runs, i); }
    }
  }

  /** One request, and where it stops. `passed` are the states it would pass through if it did not. */
  method Perform(store: EmergencyStore, step: Step, ghost ids: set<string>) returns (ghost passed: seq<Files>)
    requires store.Valid() && EverSafe(store.log, ids)
    requires step.request.Open? ==> step.request.grantId !in ids
    modifies store
    ensures store.Valid() && EverSafe(store.log, WithId(ids, step.request))
    ensures passed != [] && passed[0] == old(store.Now()) && store.Now() == StoppedIn(step, passed)
    ensures EverSafe(passed, WithId(ids, step.request))
    ensures old(Accepted(store.Now())) && step.stop == None ==> Accepted(store.Now())
  {
    var start := |store.log| - 1;
    Serve(store, step.request, ids);
    passed := store.log[start..];
    EverSafeFrom(store.log, start, WithId(ids, step.request));
    if step.stop.Some? && start + step.stop.value < |store.log| {
      EverSafePrefix(store.log, start + step.stop.value + 1, WithId(ids, step.request));
      store.Stop(start + step.stop.value);
    }
  }

  /** Over every run from an empty directory, with stops after any write, whatever ledger verifies at any moment holds
      a safe run; and without stops the ledger verifies at the end. `runs` are the states each request passed through until
      it stopped or ended; the next one starts where it stopped. */
  method RunRequests(steps: seq<Step>) returns (store: EmergencyStore, ghost runs: seq<seq<Files>>)
    requires FreshIds(steps)
    ensures fresh(store) && store.Valid() && EverSafe(store.log, IdsOf(steps))
    ensures |runs| == |steps| && RunsOf(steps, runs)
    ensures (forall i | 0 <= i < |steps| :: steps[i].stop == None) ==> SafeLedger(store.Now())
  {
    store := new EmergencyStore();
    runs := [];
    for i := 0 to |steps|
      invariant fresh(store) && store.Valid() && EverSafe(store.log, IdsOf(steps[..i]))
      invariant |runs| == i && RunsOf(steps, runs) && LedTo(steps, runs, store.Now())
      invariant (forall j | 0 <= j < i :: steps[j].stop == None) ==> Accepted(store.Now())
    {
      if steps[i].request.Open? { FreshIdIsNew(steps, i); }
      IdsOfLast(steps, i);
      ghost var passed := Perform(store, steps[i], IdsOf(steps[..i]));
      SomeIds(steps, i + 1);
      EverSafeWidens(passed, IdsOf(steps[..i + 1]), IdsOf(steps));
      OneMoreRun(steps, runs, passed);
      runs := runs + [passed];
    }
    assert steps[..|steps|] == steps;
    if Accepted(store.Now()) { AcceptedIsReady(store, IdsOf(steps)); }
  }

  lemma EverSafeFrom(log: seq<Files>, start: nat, ids: set<string>)
    requires start <= |log| && EverSafe(log, ids)
    ensures EverSafe(log[start..], ids)
  {
    forall k | 0 <= k < |log[start..]| ensures SafeIfAccepted(log[start..][k], ids) {
      assert SafeIfAccepted(log[start + k], ids);
    }
  }

  lemma EverSafePrefix(log: seq<Files>, n: nat, ids: set<string>)
    requires n <= |log| && EverSafe(log, ids)
    ensures EverSafe(log[..n], ids)
  {
  }
}
