/** The operations of `src/emergency.mts` on the grant ledger, each under the ledger lock, and what they guarantee
    over every run. */
module EmergencyGrants {
  import opened Wrappers
  import opened EmergencyLedger

  datatype Error = InvalidRequest | LedgerInvalid | MustExtend | NoLongerActive

  /** The ledger file and its checkpoint. */
  datatype Files = Files(ledger: Option<LedgerText>, head: Option<Checkpoint>)

  datatype Verdict = Invalid | Verified(records: seq<LedgerRecord>, behind: bool)

  function RecordsIn(ledger: Option<LedgerText>): seq<LedgerRecord> {
    if ledger.Some? && AllRecords(ledger.value.lines) then RecordsOf(ledger.value.lines) else []
  }

  predicate Accepted(files: Files) {
    Verifies(files.ledger, files.head, RecordsIn(files.ledger))
  }

  function LinesIn(ledger: Option<LedgerText>): seq<Line> {
    if ledger.Some? then ledger.value.lines else []
  }

  // ---- safe runs ----

  predicate IsOpen(records: seq<LedgerRecord>, grantId: string) {
    exists g: Grant | g in OpenGrants(records) :: g.grantId == grantId
  }

  /** What the operations make of each kind of record. */
  predicate SafeStep(before: seq<LedgerRecord>, data: RecordData) {
    match data
    case Opened(_, provider, _, expiresAt, None, _) =>
      forall g: Grant | g in OpenGrants(before) :: g.provider != provider
    case Opened(_, provider, _, expiresAt, Some(prior), _) =>
      exists g: Grant | g in OpenGrants(before) :: g.grantId == prior && g.provider == provider && g.expiresAt < expiresAt
    case Closed(grantId, _, _) => IsOpen(before, grantId)
    case Used(grantId, _, _) => IsOpen(before, grantId)
  }

  predicate Safe(records: seq<LedgerRecord>) {
    Chained(records) && forall i | 0 <= i < |records| :: SafeStep(records[..i], records[i].data)
  }

  predicate SafeLedger(files: Files) {
    Accepted(files) && Safe(RecordsIn(files.ledger))
  }

  // ---- grants in force ----

  function FindGrant(open: seq<Grant>, provider: Provider, after: Option<int>): Option<Grant> {
    if open == [] then None
    else if open[0].provider == provider && (after.Some? ==> after.value < open[0].expiresAt) then Some(open[0])
    else FindGrant(open[1..], provider, after)
  }

  predicate IsActive(open: seq<Grant>, grantId: string, now: int) {
    exists g: Grant | g in open :: g.grantId == grantId && now < g.expiresAt
  }

  /** The one open grant of the provider that has not expired, if there is one. */
  ghost predicate InForce(open: seq<Grant>, provider: Provider, now: int, grant: Option<Grant>) {
    forall g: Grant :: grant == Some(g) <==> g in open && g.provider == provider && now < g.expiresAt
  }

  lemma {:induction false} FoundIsInForce(open: seq<Grant>, provider: Provider, now: int)
    requires OneEach(open)
    ensures InForce(open, provider, now, FindGrant(open, provider, Some(now)))
  {
    if open != [] {
      assert open == [open[0]] + open[1..];
      FoundIsInForce(open[1..], provider, now);
    }
  }

  lemma {:induction false} FoundIsOpen(open: seq<Grant>, provider: Provider)
    ensures var grant := FindGrant(open, provider, None);
            && (grant == None <==> forall g: Grant | g in open :: g.provider != provider)
            && (grant.Some? ==> grant.value in open && grant.value.provider == provider)
  {
    if open != [] {
      assert open == [open[0]] + open[1..];
      FoundIsOpen(open[1..], provider);
    }
  }

  /** A request to open: its fields, and whether it is to be written. */
  datatype Opening = Opening(provider: Provider, fieldsOk: bool, openedByOk: bool, grantId: string, until: int, now: int, execute: bool)

  /** The grant is one of the provider that has not expired. */
  ghost predicate IsHeld(open: seq<Grant>, o: Opening, g: Grant) {
    g in open && g.provider == o.provider && o.now < g.expiresAt
  }

  /** The request is in order: it ends after now, at most 7 days and 1 hour from now, and after what the provider holds. */
  ghost predicate InOrder(open: seq<Grant>, o: Opening) {
    && o.fieldsOk && 0 < o.until - o.now <= 608400000
    && (forall g: Grant | IsHeld(open, o, g) :: g.expiresAt < o.until)
    && (o.execute ==> 1 <= |o.grantId| <= 200 && o.openedByOk)
  }

  /** What `openEmergency` answers on a ledger that verifies: the grant asked for, which names the one it replaces, exactly
      when the request is in order. */
  ghost predicate Answers(open: seq<Grant>, o: Opening, r: Result<RecordData, Error>) {
    && (r.Ok? <==> InOrder(open, o))
    && (r == Err(MustExtend) <==>
          o.fieldsOk && 0 < o.until - o.now <= 608400000 && exists g: Grant :: IsHeld(open, o, g) && o.until <= g.expiresAt)
    && (r.Err? ==> r.error == MustExtend || r.error == InvalidRequest)
    && (r.Ok? ==>
          && r.value.Opened? && r.value.grantId == o.grantId && r.value.provider == o.provider
          && r.value.openedAt == o.now && r.value.expiresAt == o.until && r.value.plain == o.openedByOk
          && (forall g: Grant | IsHeld(open, o, g) :: r.value.supersedes == Some(g.grantId))
          && ((forall g: Grant :: !IsHeld(open, o, g)) ==> r.value.supersedes == None))
  }

  lemma HeldOrNone(open: seq<Grant>, o: Opening, prior: Option<Grant>)
    requires InForce(open, o.provider, o.now, prior)
    ensures forall g: Grant :: IsHeld(open, o, g) <==> prior == Some(g)
  {
  }

  // ---- what safety means ----

  lemma LaterOpenIsFresh(records: seq<LedgerRecord>, i: nat, j: nat)
    requires Chained(records) && i < j < |records| && records[i].data.Opened? && records[j].data.Opened?
    ensures records[i].data.grantId != records[j].data.grantId
  {
    assert LinkedAt(records, j);
    assert records[..j][i].data.grantId in OpenedIds(records[..j]);
  }

  lemma OpenedAtMostOnce(records: seq<LedgerRecord>, i: nat, j: nat)
    requires Chained(records) && i < |records| && j < |records|
    requires records[i].data.Opened? && records[j].data.Opened? && records[i].data.grantId == records[j].data.grantId
    ensures i == j
  {
    if i < j { LaterOpenIsFresh(records, i, j); }
    if j < i { LaterOpenIsFresh(records, j, i); }
  }

  /** Where an open grant was opened, and what has not happened to it since. */
  lemma OpenPosition(records: seq<LedgerRecord>, n: nat, g: Grant) returns (i: nat)
    requires n <= |records| && g in OpenGrants(records[..n])
    ensures i < n && records[i].data == g
    ensures forall j | i < j < n :: !(records[j].data.Opened? && records[j].data.provider == g.provider)
    ensures forall j | i < j < n :: !(records[j].data.Closed? && records[j].data.grantId == g.grantId)
  {
    OpenGrantsMeaning(records[..n]);
    i :| OpenSince(records[..n], i, g);
    forall j | i < j < n ensures records[..n][j] == records[j] {}
  }

  /** A record about a grant comes after the grant was opened. */
  lemma OpenedBefore(records: seq<LedgerRecord>, j: nat) returns (i: nat)
    requires Chained(records) && j < |records| && !records[j].data.Opened?
    ensures i < j && records[i].data.Opened? && records[i].data.grantId == records[j].data.grantId
  {
    assert LinkedAt(records, j);
    i :| 0 <= i < j && records[..j][i].data.Opened? && records[..j][i].data.grantId == records[j].data.grantId;
  }

  /** Each grant is closed at most once. */
  lemma ClosedAtMostOnce(records: seq<LedgerRecord>, i: nat, j: nat)
    requires Safe(records) && i < j < |records|
    requires records[i].data.Closed? && records[j].data.Closed?
    ensures records[i].data.grantId != records[j].data.grantId
  {
    if records[i].data.grantId == records[j].data.grantId {
      assert SafeStep(records[..j], records[j].data);
      var g: Grant :| g in OpenGrants(records[..j]) && g.grantId == records[j].data.grantId;
      var o := OpenPosition(records, j, g);
      var p := OpenedBefore(records, i);
      OpenedAtMostOnce(records, o, p);
    }
  }

  /** A superseding grant is for the provider of the one it replaces, and expires strictly later. */
  lemma SupersessionExtends(records: seq<LedgerRecord>, s: nat) returns (o: nat)
    requires Safe(records) && s < |records| && records[s].data.Opened? && records[s].data.supersedes.Some?
    ensures o < s && records[o].data.Opened? && Some(records[o].data.grantId) == records[s].data.supersedes
    ensures records[o].data.provider == records[s].data.provider
    ensures records[o].data.expiresAt < records[s].data.expiresAt
  {
    assert SafeStep(records[..s], records[s].data);
    var g: Grant :| g in OpenGrants(records[..s]) && Some(g.grantId) == records[s].data.supersedes
                    && g.provider == records[s].data.provider && g.expiresAt < records[s].data.expiresAt;
    o := OpenPosition(records, s, g);
  }

  /** Every use lies after its grant's opening and before its close and its supersession. */
  lemma UsedWhileOpen(records: seq<LedgerRecord>, u: nat) returns (o: nat)
    requires Safe(records) && u < |records| && records[u].data.Used?
    ensures o < u && records[o].data.Opened? && records[o].data.grantId == records[u].data.grantId
    ensures forall c | 0 <= c < |records| && records[c].data.Closed? && records[c].data.grantId == records[u].data.grantId :: u < c
    ensures forall s | 0 <= s < |records| && records[s].data.Opened?
                       && records[s].data.supersedes == Some(records[u].data.grantId) :: u < s
  {
    assert SafeStep(records[..u], records[u].data);
    var g: Grant :| g in OpenGrants(records[..u]) && g.grantId == records[u].data.grantId;
    o := OpenPosition(records, u, g);
    forall c | 0 <= c < |records| && records[c].data.Closed? && records[c].data.grantId == g.grantId ensures u < c {
      UsedBeforeClose(records, o, u, c, g);
    }
    forall s | 0 <= s < |records| && records[s].data.Opened? && records[s].data.supersedes == Some(g.grantId) ensures u < s {
      UsedBeforeSupersession(records, o, u, s, g);
    }
  }

  lemma UsedBeforeClose(records: seq<LedgerRecord>, o: nat, u: nat, c: nat, g: Grant)
    requires Safe(records) && o < u < |records| && c < |records| && records[o].data == g && records[u].data.Used?
    requires forall j | o < j < u :: !(records[j].data.Closed? && records[j].data.grantId == g.grantId)
    requires records[c].data.Closed? && records[c].data.grantId == g.grantId
    ensures u < c
  {
    var p := OpenedBefore(records, c);
    OpenedAtMostOnce(records, o, p);
    assert o < c && c != u && !(o < c < u);
  }

  lemma UsedBeforeSupersession(records: seq<LedgerRecord>, o: nat, u: nat, s: nat, g: Grant)
    requires Safe(records) && o < u < |records| && s < |records| && records[o].data == g && records[u].data.Used?
    requires forall j | o < j < u :: !(records[j].data.Opened? && records[j].data.provider == g.provider)
    requires records[s].data.Opened? && records[s].data.supersedes == Some(g.grantId)
    ensures u < s
  {
    var p := SupersessionExtends(records, s);
    OpenedAtMostOnce(records, o, p);
    assert o < s && s != u && !(o < s < u);
  }

  /** Between two grants of one provider with no supersession, the first was closed before the second was opened. */
  lemma ReplacedOrClosed(records: seq<LedgerRecord>, i: nat, j: nat)
    requires Safe(records) && i < j < |records| && records[i].data.Opened? && records[j].data.Opened?
    requires records[i].data.provider == records[j].data.provider && records[j].data.supersedes == None
    requires forall k | i < k < j && records[k].data.Opened? :: records[k].data.provider != records[i].data.provider
    ensures exists c :: i < c < j && records[c].data.Closed? && records[c].data.grantId == records[i].data.grantId
  {
    assert SafeStep(records[..j], records[j].data);
    OpenGrantsMeaning(records[..j]);
    if forall c | i < c < j && records[c].data.Closed? :: records[c].data.grantId != records[i].data.grantId {
      assert OpenSince(records[..j], i, records[i].data);
    }
  }

  /** No grant lives longer than seven days and one hour. */
  lemma LifetimeBounded(records: seq<LedgerRecord>, i: nat)
    requires Chained(records) && i < |records| && records[i].data.Opened?
    ensures 0 < records[i].data.expiresAt - records[i].data.openedAt <= 608400000
  {
    assert LinkedAt(records, i);
  }

  lemma OpenIdsUnique(records: seq<LedgerRecord>, g: Grant, h: Grant)
    requires Chained(records) && g in OpenGrants(records) && h in OpenGrants(records) && g.grantId == h.grantId
    ensures g == h
  {
    assert records[..|records|] == records;
    var i := OpenPosition(records, |records|, g);
    var j := OpenPosition(records, |records|, h);
    OpenedAtMostOnce(records, i, j);
  }

  lemma OpenFits(records: seq<LedgerRecord>, g: Grant)
    requires Chained(records) && g in OpenGrants(records)
    ensures IdentifierOk(g.grantId) && g.grantId in OpenedIds(records)
  {
    assert records[..|records|] == records;
    var i := OpenPosition(records, |records|, g);
    assert LinkedAt(records, i);
  }

  lemma ExtendSafe(records: seq<LedgerRecord>, data: RecordData)
    requires Safe(records) && FitsAfter(data, OpenedIds(records)) && SafeStep(records, data)
    ensures Safe(Extended(records, data))
    ensures OpenGrants(Extended(records, data)) == AfterRecord(OpenGrants(records), data)
  {
    ExtendChained(records, data);
    var more := Extended(records, data);
    assert more[..|records|] == records;
    forall i | 0 <= i < |more| ensures SafeStep(more[..i], more[i].data) {
      if i < |records| { assert more[..i] == records[..i] && more[i] == records[i]; }
    }
  }

  // ---- one append ----

  /** The states between the two files' writes. */
  ghost predicate AppendCrash(before: Files, data: RecordData, d: Files) {
    var records := RecordsIn(before.ledger);
    || d == before
    || (before.ledger == None && d == before.(ledger := Some(LedgerText([], false))))
    || d == before.(ledger := Some(LedgerText(LinesIn(before.ledger), true)))
    || d == before.(ledger := WithLine(before.ledger, data))
    || d == Files(WithLine(before.ledger, data), Some(Checkpoint(HashBefore(Extended(records, data), |records| + 1), |records| + 1)))
  }

  ghost predicate CrashLog(log: seq<Files>, start: nat, before: Files, data: RecordData) {
    forall k | start <= k < |log| :: AppendCrash(before, data, log[k])
  }

  /** A ledger that verifies holds a safe run, with no grant but the given ones. */
  ghost predicate SafeIfAccepted(d: Files, ids: set<string>) {
    Accepted(d) ==> Safe(RecordsIn(d.ledger)) && OpenedIds(RecordsIn(d.ledger)) <= ids
  }

  /** Whatever a stop left behind. */
  ghost predicate EverSafe(log: seq<Files>, ids: set<string>) {
    forall k | 0 <= k < |log| :: SafeIfAccepted(log[k], ids)
  }

  function WithLine(ledger: Option<LedgerText>, data: RecordData): Option<LedgerText> {
    var records := RecordsIn(ledger);
    Some(LedgerText(LinesIn(ledger) + [Line(Extended(records, data)[|records|])], false))
  }

  lemma WithLineRecords(ledger: Option<LedgerText>, data: RecordData)
    requires ledger.Some? ==> AllRecords(ledger.value.lines)
    ensures AllRecords(WithLine(ledger, data).value.lines)
    ensures RecordsIn(WithLine(ledger, data)) == Extended(RecordsIn(ledger), data)
  {
  }

  /** After both writes the ledger verifies exactly when the record fits. */
  lemma WrittenIsAccepted(before: Files, data: RecordData)
    requires Accepted(before)
    ensures var records := RecordsIn(before.ledger);
            var more := Extended(records, data);
            && RecordsIn(WithLine(before.ledger, data)) == more
            && (Accepted(Files(WithLine(before.ledger, data), Some(Checkpoint(HashBefore(more, |more|), |more|))))
                <==> FitsAfter(data, OpenedIds(records)))
  {
    WithLineRecords(before.ledger, data);
    ExtendChained(RecordsIn(before.ledger), data);
  }

  /** A stop anywhere in an append leaves a ledger that verifies to the old records, to the new ones, or not at all. */
  lemma CrashLeavesOldNewOrNothing(before: Files, data: RecordData, d: Files, records: seq<LedgerRecord>)
    requires Accepted(before) && AppendCrash(before, data, d)
    requires Verifies(d.ledger, d.head, records)
    ensures records == RecordsIn(before.ledger) || records == Extended(RecordsIn(before.ledger), data)
  {
    WithLineRecords(before.ledger, data);
  }

  lemma CrashStateIsSafe(before: Files, data: RecordData, d: Files, ids: set<string>)
    requires SafeLedger(before) && AppendCrash(before, data, d)
    requires FitsAfter(data, OpenedIds(RecordsIn(before.ledger))) ==> SafeStep(RecordsIn(before.ledger), data)
    requires OpenedIds(RecordsIn(before.ledger)) <= ids && (data.Opened? ==> data.grantId in ids)
    ensures SafeIfAccepted(d, ids)
  {
    if Accepted(d) {
      var records := RecordsIn(before.ledger);
      CrashLeavesOldNewOrNothing(before, data, d, RecordsIn(d.ledger));
      ExtendChained(records, data);
      if FitsAfter(data, OpenedIds(records)) { ExtendSafe(records, data); }
      OpenedIdsOfLast(records, Extended(records, data)[|records|]);
    }
  }

  lemma AppendKeepsEverSafe(history: seq<Files>, log: seq<Files>, before: Files, data: RecordData, ids: set<string>)
    requires history <= log && EverSafe(history, ids) && CrashLog(log, |history|, before, data)
    requires SafeLedger(before)
    requires FitsAfter(data, OpenedIds(RecordsIn(before.ledger))) ==> SafeStep(RecordsIn(before.ledger), data)
    requires OpenedIds(RecordsIn(before.ledger)) <= ids && (data.Opened? ==> data.grantId in ids)
    ensures EverSafe(log, ids)
  {
    forall k | 0 <= k < |log| ensures SafeIfAccepted(log[k], ids) {
      if k < |history| {
        assert history[k] == log[k];
      } else {
        CrashStateIsSafe(before, data, log[k], ids);
      }
    }
  }

  lemma EverSafeWidens(log: seq<Files>, ids: set<string>, more: set<string>)
    requires EverSafe(log, ids) && ids <= more
    ensures EverSafe(log, more)
  {
    forall k | 0 <= k < |log| ensures SafeIfAccepted(log[k], more) {
      assert SafeIfAccepted(log[k], ids);
    }
  }

  /** A stop right after the record was written is recovered exactly when it was the first record of a new ledger, or
      the checkpoint named the last record before it: a second stop in a row, or one on an empty file, is not. */
  lemma LagIsOneRecord(before: Files, data: RecordData)
    requires Accepted(before) && FitsAfter(data, OpenedIds(RecordsIn(before.ledger)))
    ensures Accepted(before.(ledger := WithLine(before.ledger, data)))
        <==> before.ledger == None || (RecordsIn(before.ledger) != [] && Current(RecordsIn(before.ledger), before.head))
  {
    var records := RecordsIn(before.ledger);
    WithLineRecords(before.ledger, data);
    ExtendChained(records, data);
    var more := Extended(records, data);
    assert Behind(more, before.head) <==>
             before.head == (if records == [] then None else Some(Checkpoint(HashBefore(records, |records|), |records|)));
  }

  class EmergencyStore {
    var ledger: Option<LedgerText>
    var head: Option<Checkpoint>
    var log: seq<Files>

    function Now(): Files
      reads this
    {
      Files(ledger, head)
    }

    constructor ()
      ensures Now() == Files(None, None) && log == [Now()] && Ready({})
    {
      ledger, head := None, None;
      log := [Files(None, None)];
    }

    /** `verifyEmergency`. */
    method VerifyEmergency() returns (v: Verdict)
      ensures v.Verified? <==> Accepted(Now())
      ensures v.Verified? ==> v.records == RecordsIn(ledger)
      ensures v.Verified? && ledger.Some? ==> (v.behind <==> !Current(v.records, head))
    {
      if ledger == None {
        if head.Some? { return Invalid; }
        return Verified([], false);
      }
      var text := ledger.value;
      if text.torn { return Invalid; }
      var records: seq<LedgerRecord> := [];
      var previous := Zero;
      var grants: set<string> := {};
      for i := 0 to |text.lines|
        invariant AllRecords(text.lines[..i]) && records == RecordsOf(text.lines[..i])
        invariant Chained(records) && previous == HashBefore(records, i) && grants == OpenedIds(records)
      {
        if text.lines[i].BadLine? { return Invalid; }
        var record := text.lines[i].record;
        OneMoreRecord(text.lines, i);
        if !SchemaOk(record.data) { return Invalid; }
        if record.prevHash != previous || record.hash != Sha(Core(record.data, record.prevHash)) { return Invalid; }
        if record.data.Opened? {
          if !LifetimeOk(record.data.openedAt, record.data.expiresAt) || record.data.grantId in grants { return Invalid; }
          if record.data.supersedes.Some? && record.data.supersedes.value !in grants { return Invalid; }
          grants := grants + {record.data.grantId};
        } else if record.data.grantId !in grants {
          return Invalid;
        }
        previous := record.hash;
        records := records + [record];
      }
      assert text.lines[..|text.lines|] == text.lines;
      if head == Some(Checkpoint(previous, |records|)) { return Verified(records, false); }
      var behind := |records| - 1;
      if records != [] && head == if behind == 0 then None else Some(Checkpoint(records[behind - 1].hash, behind)) {
        return Verified(records, true);
      }
      v := Invalid;
    }

    ghost predicate Valid()
      reads this
    {
      log != [] && log[|log| - 1] == Now()
    }

    /** The ledger is opened for append, the line is written, the checkpoint is renamed into place. */
    method Persist(entry: LedgerRecord, count: int, ghost data: RecordData)
      requires Valid() && Accepted(Now())
      requires count == |RecordsIn(ledger)| + 1 && entry == Extended(RecordsIn(ledger), data)[count - 1]
      modifies this
      ensures Valid() && old(log) <= log && CrashLog(log, |old(log)|, old(Now()), data)
      ensures Now() == Files(WithLine(old(ledger), data), Some(Checkpoint(entry.hash, count)))
      ensures log == old(log)
                + (if old(ledger) == None then [Files(Some(LedgerText([], false)), old(head))] else [])
                + [Files(Some(LedgerText(LinesIn(old(ledger)), true)), old(head)),
                   Files(Some(LedgerText(LinesIn(old(ledger)) + [Line(entry)], false)), old(head)), Now()]
    {
      var lines := LinesIn(ledger);
      if ledger == None {
        ledger := Some(LedgerText([], false));
        log := log + [Now()];
      }
      ledger := Some(LedgerText(lines, true));
      log := log + [Now()];
      ledger := Some(LedgerText(lines + [Line(entry)], false));
      log := log + [Now()];
      head := Some(Checkpoint(entry.hash, count));
      log := log + [Now()];
    }

    /** The process stops: the next one finds an earlier state of the disk. */
    method Stop(at: nat)
      requires Valid() && at < |log|
      modifies this
      ensures Valid() && Now() == old(log)[at] && log == old(log)[..at + 1]
    {
      ledger, head := log[at].ledger, log[at].head;
      log := log[..at + 1];
    }

    /** `appendUnlocked`. Only the schema of the new record is checked: after it the ledger verifies exactly when the
        record also fits the grants before it. */
    method AppendUnlocked(data: RecordData) returns (r: Result<LedgerRecord, Error>)
      requires Valid()
      modifies this
      ensures Valid() && old(log) <= log && CrashLog(log, |old(log)|, old(Now()), data)
      ensures r.Ok? <==> SchemaOk(data) && old(Accepted(Now()))
      ensures r.Err? ==> Now() == old(Now()) && log == old(log)
      ensures r.Err? ==> r.error == if SchemaOk(data) then LedgerInvalid else InvalidRequest
      ensures r.Ok? ==>
                && RecordsIn(ledger) == Extended(old(RecordsIn(ledger)), data)
                && (Accepted(Now()) <==> FitsAfter(data, OpenedIds(old(RecordsIn(ledger)))))
    {
      if !SchemaOk(data) { return Err(InvalidRequest); }
      var before := VerifyEmergency();
      if before.Invalid? { return Err(LedgerInvalid); }
      var core := Core(data, HashBefore(before.records, |before.records|));
      var entry := LedgerRecord(data, core.prevHash, Sha(core));
      WrittenIsAccepted(Now(), data);
      Persist(entry, |before.records| + 1, data);
      r := Ok(entry);
    }

    /** `openGrants`. */
    static method FoldOpenGrants(records: seq<LedgerRecord>) returns (open: seq<Grant>)
      ensures open == OpenGrants(records)
    {
      open := [];
      for i := 0 to |records|
        invariant open == OpenGrants(records[..i])
      {
        assert records[..i + 1][..i] == records[..i];
        var data := records[i].data;
        if data.Opened? { open := SetGrant(open, data); }
        if data.Closed? { open := DropGrant(open, data.grantId); }
      }
      assert records[..|records|] == records;
    }

    method CloseIfExpired(open: seq<Grant>, i: nat, now: int, ghost first: seq<LedgerRecord>, ghost sound: bool, ghost ids: set<string>)
      requires Valid() && Accepted(Now()) && i < |open| && OneEach(open)
      requires IdentifierOk(open[i].grantId) && open[i].grantId in OpenedIds(RecordsIn(ledger))
      requires OnlyCloses(first, RecordsIn(ledger), now)
      requires sound ==> Ready(ids) && StillOpen(OpenGrants(RecordsIn(ledger)), open, i, now)
      modifies this
      ensures Valid() && old(log) <= log && Accepted(Now())
      ensures OnlyCloses(first, RecordsIn(ledger), now)
      ensures sound ==> Ready(ids) && StillOpen(OpenGrants(RecordsIn(ledger)), open, i + 1, now)
    {
      ghost var before, history, records := Now(), log, RecordsIn(ledger);
      if open[i].expiresAt <= now {
        OnlyClosesMore(first, records, open[i].grantId, now);
        var closed := AppendUnlocked(Closed(open[i].grantId, now, Expired));
        if sound {
          CloseOne(records, open, i, now);
          AppendKeepsEverSafe(history, log, before, Closed(open[i].grantId, now, Expired), ids);
        }
      } else if sound {
        KeepOne(records, open, i, now);
      }
    }

    /** Closes every open grant that has expired, as `evaluateEmergency` and `openEmergency` do. */
    method CloseExpired(now: int, ghost ids: set<string>) returns (failed: Option<Error>)
      requires Valid()
      modifies this
      ensures Valid() && old(log) <= log
      ensures failed == None <==> old(Accepted(Now()))
      ensures failed == None ==> Accepted(Now())
      ensures failed.Some? ==> Now() == old(Now()) && log == old(log)
      ensures old(Ready(ids)) ==> Ready(ids) && ExpiredClosed(old(RecordsIn(ledger)), RecordsIn(ledger), now)
    {
      var v := VerifyEmergency();
      if v.Invalid? { return Some(LedgerInvalid); }
      var open := FoldOpenGrants(v.records);
      ghost var sound := Ready(ids);
      ClosableGrants(v.records);
      OpenGrantsMeaning(v.records);
      for i := 0 to |open|
        invariant Valid() && old(log) <= log && Accepted(Now())
        invariant OnlyCloses(v.records, RecordsIn(ledger), now)
        invariant sound ==> Ready(ids) && StillOpen(OpenGrants(RecordsIn(ledger)), open, i, now)
      {
        CloseIfExpired(open, i, now, v.records, sound, ids);
      }
      if sound { AllClosed(RecordsIn(ledger), open, now); }
      failed := None;
    }

    /** A safe run on disk, whatever stops came before. */
    ghost predicate Ready(ids: set<string>)
      reads this
    {
      Valid() && SafeLedger(Now()) && OpenedIds(RecordsIn(ledger)) <= ids && EverSafe(log, ids)
    }

    /** `evaluateEmergency`: the provider's grant in force, once the expired ones are closed. */
    method EvaluateEmergency(provider: Provider, now: int, execute: bool, ghost ids: set<string>)
      returns (grant: Option<Grant>, valid: bool)
      requires Valid()
      modifies this
      ensures Valid() && old(log) <= log
      ensures valid <==> old(Accepted(Now()))
      ensures !valid ==> grant == None
      ensures !valid || !execute ==> Now() == old(Now()) && log == old(log)
      ensures old(Ready(ids)) ==> Ready(ids) && InForce(old(OpenGrants(RecordsIn(ledger))), provider, now, grant)
      ensures old(Ready(ids)) && execute ==> ExpiredClosed(old(RecordsIn(ledger)), RecordsIn(ledger), now)
    {
      var v := VerifyEmergency();
      if v.Invalid? { return None, false; }
      ghost var before := OpenGrants(v.records);
      OpenGrantsMeaning(v.records);
      var open := FoldOpenGrants(v.records);
      if execute {
        if exists g: Grant | g in open :: g.expiresAt <= now {
          var failed := CloseExpired(now, ids);
          v := VerifyEmergency();
        }
      }
      open := FoldOpenGrants(v.records);
      OpenGrantsMeaning(v.records);
      FoundIsInForce(open, provider, now);
      grant, valid := FindGrant(open, provider, Some(now)), true;
    }

    /** The writes of `openEmergency`. */
    method ReplaceGrant(record: RecordData, now: int, ghost prior: Option<Grant>, ghost ids: set<string>)
      returns (entry: Result<LedgerRecord, Error>)
      requires Valid() && Accepted(Now())
      requires record.Opened? && LifetimeOk(record.openedAt, record.expiresAt)
      requires Replaces(OpenGrants(RecordsIn(ledger)), now, prior, record)
      modifies this
      ensures Valid() && old(log) <= log
      ensures entry.Ok? <==> SchemaOk(record)
      ensures entry.Err? ==> entry.error == InvalidRequest
      ensures old(Ready(ids)) ==> EverSafe(log, ids + {record.grantId})
      ensures old(Ready(ids)) && entry.Err? ==>
                Ready(ids + {record.grantId}) && ExpiredClosed(old(RecordsIn(ledger)), RecordsIn(ledger), now)
      ensures old(Ready(ids)) && entry.Ok? ==>
                && OpenedNow(old(RecordsIn(ledger)), RecordsIn(ledger), now, record)
                && (Accepted(Now()) <==> record.grantId !in OpenedIds(old(RecordsIn(ledger))))
                && (record.grantId !in OpenedIds(old(RecordsIn(ledger))) ==> Ready(ids + {record.grantId}))
    {
      ghost var sound, first := Ready(ids), RecordsIn(ledger);
      var failed := CloseExpired(now, ids);
      ghost var middle, before, history := RecordsIn(ledger), Now(), log;
      entry := AppendUnlocked(record);
      if sound {
        OpeningFits(first, middle, now, prior, record);
        EverSafeWidens(history, ids, ids + {record.grantId});
        AppendKeepsEverSafe(history, log, before, record, ids + {record.grantId});
        if entry.Ok? {
          OpeningDelta(first, middle, now, record);
          if record.grantId !in OpenedIds(first) { ExtendSafe(middle, record); }
          OpenedIdsOfLast(middle, Extended(middle, record)[|middle|]);
        }
      }
    }

    /** `openEmergency`. The record is built before the expired grants are closed. A grant id that was used before is
        not refused: the record is written, and the ledger no longer verifies. */
    method OpenEmergency(provider: Provider, fieldsOk: bool, openedByOk: bool, grantId: string, until: int, now: int, execute: bool,
                         ghost ids: set<string>)
      returns (r: Result<RecordData, Error>)
      requires Valid()
      modifies this
      ensures Valid() && old(log) <= log
      ensures !execute || !old(Accepted(Now())) ==> Now() == old(Now()) && log == old(log)
      ensures old(Ready(ids)) ==> EverSafe(log, ids + {grantId})
      ensures old(Ready(ids)) ==>
                Answers(old(OpenGrants(RecordsIn(ledger))), Opening(provider, fieldsOk, openedByOk, grantId, until, now, execute), r)
      ensures old(Ready(ids)) && !(r.Ok? && execute) ==>
                && Ready(ids + {grantId})
                && (RecordsIn(ledger) == old(RecordsIn(ledger)) || ExpiredClosed(old(RecordsIn(ledger)), RecordsIn(ledger), now))
      ensures old(Ready(ids)) && r.Ok? && execute ==>
                && OpenedNow(old(RecordsIn(ledger)), RecordsIn(ledger), now, r.value)
                && (Accepted(Now()) <==> grantId !in OpenedIds(old(RecordsIn(ledger))))
                && (grantId !in OpenedIds(old(RecordsIn(ledger))) ==> Ready(ids + {grantId}))
    {
      if !fieldsOk || !LifetimeOk(now, until) { return Err(InvalidRequest); }
      var v := VerifyEmergency();
      if v.Invalid? { return Err(LedgerInvalid); }
      var open := FoldOpenGrants(v.records);
      var prior := FindGrant(open, provider, Some(now));
      OpenGrantsMeaning(v.records);
      FoundIsInForce(open, provider, now);
      HeldOrNone(open, Opening(provider, fieldsOk, openedByOk, grantId, until, now, execute), prior);
      if prior.Some? && until <= prior.value.expiresAt { return Err(MustExtend); }
      var record := Opened(grantId, provider, now, until, if prior.Some? then Some(prior.value.grantId) else None, openedByOk);
      ClosableGrants(v.records);
      if !execute { return Ok(record); }
      var entry := ReplaceGrant(record, now, prior, ids);
      r := if entry.Ok? then Ok(record) else Err(entry.error);
    }

    /** `closeEmergency`: the provider's open grant, expired or not, is closed; with none open nothing is written. */
    method CloseEmergency(provider: Provider, reasonOk: bool, reason: CloseReason, now: int, execute: bool, ghost ids: set<string>)
      returns (r: Result<Option<RecordData>, Error>)
      requires Valid()
      modifies this
      ensures Valid() && old(log) <= log
      ensures old(Ready(ids)) ==> Ready(ids)
      ensures r.Err? || r.value == None || !execute ==> Now() == old(Now()) && log == old(log)
      ensures !old(Accepted(Now())) ==> r.Err?
      ensures old(Ready(ids)) ==> (r.Err? <==> !reasonOk)
      ensures old(Ready(ids)) && r == Ok(None) ==> forall g: Grant | g in OpenGrants(old(RecordsIn(ledger))) :: g.provider != provider
      ensures old(Ready(ids)) && r.Ok? && r.value.Some? ==>
                exists g: Grant :: && g in OpenGrants(old(RecordsIn(ledger))) && g.provider == provider
                                   && r.value.value == Closed(g.grantId, now, reason)
      ensures old(Ready(ids)) && r.Ok? && r.value.Some? && execute ==>
                && RecordsIn(ledger) == Extended(old(RecordsIn(ledger)), r.value.value)
                && forall h: Grant ::
                     h in OpenGrants(RecordsIn(ledger)) <==> h in OpenGrants(old(RecordsIn(ledger))) && h.provider != provider
    {
      if !reasonOk { return Err(InvalidRequest); }
      var v := VerifyEmergency();
      if v.Invalid? { return Err(LedgerInvalid); }
      var open := FoldOpenGrants(v.records);
      var grant := FindGrant(open, provider, None);
      FoundIsOpen(open, provider);
      if grant == None { return Ok(None); }
      var record := Closed(grant.value.grantId, now, reason);
      r := Ok(Some(record));
      if execute {
        ghost var before, history, sound := Now(), log, Ready(ids);
        ClosableGrants(v.records);
        var entry := AppendUnlocked(record);
        if sound {
          ExtendSafe(v.records, record);
          AppendKeepsEverSafe(history, log, before, record, ids);
          CloseDrops(v.records, grant.value, record);
        }
      }
    }

    /** `emergencyUse`: `now` and `at` are the two times it reads the clock. */
    method EmergencyUse(grantId: Option<string>, now: int, at: int, plain: bool, ghost ids: set<string>) returns (failed: Option<Error>)
      requires Valid()
      modifies this
      ensures Valid() && old(log) <= log
      ensures old(Ready(ids)) ==> Ready(ids)
      ensures failed.Some? || grantId == None ==> Now() == old(Now()) && log == old(log)
      ensures !old(Accepted(Now())) && grantId.Some? ==> failed.Some?
      ensures old(Ready(ids)) && grantId.Some? ==>
                && (failed != Some(NoLongerActive) <==>
                      exists g: Grant :: g in OpenGrants(old(RecordsIn(ledger))) && g.grantId == grantId.value && now < g.expiresAt)
                && (failed != Some(NoLongerActive) ==> failed == if plain then None else Some(InvalidRequest))
      ensures grantId.Some? && failed == None ==>
                && RecordsIn(ledger) == Extended(old(RecordsIn(ledger)), Used(grantId.value, at, plain))
                && OpenGrants(RecordsIn(ledger)) == OpenGrants(old(RecordsIn(ledger)))
    {
      if grantId == None { return None; }
      var v := VerifyEmergency();
      if v.Invalid? { return Some(LedgerInvalid); }
      var open := FoldOpenGrants(v.records);
      if !IsActive(open, grantId.value, now) { return Some(NoLongerActive); }
      ghost var before, history, sound := Now(), log, Ready(ids);
      var record := Used(grantId.value, at, plain);
      ClosableGrants(v.records);
      var entry := AppendUnlocked(record);
      if entry.Err? { return Some(entry.error); }
      if sound {
        ExtendSafe(v.records, record);
        AppendKeepsEverSafe(history, log, before, record, ids);
      }
      OpenAfterUse(v.records, record);
      failed := None;
    }
  }

  /** The grants that remain once the expired ones among the first i have been closed. */
  ghost predicate StillOpen(current: seq<Grant>, open: seq<Grant>, i: nat, now: int)
    requires i <= |open|
  {
    forall g: Grant :: g in current <==> g in open && !(g.expiresAt <= now && g in open[..i])
  }

  /** Of the open grants, exactly those that have not expired. */
  ghost predicate OnlyUnexpired(before: seq<Grant>, after: seq<Grant>, now: int) {
    forall g: Grant :: g in after <==> g in before && now < g.expiresAt
  }

  lemma KeepOne(records: seq<LedgerRecord>, open: seq<Grant>, i: nat, now: int)
    requires i < |open| && StillOpen(OpenGrants(records), open, i, now) && now < open[i].expiresAt
    ensures StillOpen(OpenGrants(records), open, i + 1, now)
  {
    assert open[..i + 1] == open[..i] + [open[i]];
  }

  lemma AllClosed(records: seq<LedgerRecord>, open: seq<Grant>, now: int)
    requires StillOpen(OpenGrants(records), open, |open|, now)
    ensures OnlyUnexpired(open, OpenGrants(records), now)
  {
    assert open[..|open|] == open;
  }

  lemma ClosableGrants(records: seq<LedgerRecord>)
    requires Chained(records)
    ensures forall g: Grant | g in OpenGrants(records) :: IdentifierOk(g.grantId) && g.grantId in OpenedIds(records)
  {
    forall g: Grant | g in OpenGrants(records) ensures IdentifierOk(g.grantId) && g.grantId in OpenedIds(records) {
      OpenFits(records, g);
    }
  }

  lemma DropKeepsStillOpen(current: seq<Grant>, open: seq<Grant>, i: nat, now: int)
    requires i < |open| && OneEach(current) && StillOpen(current, open, i, now) && open[i].expiresAt <= now
    requires forall h: Grant | h in current && h.grantId == open[i].grantId :: h == open[i]
    ensures StillOpen(DropGrant(current, open[i].grantId), open, i + 1, now)
  {
    DropGrantMeaning(current, open[i].grantId);
    assert open[..i + 1] == open[..i] + [open[i]];
  }

  lemma StillToClose(open: seq<Grant>, current: seq<Grant>, i: nat, now: int)
    requires i < |open| && OneEach(open) && StillOpen(current, open, i, now)
    ensures open[i] in current
  {
  }

  lemma CloseOne(records: seq<LedgerRecord>, open: seq<Grant>, i: nat, now: int)
    requires Safe(records) && i < |open| && OneEach(open) && StillOpen(OpenGrants(records), open, i, now)
    requires open[i].expiresAt <= now
    ensures var data := Closed(open[i].grantId, now, Expired);
            && FitsAfter(data, OpenedIds(records)) && SafeStep(records, data)
            && Safe(Extended(records, data)) && StillOpen(OpenGrants(Extended(records, data)), open, i + 1, now)
  {
    StillToClose(open, OpenGrants(records), i, now);
    OpenFits(records, open[i]);
    var data := Closed(open[i].grantId, now, Expired);
    ExtendSafe(records, data);
    OpenGrantsMeaning(records);
    forall h: Grant | h in OpenGrants(records) && h.grantId == open[i].grantId ensures h == open[i] {
      OpenIdsUnique(records, open[i], h);
    }
    DropKeepsStillOpen(OpenGrants(records), open, i, now);
  }

  /** Nothing but closings of expired grants was added. */
  ghost predicate OnlyCloses(before: seq<LedgerRecord>, after: seq<LedgerRecord>, now: int) {
    && before <= after && OpenedIds(after) == OpenedIds(before)
    && forall i | |before| <= i < |after| :: after[i].data == Closed(after[i].data.grantId, now, Expired)
  }

  lemma OnlyClosesMore(before: seq<LedgerRecord>, after: seq<LedgerRecord>, grantId: string, now: int)
    requires OnlyCloses(before, after, now)
    ensures OnlyCloses(before, Extended(after, Closed(grantId, now, Expired)), now)
  {
    OpenedIdsOfLast(after, Extended(after, Closed(grantId, now, Expired))[|after|]);
  }

  /** Every expired grant was closed, and nothing else was done. */
  ghost predicate ExpiredClosed(before: seq<LedgerRecord>, after: seq<LedgerRecord>, now: int) {
    OnlyCloses(before, after, now) && OnlyUnexpired(OpenGrants(before), OpenGrants(after), now)
  }

  /** Every expired grant was closed, and then the grant was opened, in place of the provider's grant in force. */
  ghost predicate OpenedNow(before: seq<LedgerRecord>, after: seq<LedgerRecord>, now: int, grant: RecordData) {
    && |before| < |after|
    && ExpiredClosed(before, after[..|after| - 1], now)
    && after == Extended(after[..|after| - 1], grant)
    && grant.Opened?
    && forall g: Grant :: g in OpenGrants(after) <==>
         g == grant || (g in OpenGrants(before) && now < g.expiresAt && g.provider != grant.provider)
  }

  /** The record names the provider's grant in force, and extends it. */
  ghost predicate Replaces(open: seq<Grant>, now: int, prior: Option<Grant>, record: RecordData) {
    && record.Opened? && InForce(open, record.provider, now, prior)
    && record.supersedes == (if prior.Some? then Some(prior.value.grantId) else None)
    && (prior.Some? ==> prior.value.expiresAt < record.expiresAt)
  }

  lemma OpeningFits(before: seq<LedgerRecord>, middle: seq<LedgerRecord>, now: int, prior: Option<Grant>, record: RecordData)
    requires Chained(before) && Safe(middle) && ExpiredClosed(before, middle, now) && Replaces(OpenGrants(before), now, prior, record)
    requires LifetimeOk(record.openedAt, record.expiresAt)
    ensures SafeStep(middle, record)
    ensures SchemaOk(record) ==> (FitsAfter(record, OpenedIds(middle)) <==> record.grantId !in OpenedIds(before))
  {
    if prior.Some? {
      assert prior.value in OpenGrants(before);
      assert prior.value in OpenGrants(middle);
      OpenFits(middle, prior.value);
    } else {
      forall g: Grant | g in OpenGrants(middle) ensures g.provider != record.provider {
        assert g in OpenGrants(before) && now < g.expiresAt;
      }
    }
  }

  lemma OpeningDelta(before: seq<LedgerRecord>, middle: seq<LedgerRecord>, now: int, record: RecordData)
    requires ExpiredClosed(before, middle, now) && record.Opened?
    ensures OpenedNow(before, Extended(middle, record), now, record)
  {
    var after := Extended(middle, record);
    assert after[..|middle|] == middle;
    OpenGrantsMeaning(middle);
    SetGrantMeaning(OpenGrants(middle), record);
  }

  lemma CloseDrops(records: seq<LedgerRecord>, grant: Grant, record: RecordData)
    requires Chained(records) && grant in OpenGrants(records) && record.Closed? && record.grantId == grant.grantId
    ensures forall h: Grant :: h in OpenGrants(Extended(records, record)) <==> h in OpenGrants(records) && h.provider != grant.provider
  {
    var open := OpenGrants(records);
    OpenGrantsMeaning(records);
    DropGrantMeaning(open, grant.grantId);
    assert Extended(records, record)[..|records|] == records;
    forall h: Grant | h in open ensures h.grantId == grant.grantId <==> h.provider == grant.provider {
      if h.grantId == grant.grantId { OpenIdsUnique(records, h, grant); }
    }
  }

  lemma OpenAfterUse(records: seq<LedgerRecord>, record: RecordData)
    requires record.Used?
    ensures OpenGrants(Extended(records, record)) == OpenGrants(records)
  {
    assert Extended(records, record)[..|records|] == records;
  }

  /** The checks `verifyEmergency` makes on one record, given the ones before it. */
  predicate RecordOk(records: seq<LedgerRecord>, record: LedgerRecord) {
    && record.prevHash == HashBefore(records, |records|) && record.hash == Sha(Core(record.data, record.prevHash))
    && FitsAfter(record.data, OpenedIds(records))
  }

  lemma ChainedWithLast(records: seq<LedgerRecord>, record: LedgerRecord)
    requires Chained(records)
    ensures Chained(records + [record]) <==> RecordOk(records, record)
  {
    var more := records + [record];
    assert more[..|records|] == records;
    forall j | 0 <= j < |records| ensures LinkedAt(more, j) {
      assert LinkedAt(records, j) && more[..j] == records[..j];
    }
    assert LinkedAt(more, |records|) <==> RecordOk(records, record);
  }

  lemma BrokenRecordBreaks(all: seq<LedgerRecord>, i: nat)
    requires i < |all| && !RecordOk(all[..i], all[i])
    ensures !Chained(all)
  {
    assert !LinkedAt(all, i);
  }

  lemma OneMoreRecord(lines: seq<Line>, i: nat)
    requires i < |lines| && AllRecords(lines[..i]) && lines[i].Line? && Chained(RecordsOf(lines[..i]))
    ensures var records := RecordsOf(lines[..i]);
            var record := lines[i].record;
            && AllRecords(lines[..i + 1]) && RecordsOf(lines[..i + 1]) == records + [record]
            && (RecordOk(records, record) <==> Chained(records + [record]))
            && (!RecordOk(records, record) && AllRecords(lines) ==> !Chained(RecordsOf(lines)))
            && OpenedIds(records + [record]) == OpenedIds(records) + if record.data.Opened? then {record.data.grantId} else {}
  {
    var records := RecordsOf(lines[..i]);
    var record := lines[i].record;
    ChainedWithLast(records, record);
    OpenedIdsOfLast(records, record);
    if AllRecords(lines) && !RecordOk(records, record) {
      assert RecordsOf(lines)[..i] == records;
      BrokenRecordBreaks(RecordsOf(lines), i);
    }
  }

  lemma OpenedIdsOfLast(records: seq<LedgerRecord>, record: LedgerRecord)
    ensures OpenedIds(records + [record]) == OpenedIds(records) + if record.data.Opened? then {record.data.grantId} else {}
  {
    var more := records + [record];
    forall j | 0 <= j < |records| && records[j].data.Opened? ensures records[j].data.grantId in OpenedIds(more) {
      assert more[j] == records[j];
    }
    if record.data.Opened? { assert more[|records|] == record; }
  }

  // ---- inputs that fail ----

  function ExampleGrant(grantId: string): RecordData {
    Opened(grantId, Codex, 0, 1, None, true)
  }

  /** A ledger of one grant. */
  function ExampleFiles(): Files {
    var records := Extended([], ExampleGrant("g"));
    Files(Some(LedgerText([Line(records[0])], false)), Some(Checkpoint(records[0].hash, 1)))
  }

  lemma ExampleIsAccepted()
    ensures Accepted(ExampleFiles()) && RecordsIn(ExampleFiles().ledger) == Extended([], ExampleGrant("g"))
    ensures OpenedIds(RecordsIn(ExampleFiles().ledger)) == {"g"}
  {
    var records := Extended([], ExampleGrant("g"));
    assert Chained([]);
    ExtendChained([], ExampleGrant("g"));
    OpenedIdsOfLast([], records[0]);
    assert OpenedIds([]) == {};
    assert RecordsIn(ExampleFiles().ledger) == records;
  }

  /** The grant "g", opened, closed and opened once more: the last record is written, and the ledger no longer verifies. */
  lemma ReusedIdExample()
    ensures var closed := Files(WithLine(ExampleFiles().ledger, Closed("g", 1, Manual)), Some(Checkpoint(ClosedExample()[1].hash, 2)));
            var again := Files(WithLine(closed.ledger, ExampleGrant("g")), Some(Checkpoint(AgainExample()[2].hash, 3)));
            Accepted(closed) && SafeStep(RecordsIn(closed.ledger), ExampleGrant("g")) && !Accepted(again)
  {
    ExampleIsAccepted();
    var before := ExampleFiles();
    var closing := Closed("g", 1, Manual);
    WrittenIsAccepted(before, closing);
    var closed := Files(WithLine(before.ledger, closing), Some(Checkpoint(ClosedExample()[1].hash, 2)));
    assert Accepted(closed);
    OpenedIdsOfLast(RecordsIn(before.ledger), ClosedExample()[1]);
    assert ClosedExample()[..1] == Extended([], ExampleGrant("g")) && ClosedExample()[..1][..0] == [];
    ClosedLeavesNone();
    WrittenIsAccepted(closed, ExampleGrant("g"));
  }

  lemma ClosedLeavesNone()
    ensures OpenGrants(ClosedExample()) == []
  {
    var one, grant := Extended([], ExampleGrant("g")), ExampleGrant("g");
    assert one[..0] == [] && OpenGrants(one) == SetGrant([], grant) == [grant];
    assert ClosedExample()[..1] == one;
    assert [grant][1..] == [] && DropGrant([grant], "g") == [];
  }

  function ClosedExample(): seq<LedgerRecord> {
    Extended(Extended([], ExampleGrant("g")), Closed("g", 1, Manual))
  }

  function AgainExample(): seq<LedgerRecord> {
    Extended(ClosedExample(), ExampleGrant("g"))
  }

  /** Two stops in a row, each right after the record was written: the ledger verifies after the first, and not after the
      second. */
  lemma SecondStopExample()
    ensures var once := ExampleFiles().(ledger := WithLine(ExampleFiles().ledger, Used("g", 0, true)));
            var twice := once.(ledger := WithLine(once.ledger, Used("g", 0, true)));
            Accepted(ExampleFiles()) && Accepted(once) && !Accepted(twice)
  {
    ExampleIsAccepted();
    var before, use := ExampleFiles(), Used("g", 0, true);
    var once := before.(ledger := WithLine(before.ledger, use));
    LagIsOneRecord(before, use);
    WithLineRecords(before.ledger, use);
    OpenedIdsOfLast(RecordsIn(before.ledger), RecordsIn(once.ledger)[1]);
    LagIsOneRecord(once, use);
  }
}
