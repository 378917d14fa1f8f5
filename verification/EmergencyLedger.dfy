/** The emergency grant ledger of `src/emergency.mts`: a second hash chain, with a checkpoint that may lag one
    record behind, and the grants it opens and closes. */
module EmergencyLedger {
  import opened Wrappers

  datatype Provider = Codex | ClaudeCode

  datatype CloseReason = Expired | PrimaryRestored | Manual

  /** A record without its hashes. `plain` is the outcome of the schema checks on the fields not kept here; times
      are milliseconds. */
  datatype RecordData =
    | Opened(grantId: string, provider: Provider, openedAt: int, expiresAt: int, supersedes: Option<string>, plain: bool)
    | Closed(grantId: string, closedAt: int, reason: CloseReason)
    | Used(grantId: string, at: int, plain: bool)

  type Grant = r: RecordData | r.Opened? witness Opened("", Codex, 0, 0, None, true)

  datatype Hash = Zero | Sha(core: Core) | OtherHash(code: nat)

  datatype Core = Core(data: RecordData, prevHash: Hash)

  datatype LedgerRecord = LedgerRecord(data: RecordData, prevHash: Hash, hash: Hash)

  /** A non-empty line of the ledger: not a record at all, or one that parses. */
  datatype Line = BadLine | Line(record: LedgerRecord)

  /** `torn` says that the text does not end in a newline. */
  datatype LedgerText = LedgerText(lines: seq<Line>, torn: bool)

  datatype Checkpoint = BadCheckpoint | Checkpoint(hash: Hash, records: int)

  const MAX_LIFETIME_MS: int := (7 * 24 + 1) * 3600000

  // ---- the chain of records ----

  predicate IdentifierOk(id: string) {
    1 <= |id| <= 200
  }

  predicate SchemaOk(data: RecordData) {
    && IdentifierOk(data.grantId)
    && (data.Opened? ==> data.plain && (data.supersedes.Some? ==> IdentifierOk(data.supersedes.value)))
    && (data.Used? ==> data.plain)
  }

  /** `validateOpen`: it expires after it opens, and lives at most 7 days and 1 hour. */
  predicate LifetimeOk(openedAt: int, expiresAt: int) {
    openedAt < expiresAt && expiresAt - openedAt <= MAX_LIFETIME_MS
  }

  function OpenedIds(records: seq<LedgerRecord>): set<string> {
    set i | 0 <= i < |records| && records[i].data.Opened? :: records[i].data.grantId
  }

  /** What a record may say, given the grants opened before it. */
  predicate FitsAfter(data: RecordData, known: set<string>) {
    && SchemaOk(data)
    && match data {
      case Opened(grantId, _, openedAt, expiresAt, supersedes, _) =>
        LifetimeOk(openedAt, expiresAt) && grantId !in known && (supersedes.Some? ==> supersedes.value in known)
      case _ => data.grantId in known
    }
  }

  function HashBefore(records: seq<LedgerRecord>, i: nat): Hash
    requires i <= |records|
  {
    if i == 0 then Zero else records[i - 1].hash
  }

  predicate LinkedAt(records: seq<LedgerRecord>, i: nat)
    requires i < |records|
  {
    && records[i].prevHash == HashBefore(records, i)
    && records[i].hash == Sha(Core(records[i].data, records[i].prevHash))
    && FitsAfter(records[i].data, OpenedIds(records[..i]))
  }

  predicate Chained(records: seq<LedgerRecord>) {
    forall i | 0 <= i < |records| :: LinkedAt(records, i)
  }

  /** The checkpoint names the last record, or, after a stop between the append and the checkpoint, the one before. */
  predicate Current(records: seq<LedgerRecord>, head: Option<Checkpoint>) {
    head == Some(Checkpoint(HashBefore(records, |records|), |records|))
  }

  predicate Behind(records: seq<LedgerRecord>, head: Option<Checkpoint>) {
    records != [] &&
    var n := |records| - 1;
    head == if n == 0 then None else Some(Checkpoint(records[n - 1].hash, n))
  }

  predicate AllRecords(lines: seq<Line>) {
    forall i | 0 <= i < |lines| :: lines[i].Line?
  }

  function RecordsOf(lines: seq<Line>): seq<LedgerRecord>
    requires AllRecords(lines)
  {
    seq(|lines|, i requires 0 <= i < |lines| => lines[i].record)
  }

  /** What `verifyEmergency` accepts, and the records it then returns. */
  predicate Verifies(ledger: Option<LedgerText>, head: Option<Checkpoint>, records: seq<LedgerRecord>) {
    match ledger
    case None => head == None && records == []
    case Some(text) =>
      && !text.torn && AllRecords(text.lines) && records == RecordsOf(text.lines) && Chained(records)
      && (Current(records, head) || Behind(records, head))
  }

  // ---- the checkpoint commits to the past ----

  /** Backwards along the links: records with one hash have one past. */
  lemma {:induction false} HashDeterminesPast(a: seq<LedgerRecord>, b: seq<LedgerRecord>, m: nat, n: nat)
    requires Chained(a) && Chained(b) && m <= |a| && n <= |b| && HashBefore(a, m) == HashBefore(b, n)
    ensures m == n && forall i | 0 <= i < m :: a[i] == b[i]
    decreases m
  {
    if m > 0 { assert LinkedAt(a, m - 1); }
    if n > 0 { assert LinkedAt(b, n - 1); }
    if m > 0 && n > 0 {
      HashDeterminesPast(a, b, m - 1, n - 1);
    }
  }

  /** Under one checkpoint (h, n) every ledger that verifies holds the same n records, and at most one more. */
  lemma CheckpointCommits(a: Option<LedgerText>, b: Option<LedgerText>, head: Option<Checkpoint>,
                          x: seq<LedgerRecord>, y: seq<LedgerRecord>)
    requires Verifies(a, head, x) && Verifies(b, head, y)
    ensures var n := match head case Some(Checkpoint(_, n)) => n case _ => 0;
            && 0 <= n <= |x| <= n + 1 && n <= |y| <= n + 1
            && x[..n] == y[..n]
  {
    var n := match head case Some(Checkpoint(_, n)) => n case _ => 0;
    if head.Some? {
      assert HashBefore(x, n) == head.value.hash == HashBefore(y, n);
      HashDeterminesPast(x, y, n, n);
    }
  }

  function Extended(records: seq<LedgerRecord>, data: RecordData): seq<LedgerRecord> {
    var core := Core(data, HashBefore(records, |records|));
    records + [LedgerRecord(data, core.prevHash, Sha(core))]
  }

  /** Appending keeps the chain exactly when the record fits the grants opened before it. */
  lemma ExtendChained(records: seq<LedgerRecord>, data: RecordData)
    requires Chained(records)
    ensures Chained(Extended(records, data)) <==> FitsAfter(data, OpenedIds(records))
  {
    var more := Extended(records, data);
    var n := |records|;
    assert more[..n] == records;
    forall i | 0 <= i < n ensures LinkedAt(more, i) {
      assert LinkedAt(records, i) && more[..i] == records[..i];
    }
    assert LinkedAt(more, n) <==> FitsAfter(data, OpenedIds(records));
  }

  // ---- open grants ----

  /** `Map.set`: a provider keeps its place. */
  function SetGrant(open: seq<Grant>, grant: Grant): seq<Grant> {
    if open == [] then [grant]
    else if open[0].provider == grant.provider then [grant] + open[1..]
    else [open[0]] + SetGrant(open[1..], grant)
  }

  function DropGrant(open: seq<Grant>, grantId: string): seq<Grant> {
    if open == [] then []
    else if open[0].grantId == grantId then DropGrant(open[1..], grantId)
    else [open[0]] + DropGrant(open[1..], grantId)
  }

  function AfterRecord(open: seq<Grant>, data: RecordData): seq<Grant> {
    match data
    case Opened(_, _, _, _, _, _) => SetGrant(open, data)
    case Closed(grantId, _, _) => DropGrant(open, grantId)
    case Used(_, _, _) => open
  }

  /** The fold of `openGrants`. */
  function OpenGrants(records: seq<LedgerRecord>): seq<Grant> {
    if records == [] then []
    else AfterRecord(OpenGrants(records[..|records| - 1]), records[|records| - 1].data)
  }

  /** Record i opens the grant, and nothing after it opens another for the provider or closes this one. */
  predicate OpenSince(records: seq<LedgerRecord>, i: nat, grant: Grant) {
    && i < |records| && records[i].data == grant
    && forall j | i < j < |records| ::
         && !(records[j].data.Opened? && records[j].data.provider == grant.provider)
         && !(records[j].data.Closed? && records[j].data.grantId == grant.grantId)
  }

  predicate OneEach(open: seq<Grant>) {
    forall i, j | 0 <= i < j < |open| :: open[i].provider != open[j].provider
  }

  lemma {:induction false} SetGrantMeaning(open: seq<Grant>, grant: Grant)
    requires OneEach(open)
    ensures OneEach(SetGrant(open, grant))
    ensures forall g: Grant :: g in SetGrant(open, grant) <==> g == grant || (g in open && g.provider != grant.provider)
    ensures forall i | 0 <= i < |open| :: i < |SetGrant(open, grant)| && SetGrant(open, grant)[i].provider == open[i].provider
  {
    if open != [] {
      assert open == [open[0]] + open[1..];
      SetGrantMeaning(open[1..], grant);
    }
  }

  lemma {:induction false} DropGrantMeaning(open: seq<Grant>, grantId: string)
    requires OneEach(open)
    ensures OneEach(DropGrant(open, grantId))
    ensures forall g: Grant :: g in DropGrant(open, grantId) <==> g in open && g.grantId != grantId
  {
    if open != [] {
      assert open == [open[0]] + open[1..];
      DropGrantMeaning(open[1..], grantId);
    }
  }

  /** The fold keeps at most one grant per provider: the last one opened for it, unless that one was closed. */
  lemma {:induction false} OpenGrantsMeaning(records: seq<LedgerRecord>)
    ensures OneEach(OpenGrants(records))
    ensures forall g: Grant :: g in OpenGrants(records) <==> exists i :: OpenSince(records, i, g)
    decreases |records|
  {
    if records != [] {
      var n := |records| - 1;
      OpenGrantsMeaning(records[..n]);
      var before, data := OpenGrants(records[..n]), records[n].data;
      if data.Opened? { SetGrantMeaning(before, data); }
      if data.Closed? { DropGrantMeaning(before, data.grantId); }
      forall g: Grant ensures g in OpenGrants(records) <==> exists i :: OpenSince(records, i, g) {
        OpenAfterOne(records, g);
      }
    }
  }

  lemma OpenAfterOne(records: seq<LedgerRecord>, g: Grant)
    requires records != []
    ensures var n := |records| - 1;
            var data := records[n].data;
            (exists i :: OpenSince(records, i, g)) <==>
              (data == g
               || ((exists i :: OpenSince(records[..n], i, g))
                   && !(data.Opened? && data.provider == g.provider) && !(data.Closed? && data.grantId == g.grantId)))
  {
    var n := |records| - 1;
    if records[n].data == g { assert OpenSince(records, n, g); }
    if i: nat :| OpenSince(records[..n], i, g) {
      if !(records[n].data.Opened? && records[n].data.provider == g.provider)
        && !(records[n].data.Closed? && records[n].data.grantId == g.grantId) {
        assert OpenSince(records, i, g);
      }
    }
    if i: nat :| OpenSince(records, i, g) && i < n {
      assert OpenSince(records[..n], i, g);
    }
  }
}
