/** The checkpointed inventory of `src/codex-inventory.mjs`: files of lines that only grow are scanned on from where the
    last run left off, and the evidence is published before the checkpoint. Nothing is assumed of the files: what is
    proved of an entry says when it covers its file. */
module LineInventory {
  import opened Wrappers
  import opened LineScanner

  /** The chain hash of what was scanned: it commits to every segment since the source was first seen, or reset. */
  datatype Chain = Chain(previous: Option<Chain>, generation: nat, start: nat, next: nat, segment: Bytes)

  datatype Entry = Entry(generation: nat, metadataHash: string, nextOffset: nat, coverageStart: nat, chain: Chain,
                         lastLifecycle: Option<string>)

  datatype Checkpoint = Checkpoint(sequence: nat, sources: map<string, Entry>)

  /** What a run found for one source: the lines of the inventory and of the deltas. */
  datatype Report = Report(sourceId: string, generation: nat, chain: Chain, nextOffset: nat, counts: Counts, malformed: nat)

  datatype Delta = Delta(sequence: nat, sourceId: string, chain: Chain, appendedBytes: nat, counts: Counts)

  /** A discovered file: the hash of its first line, its bytes up to the size found, and whether it could be read. */
  datatype Candidate = Candidate(sourceId: string, metadataHash: string, bytes: Bytes, readable: bool)

  datatype Limits = Limits(maxScanBytes: nat, tailBootstrapBytes: nat)

  const HIGH_WATER_MARK := 65536

  // ---- chains ----

  function BytesOf(c: Chain): Bytes {
    (if c.previous.Some? then BytesOf(c.previous.value) else []) + c.segment
  }

  function Links(c: Chain): set<Chain> {
    {c} + if c.previous.Some? then Links(c.previous.value) else {}
  }

  function CoverageStart(c: Chain): nat {
    if c.previous.Some? then CoverageStart(c.previous.value) else c.start
  }

  /** Segments of whole lines, end to end, of one generation. */
  predicate ChainOk(c: Chain) {
    && c.next == c.start + |c.segment| && Complete(c.segment) == c.segment
    && (c.previous.Some? ==>
          && c.previous.value.next == c.start && c.previous.value.generation == c.generation && ChainOk(c.previous.value))
  }

  // ---- totals over the committed reports ----

  /** The sum over the links of a chain of the number reported for a kind. */
  function CountedBy(c: Chain, kind: string, parse: Parser): nat {
    var n := Reported(TallyOf(LinesOf(c.segment), parse).counts, kind);
    (if n.Some? then n.value else 0) + if c.previous.Some? then CountedBy(c.previous.value, kind, parse) else 0
  }

  function MalformedBy(c: Chain, parse: Parser): nat {
    TallyOf(LinesOf(c.segment), parse).malformed + if c.previous.Some? then MalformedBy(c.previous.value, parse) else 0
  }

  function AppendedBy(c: Chain): nat {
    |c.segment| + if c.previous.Some? then AppendedBy(c.previous.value) else 0
  }

  lemma {:induction false} ChainLines(c: Chain)
    requires ChainOk(c)
    ensures Complete(BytesOf(c)) == BytesOf(c)
    ensures LinesOf(BytesOf(c)) == (if c.previous.Some? then LinesOf(BytesOf(c.previous.value)) else []) + LinesOf(c.segment)
    ensures |BytesOf(c)| == AppendedBy(c) && CoverageStart(c) + AppendedBy(c) == c.next
  {
    if c.previous.Some? {
      var before := BytesOf(c.previous.value);
      ChainLines(c.previous.value);
      Resume(before, BytesOf(c));
      assert BytesOf(c)[|before|..] == c.segment;
    } else {
      assert BytesOf(c) == c.segment;
    }
  }

  /** The reports of a chain count every line once: their sums are those of one scan of everything they cover. */
  lemma {:induction false} TotalsAddUp(c: Chain, kind: string, parse: Parser)
    requires ChainOk(c)
    ensures kind !in Inherited() ==> CountedBy(c, kind, parse) == Occurrences(LinesOf(BytesOf(c)), kind, parse)
    ensures MalformedBy(c, parse) == Unreadable(LinesOf(BytesOf(c)), parse)
  {
    ChainLines(c);
    CountIsRight(LinesOf(c.segment), kind, parse);
    if c.previous.Some? {
      TotalsAddUp(c.previous.value, kind, parse);
      OccurrencesOfBoth(LinesOf(BytesOf(c.previous.value)), LinesOf(c.segment), kind, parse);
    } else {
      assert [] + LinesOf(c.segment) == LinesOf(c.segment);
    }
  }

  // ---- one source ----

  predicate IsReset(c: Candidate, previous: Option<Entry>) {
    previous.Some? && (|c.bytes| < previous.value.nextOffset || c.metadataHash != previous.value.metadataHash)
  }

  /** The scan goes on where the last one left off. */
  predicate Resumes(c: Candidate, previous: Option<Entry>) {
    previous.Some? && !IsReset(c, previous)
  }

  function StartOf(c: Candidate, previous: Option<Entry>, limits: Limits): (start: nat)
    ensures start <= |c.bytes|
  {
    if Resumes(c, previous) then previous.value.nextOffset
    else if |c.bytes| <= limits.maxScanBytes || |c.bytes| <= limits.tailBootstrapBytes then 0
    else |c.bytes| - limits.tailBootstrapBytes
  }

  predicate MayStartWithin(c: Candidate, previous: Option<Entry>, limits: Limits) {
    !Resumes(c, previous) && |c.bytes| > limits.maxScanBytes && StartOf(c, previous, limits) > 0
  }

  function SegmentOf(c: Candidate, previous: Option<Entry>, limits: Limits, parse: Parser): Segment {
    var start := StartOf(c, previous, limits);
    ScanOf(c.bytes[start..], start, MayStartWithin(c, previous, limits), parse)
  }

  /** The entry that a run leaves for a file; None when it leaves the entry there is, or none. */
  function NextEntry(c: Candidate, previous: Option<Entry>, limits: Limits, parse: Parser): Option<Entry> {
    EntryFrom(c, previous, SegmentOf(c, previous, limits, parse))
  }

  function EntryFrom(c: Candidate, previous: Option<Entry>, s: Segment): Option<Entry> {
    if !c.readable || (Resumes(c, previous) && s.bytes == []) then None
    else
      var resumed := Resumes(c, previous);
      var generation := if previous == None then 1 else previous.value.generation + if resumed then 0 else 1;
      Some(Entry(generation, c.metadataHash, s.next,
                 if resumed then previous.value.coverageStart else s.start,
                 Chain(if resumed then Some(previous.value.chain) else None, generation, s.start, s.next, s.bytes),
                 if s.tally.lifecycle.Some? || previous == None then s.tally.lifecycle else previous.value.lastLifecycle))
  }

  function LifecycleOf(c: Chain, parse: Parser): Option<string> {
    TallyOf(LinesOf(BytesOf(c)), parse).lifecycle
  }

  /** An entry agrees with its chain. */
  predicate FitsChain(e: Entry) {
    && ChainOk(e.chain) && e.generation == e.chain.generation >= 1
    && e.nextOffset == e.chain.next && e.coverageStart == CoverageStart(e.chain)
  }

  /** An entry agrees with its chain, and remembers the last lifecycle event it covers; only when it covers none can an
      event from before a reset show through. */
  ghost predicate EntryOk(e: Entry, parse: Parser) {
    && FitsChain(e)
    && (LifecycleOf(e.chain, parse).Some? || e.generation == 1 ==> e.lastLifecycle == LifecycleOf(e.chain, parse))
  }

  /** The entry covers all the complete lines of the file, from where its coverage starts. */
  ghost predicate CaughtUp(e: Entry, bytes: Bytes) {
    e.coverageStart <= |bytes| && BytesOf(e.chain) == Complete(bytes[e.coverageStart..])
  }

  /** What was scanned is still there. */
  ghost predicate StillThere(e: Entry, bytes: Bytes) {
    e.coverageStart <= e.nextOffset <= |bytes| && bytes[e.coverageStart..e.nextOffset] == BytesOf(e.chain)
  }

  lemma CompleteOfComplete(b: Bytes)
    ensures Complete(Complete(b)) == Complete(b)
  {
    LinesAreWhole(b);
    LinesAfterLines(LinesOf(b), []);
    assert Concat(LinesOf(b)) + [] == Complete(b);
    assert LinesOf(b) + [] == LinesOf(b);
  }

  lemma StillRemembers(e: Entry, previous: Option<Entry>, parse: Parser)
    requires ChainOk(e.chain) && e.generation == e.chain.generation >= 1
    requires previous.Some? ==> EntryOk(previous.value, parse)
    requires var found := TallyOf(LinesOf(e.chain.segment), parse).lifecycle;
             e.lastLifecycle == if found.Some? || previous == None then found else previous.value.lastLifecycle
    requires if e.chain.previous.Some? then
               previous.Some? && e.chain.previous.value == previous.value.chain && e.generation == previous.value.generation
             else previous.Some? ==> e.generation > 1
    ensures LifecycleOf(e.chain, parse).Some? || e.generation == 1 ==> e.lastLifecycle == LifecycleOf(e.chain, parse)
  {
    ChainLines(e.chain);
    if e.chain.previous.Some? {
      LifecycleOfBoth(LinesOf(BytesOf(e.chain.previous.value)), LinesOf(e.chain.segment), parse);
    } else {
      assert [] + LinesOf(e.chain.segment) == LinesOf(e.chain.segment);
    }
  }

  lemma SegmentLines(b: Bytes, start: nat, discard: bool, parse: Parser)
    ensures var s := ScanOf(b, start, discard, parse);
            LinesOf(s.bytes) == LinesOf(b[Skipped(b, discard)..])
  {
    var body := b[Skipped(b, discard)..];
    LinesAreWhole(body);
    LinesAfterLines(LinesOf(body), []);
    assert Concat(LinesOf(body)) + [] == Complete(body);
    assert LinesOf(body) + [] == LinesOf(body);
  }

  lemma SegmentIsComplete(b: Bytes, start: nat, discard: bool, parse: Parser)
    ensures var s := ScanOf(b, start, discard, parse);
            && Complete(s.bytes) == s.bytes && s.next == s.start + |s.bytes|
            && s.tally == TallyOf(LinesOf(s.bytes), parse)
  {
    CompleteOfComplete(b[Skipped(b, discard)..]);
    SegmentLines(b, start, discard, parse);
  }

  /** A run keeps entries in order: it continues the chain of the file, or starts a new generation at a reset. */
  lemma NextEntryOk(c: Candidate, previous: Option<Entry>, limits: Limits, parse: Parser)
    requires previous.Some? ==> EntryOk(previous.value, parse)
    requires NextEntry(c, previous, limits, parse).Some?
    ensures var e := NextEntry(c, previous, limits, parse).value;
            && EntryOk(e, parse) && e.metadataHash == c.metadataHash
            && if !SeenAfresh(c, previous) then
                 && e.chain.previous == Some(previous.value.chain) && e.chain.segment != []
                 && e.generation == previous.value.generation && e.coverageStart == previous.value.coverageStart
               else
                 && e.chain.previous == None
                 && e.generation == (if previous.Some? then previous.value.generation + 1 else 1)
                 && (|c.bytes| <= limits.maxScanBytes ==> e.coverageStart == 0)
  {
    var start := StartOf(c, previous, limits);
    SegmentIsComplete(c.bytes[start..], start, MayStartWithin(c, previous, limits), parse);
    var e := NextEntry(c, previous, limits, parse).value;
    if Resumes(c, previous) { assert e.chain.start == previous.value.nextOffset; }
    assert ChainOk(e.chain);
    StillRemembers(e, previous, parse);
  }

  /** The entry of a file after a run: the one it leaves, or the one there was. */
  function EntryAfter(c: Candidate, previous: Option<Entry>, limits: Limits, parse: Parser): Option<Entry> {
    var next := NextEntry(c, previous, limits, parse);
    if next.Some? then next else previous
  }

  /** A file is new, or it can be seen that it is not the one that was scanned: it is shorter than what was scanned, or its
      first line is another. */
  ghost predicate SeenAfresh(c: Candidate, previous: Option<Entry>) {
    previous == None || |c.bytes| < previous.value.nextOffset || c.metadataHash != previous.value.metadataHash
  }

  /** After a run the entry of a file that could be read covers all its complete lines if and only if the file was new, or
      seen to be reset, or what was scanned of it is still there. */
  lemma CaughtUpExactly(c: Candidate, previous: Option<Entry>, limits: Limits, parse: Parser)
    requires c.readable && (previous.Some? ==> EntryOk(previous.value, parse))
    ensures EntryAfter(c, previous, limits, parse).Some?
    ensures CaughtUp(EntryAfter(c, previous, limits, parse).value, c.bytes)
        <==> SeenAfresh(c, previous) || StillThere(previous.value, c.bytes)
  {
    if Resumes(c, previous) {
      ResumedCatchesUp(c, previous.value, limits, parse);
    } else {
      FirstCatchesUp(c, previous, limits, parse);
    }
  }

  lemma FirstCatchesUp(c: Candidate, previous: Option<Entry>, limits: Limits, parse: Parser)
    requires c.readable && !Resumes(c, previous)
    ensures CaughtUp(NextEntry(c, previous, limits, parse).value, c.bytes)
  {
    ScanCovers(c.bytes, StartOf(c, previous, limits), MayStartWithin(c, previous, limits), parse);
    var segment := SegmentOf(c, previous, limits, parse).bytes;
    assert [] + segment == segment;
  }

  lemma ScanCovers(bytes: Bytes, start: nat, discard: bool, parse: Parser)
    requires start <= |bytes|
    ensures var s := ScanOf(bytes[start..], start, discard, parse);
            s.start <= |bytes| && s.bytes == Complete(bytes[s.start..])
  {
    var window := bytes[start..];
    var k := Skipped(window, discard);
    assert bytes[start + k..] == window[k..];
  }

  lemma ResumedCatchesUp(c: Candidate, e: Entry, limits: Limits, parse: Parser)
    requires c.readable && Resumes(c, Some(e)) && EntryOk(e, parse)
    ensures CaughtUp(EntryAfter(c, Some(e), limits, parse).value, c.bytes) <==> StillThere(e, c.bytes)
  {
    ResumedBytes(c, e, limits, parse);
    ChainLines(e.chain);
    CoversExactly(BytesOf(e.chain), c.bytes, e.coverageStart);
  }

  lemma ResumedBytes(c: Candidate, e: Entry, limits: Limits, parse: Parser)
    requires c.readable && Resumes(c, Some(e))
    ensures var after := EntryAfter(c, Some(e), limits, parse).value;
            && after.coverageStart == e.coverageStart
            && BytesOf(after.chain) == BytesOf(e.chain) + Complete(c.bytes[e.nextOffset..])
  {
    var rest := c.bytes[e.nextOffset..];
    assert rest[0..] == rest;
    assert BytesOf(e.chain) + [] == BytesOf(e.chain);
  }

  /** Complete lines, followed by those of the rest of a text, are all of its complete lines exactly when the text starts
      with them. */
  lemma CoversExactly(done: Bytes, bytes: Bytes, start: nat)
    requires Complete(done) == done && start + |done| <= |bytes|
    ensures done + Complete(bytes[start + |done|..]) == Complete(bytes[start..]) <==> bytes[start..start + |done|] == done
  {
    var tail := bytes[start..];
    assert tail[..|done|] == bytes[start..start + |done|] && tail[|done|..] == bytes[start + |done|..];
    if tail[..|done|] == done {
      assert done <= tail;
      Resume(done, tail);
    }
    if done + Complete(tail[|done|..]) == Complete(tail) {
      LinesAreWhole(tail);
      PrefixOfPrefix(done, Complete(tail[|done|..]), tail);
    }
  }

  lemma PrefixOfPrefix(a: Bytes, b: Bytes, whole: Bytes)
    requires a + b <= whole
    ensures whole[..|a|] == a
  {
    assert whole[..|a + b|] == a + b;
    assert whole[..|a|] == (a + b)[..|a|] == a;
  }

  // ---- totals ----

  /** The sums over the committed reports are those of one scan of what the entry covers. */
  ghost predicate ScannedOnce(e: Entry, bytes: Bytes, parse: Parser)
    requires e.coverageStart <= |bytes|
  {
    var lines := LinesOf(bytes[e.coverageStart..]);
    && (forall kind | kind !in Inherited() :: CountedBy(e.chain, kind, parse) == Occurrences(lines, kind, parse))
    && MalformedBy(e.chain, parse) == Unreadable(lines, parse)
    && AppendedBy(e.chain) == |Concat(lines)| && e.nextOffset == e.coverageStart + |Concat(lines)|
  }

  /** An entry that has caught up counts every complete line of the file, from where its coverage starts, exactly once. */
  lemma CaughtUpScannedOnce(e: Entry, bytes: Bytes, parse: Parser)
    requires EntryOk(e, parse) && CaughtUp(e, bytes)
    ensures ScannedOnce(e, bytes, parse)
  {
    var covered := bytes[e.coverageStart..];
    ChainLines(e.chain);
    LinesOfComplete(covered);
    forall kind | kind !in Inherited() ensures CountedBy(e.chain, kind, parse) == Occurrences(LinesOf(covered), kind, parse) {
      TotalsAddUp(e.chain, kind, parse);
    }
    TotalsAddUp(e.chain, "", parse);
  }

  lemma LinesOfComplete(b: Bytes)
    ensures LinesOf(Complete(b)) == LinesOf(b)
  {
    LinesAreWhole(b);
    LinesAfterLines(LinesOf(b), []);
    assert Concat(LinesOf(b)) + [] == Complete(b);
    assert LinesOf(b) + [] == LinesOf(b);
  }

  // ---- all sources ----

  type Sources = map<string, Entry>

  function EntryFor(sources: Sources, id: string): Option<Entry> {
    if id in sources then Some(sources[id]) else None
  }

  /** What one turn of the loop makes of a file and the entry there was. */
  type Turn = (Candidate, Option<Entry>) -> Option<Entry>

  function TurnOf(limits: Limits, parse: Parser): Turn {
    (c: Candidate, previous: Option<Entry>) => NextEntry(c, previous, limits, parse)
  }

  function AfterOne(sources: Sources, c: Candidate, turn: Turn): Sources {
    var e := turn(c, EntryFor(sources, c.sourceId));
    if e.Some? then sources[c.sourceId := e.value] else sources
  }

  /** The entries after a run over the files, one after the other. */
  function Inventoried(sources: Sources, candidates: seq<Candidate>, turn: Turn): Sources {
    if candidates == [] then sources
    else AfterOne(Inventoried(sources, candidates[..|candidates| - 1], turn), candidates[|candidates| - 1], turn)
  }

  ghost predicate AllOk(sources: Sources, parse: Parser) {
    forall id | id in sources :: EntryOk(sources[id], parse)
  }

  ghost predicate KeepsOk(turn: Turn, parse: Parser) {
    forall c: Candidate, previous: Option<Entry> | previous.Some? ==> EntryOk(previous.value, parse) ::
      turn(c, previous).Some? ==> EntryOk(turn(c, previous).value, parse)
  }

  lemma TurnKeepsOk(limits: Limits, parse: Parser)
    ensures KeepsOk(TurnOf(limits, parse), parse)
  {
    var turn := TurnOf(limits, parse);
    forall c: Candidate, previous: Option<Entry> | (previous.Some? ==> EntryOk(previous.value, parse)) && turn(c, previous).Some?
      ensures EntryOk(turn(c, previous).value, parse) {
      NextEntryOk(c, previous, limits, parse);
    }
  }

  lemma {:induction false} InventoriedOk(sources: Sources, candidates: seq<Candidate>, turn: Turn, parse: Parser)
    requires AllOk(sources, parse) && KeepsOk(turn, parse)
    ensures AllOk(Inventoried(sources, candidates, turn), parse)
    decreases |candidates|
  {
    if candidates != [] { InventoriedOk(sources, candidates[..|candidates| - 1], turn, parse); }
  }

  /** The last file with an id decides its entry. */
  lemma {:induction false} LastDecides(sources: Sources, candidates: seq<Candidate>, i: nat, turn: Turn)
    requires i < |candidates|
    requires forall j | i < j < |candidates| :: candidates[j].sourceId != candidates[i].sourceId
    ensures var c := candidates[i];
            var before := EntryFor(Inventoried(sources, candidates[..i], turn), c.sourceId);
            EntryFor(Inventoried(sources, candidates, turn), c.sourceId) == if turn(c, before).Some? then turn(c, before) else before
    decreases |candidates|
  {
    var n := |candidates| - 1;
    if i < n {
      LastDecides(sources, candidates[..n], i, turn);
      assert candidates[..n][..i] == candidates[..i];
    }
  }

  /** A file that was not looked at keeps its entry. */
  lemma {:induction false} OthersKept(sources: Sources, candidates: seq<Candidate>, id: string, turn: Turn)
    requires forall j | 0 <= j < |candidates| :: candidates[j].sourceId != id
    ensures EntryFor(Inventoried(sources, candidates, turn), id) == EntryFor(sources, id)
    decreases |candidates|
  {
    if candidates != [] { OthersKept(sources, candidates[..|candidates| - 1], id, turn); }
  }

  /** No later file has its id. */
  predicate IsLast(candidates: seq<Candidate>, i: nat)
    requires i < |candidates|
  {
    forall j | i < j < |candidates| :: candidates[j].sourceId != candidates[i].sourceId
  }

  /** After a run: where file i is the last with its id and could be read, its entry covers all its complete lines if and
      only if the file was new, or seen to be reset, or what was scanned of it is still there. */
  ghost predicate SettledAt(sources: Sources, candidates: seq<Candidate>, i: nat, turn: Turn, after: Sources)
    requires i < |candidates|
  {
    var c := candidates[i];
    var previous := EntryFor(Inventoried(sources, candidates[..i], turn), c.sourceId);
    && c.sourceId in after
    && (CaughtUp(after[c.sourceId], c.bytes) <==> SeenAfresh(c, previous) || StillThere(previous.value, c.bytes))
  }

  ghost predicate Settled(sources: Sources, candidates: seq<Candidate>, limits: Limits, parse: Parser, after: Sources) {
    forall i | 0 <= i < |candidates| && candidates[i].readable && IsLast(candidates, i) ::
      SettledAt(sources, candidates, i, TurnOf(limits, parse), after)
  }

  lemma RunSettles(sources: Sources, candidates: seq<Candidate>, limits: Limits, parse: Parser)
    requires AllOk(sources, parse)
    ensures Settled(sources, candidates, limits, parse, Inventoried(sources, candidates, TurnOf(limits, parse)))
  {
    var turn := TurnOf(limits, parse);
    TurnKeepsOk(limits, parse);
    forall i | 0 <= i < |candidates| && candidates[i].readable && IsLast(candidates, i)
      ensures SettledAt(sources, candidates, i, turn, Inventoried(sources, candidates, turn)) {
      LastDecides(sources, candidates, i, turn);
      InventoriedOk(sources, candidates[..i], turn, parse);
      CaughtUpExactly(candidates[i], EntryFor(Inventoried(sources, candidates[..i], turn), candidates[i].sourceId), limits, parse);
    }
  }

  // ---- the ledger ----

  function ReportOf(sourceId: string, chain: Chain, parse: Parser): Report {
    var tally := TallyOf(LinesOf(chain.segment), parse);
    Report(sourceId, chain.generation, chain, chain.next, tally.counts, tally.malformed)
  }

  function DeltaOf(sequence: nat, sourceId: string, chain: Chain, parse: Parser): Delta {
    Delta(sequence, sourceId, chain, |chain.segment|, TallyOf(LinesOf(chain.segment), parse).counts)
  }

  predicate Published(sourceId: string, link: Chain, reports: seq<Report>, deltas: seq<Delta>) {
    && (exists r | r in reports :: r.sourceId == sourceId && r.chain == link)
    && (exists d | d in deltas :: d.sourceId == sourceId && d.chain == link)
  }

  /** Every segment behind a checkpoint entry has its report and its delta in the ledger. */
  ghost predicate Evidenced(sources: Sources, reports: seq<Report>, deltas: seq<Delta>) {
    forall id | id in sources :: forall link | link in Links(sources[id].chain) :: Published(id, link, reports, deltas)
  }

  /** Reports and deltas say of their segment what a scan of it says. */
  ghost predicate LedgerOk(reports: seq<Report>, deltas: seq<Delta>, parse: Parser) {
    && (forall r | r in reports :: r == ReportOf(r.sourceId, r.chain, parse))
    && (forall d | d in deltas :: d == DeltaOf(d.sequence, d.sourceId, d.chain, parse))
  }

  /** The new reports and deltas of a run go together, and the deltas continue the sequence. */
  predicate InStep(sequence: nat, reports: seq<Report>, deltas: seq<Delta>) {
    && |reports| == |deltas|
    && forall k | 0 <= k < |deltas| ::
         deltas[k].sequence == sequence + 1 + k && reports[k].sourceId == deltas[k].sourceId && reports[k].chain == deltas[k].chain
  }

  lemma EvidenceKept(sources: Sources, reports: seq<Report>, deltas: seq<Delta>, moreReports: seq<Report>, moreDeltas: seq<Delta>)
    requires Evidenced(sources, reports, deltas)
    ensures Evidenced(sources, reports + moreReports, deltas + moreDeltas)
  {
    forall id, link | id in sources && link in Links(sources[id].chain)
      ensures Published(id, link, reports + moreReports, deltas + moreDeltas) {
      assert Published(id, link, reports, deltas);
    }
  }

  lemma EvidenceAdded(sources: Sources, id: string, e: Entry, reports: seq<Report>, deltas: seq<Delta>, r: Report, d: Delta)
    requires Evidenced(sources, reports, deltas)
    requires r.sourceId == id == d.sourceId && r.chain == e.chain == d.chain
    requires e.chain.previous.Some? ==> id in sources && e.chain.previous.value == sources[id].chain
    ensures Evidenced(sources[id := e], reports + [r], deltas + [d])
  {
    EvidenceKept(sources, reports, deltas, [r], [d]);
    assert r in reports + [r] && d in deltas + [d];
    forall link | link in Links(e.chain) ensures Published(id, link, reports + [r], deltas + [d]) {
      if link != e.chain { assert link in Links(sources[id].chain); }
    }
  }

  /** What the loop over the files keeps: the entries so far, and their evidence. */
  ghost predicate InRound(before: Checkpoint, candidates: seq<Candidate>, i: nat, turn: Turn, parse: Parser,
                          next: Checkpoint, reports: seq<Report>, deltas: seq<Delta>, newReports: seq<Report>, newDeltas: seq<Delta>)
  {
    && i <= |candidates|
    && next == Checkpoint(before.sequence + |newDeltas|, Inventoried(before.sources, candidates[..i], turn))
    && InStep(before.sequence, newReports, newDeltas)
    && LedgerOk(newReports, newDeltas, parse)
    && Evidenced(next.sources, reports + newReports, deltas + newDeltas)
  }

  lemma OneFileMore(sources: Sources, candidates: seq<Candidate>, i: nat, turn: Turn)
    requires i < |candidates|
    ensures Inventoried(sources, candidates[..i + 1], turn) == AfterOne(Inventoried(sources, candidates[..i], turn), candidates[i], turn)
  {
    assert candidates[..i + 1][..i] == candidates[..i];
  }

  lemma RoundGoesOn(before: Checkpoint, candidates: seq<Candidate>, i: nat, turn: Turn, parse: Parser,
                    next: Checkpoint, reports: seq<Report>, deltas: seq<Delta>, newReports: seq<Report>, newDeltas: seq<Delta>)
    requires InRound(before, candidates, i, turn, parse, next, reports, deltas, newReports, newDeltas)
    requires i < |candidates| && turn(candidates[i], EntryFor(next.sources, candidates[i].sourceId)) == None
    ensures InRound(before, candidates, i + 1, turn, parse, next, reports, deltas, newReports, newDeltas)
  {
    OneFileMore(before.sources, candidates, i, turn);
  }

  lemma OneMoreInStep(sequence: nat, reports: seq<Report>, deltas: seq<Delta>, r: Report, d: Delta)
    requires InStep(sequence, reports, deltas)
    requires d.sequence == sequence + |deltas| + 1 && r.sourceId == d.sourceId && r.chain == d.chain
    ensures InStep(sequence, reports + [r], deltas + [d])
  {
  }

  lemma OneMoreInLedger(reports: seq<Report>, deltas: seq<Delta>, r: Report, d: Delta, parse: Parser)
    requires LedgerOk(reports, deltas, parse)
    requires r == ReportOf(r.sourceId, r.chain, parse) && d == DeltaOf(d.sequence, d.sourceId, d.chain, parse)
    ensures LedgerOk(reports + [r], deltas + [d], parse)
  {
  }

  /** An entry's chain starts anew, or goes on from the entry there was. */
  ghost predicate GoesOn(e: Entry, previous: Option<Entry>) {
    e.chain.previous.Some? ==> previous.Some? && e.chain.previous.value == previous.value.chain
  }

  lemma RoundAdds(before: Checkpoint, candidates: seq<Candidate>, i: nat, turn: Turn, parse: Parser,
                  next: Checkpoint, reports: seq<Report>, deltas: seq<Delta>, newReports: seq<Report>, newDeltas: seq<Delta>, e: Entry)
    requires InRound(before, candidates, i, turn, parse, next, reports, deltas, newReports, newDeltas)
    requires i < |candidates| && turn(candidates[i], EntryFor(next.sources, candidates[i].sourceId)) == Some(e)
    requires GoesOn(e, EntryFor(next.sources, candidates[i].sourceId))
    ensures var id := candidates[i].sourceId;
            InRound(before, candidates, i + 1, turn, parse, Checkpoint(next.sequence + 1, next.sources[id := e]), reports, deltas,
                    newReports + [ReportOf(id, e.chain, parse)], newDeltas + [DeltaOf(next.sequence + 1, id, e.chain, parse)])
  {
    var id := candidates[i].sourceId;
    var r, d := ReportOf(id, e.chain, parse), DeltaOf(next.sequence + 1, id, e.chain, parse);
    OneMoreInStep(before.sequence, newReports, newDeltas, r, d);
    OneMoreInLedger(newReports, newDeltas, r, d, parse);
    OneFileMore(before.sources, candidates, i, turn);
    EvidenceAdded(next.sources, id, e, reports + newReports, deltas + newDeltas, r, d);
    assert reports + (newReports + [r]) == (reports + newReports) + [r];
    assert deltas + (newDeltas + [d]) == (deltas + newDeltas) + [d];
  }

  class Inventory {
    var checkpoint: Checkpoint
    /** The ledger directory: the inventories and the deltas of all runs. */
    var reports: seq<Report>
    var deltas: seq<Delta>

    ghost predicate Valid(parse: Parser)
      reads this
    {
      && AllOk(checkpoint.sources, parse)
      && LedgerOk(reports, deltas, parse)
      && Evidenced(checkpoint.sources, reports, deltas)
    }

    constructor (parse: Parser)
      ensures Valid(parse) && checkpoint == Checkpoint(0, map[]) && reports == [] && deltas == []
    {
      checkpoint := Checkpoint(0, map[]);
      reports, deltas := [], [];
    }

    /** The stream of a file, in chunks. */
    static method ReadStream(b: Bytes) returns (chunks: seq<Bytes>)
      ensures Concat(chunks) == b
    {
      chunks := [];
      var at := 0;
      assert b[..0] == [];
      while at < |b|
        invariant at <= |b| && Concat(chunks) == b[..at]
      {
        var end := if |b| - at < HIGH_WATER_MARK then |b| else at + HIGH_WATER_MARK;
        ConcatOfBoth(chunks, [b[at..end]]);
        assert Concat([b[at..end]]) == b[at..end];
        assert b[..end] == b[..at] + b[at..end];
        chunks := chunks + [b[at..end]];
        at := end;
      }
      assert b[..at] == b;
    }

    /** Scans a file from where this run starts. */
    static method ScanFile(c: Candidate, previous: Option<Entry>, limits: Limits, parse: Parser) returns (segment: Segment)
      ensures segment == SegmentOf(c, previous, limits, parse)
    {
      var start, discard := 0, false;
      if previous.Some? && !IsReset(c, previous) {
        start := previous.value.nextOffset;
      } else if |c.bytes| > limits.maxScanBytes {
        start := if |c.bytes| <= limits.tailBootstrapBytes then 0 else |c.bytes| - limits.tailBootstrapBytes;
        discard := start > 0;
      }
      assert start == StartOf(c, previous, limits) && discard == MayStartWithin(c, previous, limits);
      ghost var text := c.bytes[start..];
      var chunks := ReadStream(c.bytes[start..]);
      assert Concat(chunks) == text;
      segment := ScanCompleteLines(chunks, start, discard, parse);
    }

    /** What a scanned segment means for the checkpoint and the inventory. */
    static method Describe(c: Candidate, previous: Option<Entry>, segment: Segment, parse: Parser) returns (r: Option<(Entry, Report)>)
      requires c.readable && segment.tally == TallyOf(LinesOf(segment.bytes), parse)
      ensures r.Some? <==> EntryFrom(c, previous, segment).Some?
      ensures r.Some? ==> r.value.0 == EntryFrom(c, previous, segment).value && GoesOn(r.value.0, previous)
      ensures r.Some? ==> r.value.1 == ReportOf(c.sourceId, r.value.0.chain, parse)
    {
      var reset := IsReset(c, previous);
      if previous.Some? && !reset && segment.bytes == [] {
        return None;
      }
      var generation := if previous.Some? then (if reset then previous.value.generation + 1 else previous.value.generation) else 1;
      var prior := if previous.Some? && !reset then Some(previous.value.chain) else None;
      var chain := Chain(prior, generation, segment.start, segment.next, segment.bytes);
      var lifecycle :=
        if segment.tally.lifecycle.Some? || previous == None then segment.tally.lifecycle else previous.value.lastLifecycle;
      var coverageStart := if prior.Some? then previous.value.coverageStart else segment.start;
      var entry := Entry(generation, c.metadataHash, segment.next, coverageStart, chain, lifecycle);
      r := Some((entry, Report(c.sourceId, generation, chain, segment.next, segment.tally.counts, segment.tally.malformed)));
    }

    /** One turn of the loop over the files: None when the file is skipped. */
    static method Observe(c: Candidate, previous: Option<Entry>, limits: Limits, parse: Parser) returns (r: Option<(Entry, Report)>)
      ensures r.Some? <==> NextEntry(c, previous, limits, parse).Some?
      ensures r.Some? ==> r.value.0 == NextEntry(c, previous, limits, parse).value && GoesOn(r.value.0, previous)
      ensures r.Some? ==> r.value.1 == ReportOf(c.sourceId, r.value.0.chain, parse)
    {
      if !c.readable { return None; }
      if previous.Some? && !IsReset(c, previous) && |c.bytes| == previous.value.nextOffset {
        NothingBehind(c.bytes, parse);
        return None;
      }
      SegmentTally(c, previous, limits, parse);
      var segment := ScanFile(c, previous, limits, parse);
      r := Describe(c, previous, segment, parse);
    }

    /** The loop over the files. */
    static method ObserveAll(candidates: seq<Candidate>, limits: Limits, parse: Parser, checkpoint: Checkpoint,
                             ghost reports: seq<Report>, ghost deltas: seq<Delta>)
      returns (next: Checkpoint, newReports: seq<Report>, newDeltas: seq<Delta>)
      requires Evidenced(checkpoint.sources, reports, deltas)
      ensures InRound(checkpoint, candidates, |candidates|, TurnOf(limits, parse), parse, next, reports, deltas, newReports, newDeltas)
    {
      ghost var turn := TurnOf(limits, parse);
      next, newReports, newDeltas := checkpoint, [], [];
      assert reports + [] == reports && deltas + [] == deltas;
      for i := 0 to |candidates|
        invariant InRound(checkpoint, candidates, i, turn, parse, next, reports, deltas, newReports, newDeltas)
      {
        var c := candidates[i];
        var r := Observe(c, EntryFor(next.sources, c.sourceId), limits, parse);
        if r == None {
          RoundGoesOn(checkpoint, candidates, i, turn, parse, next, reports, deltas, newReports, newDeltas);
        } else {
          RoundAdds(checkpoint, candidates, i, turn, parse, next, reports, deltas, newReports, newDeltas, r.value.0);
          var delta := Delta(next.sequence + 1, c.sourceId, r.value.0.chain, |r.value.0.chain.segment|, r.value.1.counts);
          newReports, newDeltas := newReports + [r.value.1], newDeltas + [delta];
          next := Checkpoint(next.sequence + 1, next.sources[c.sourceId := r.value.0]);
        }
      }
    }

    /** `runInventoryLocked`; the process may stop after any of the writes to the ledger and the checkpoint. */
    method RunInventory(candidates: seq<Candidate>, limits: Limits, parse: Parser, stop: nat)
      requires Valid(parse)
      modifies this
      ensures Valid(parse)
      ensures old(reports) <= reports && old(deltas) <= deltas
      // the inventory, then the deltas, then the checkpoint
      ensures stop < 1 ==> reports == old(reports)
      ensures stop < 2 ==> deltas == old(deltas)
      ensures stop < 3 ==> checkpoint == old(checkpoint)
      ensures stop >= 2 ==> InStep(old(checkpoint.sequence), reports[|old(reports)|..], deltas[|old(deltas)|..])
      ensures stop >= 3 ==>
                && checkpoint.sources == Inventoried(old(checkpoint.sources), candidates, TurnOf(limits, parse))
                && checkpoint.sequence == old(checkpoint.sequence) + |deltas| - |old(deltas)|
                && Settled(old(checkpoint.sources), candidates, limits, parse, checkpoint.sources)
    {
      var next, newReports, newDeltas := ObserveAll(candidates, limits, parse, checkpoint, reports, deltas);
      LedgerGrows(reports, deltas, newReports, newDeltas, parse);
      EvidenceKept(checkpoint.sources, reports, deltas, newReports, []);
      EvidenceKept(checkpoint.sources, reports, deltas, newReports, newDeltas);
      TurnKeepsOk(limits, parse);
      InventoriedOk(checkpoint.sources, candidates, TurnOf(limits, parse), parse);
      RunSettles(checkpoint.sources, candidates, limits, parse);
      assert deltas + [] == deltas && candidates[..|candidates|] == candidates;
      if stop < 1 { return; }
      reports := reports + newReports;
      if stop < 2 { return; }
      deltas := deltas + newDeltas;
      if stop < 3 { return; }
      checkpoint := next;
    }
  }

  lemma SegmentTally(c: Candidate, previous: Option<Entry>, limits: Limits, parse: Parser)
    ensures var s := SegmentOf(c, previous, limits, parse);
            s.tally == TallyOf(LinesOf(s.bytes), parse)
  {
    var start := StartOf(c, previous, limits);
    SegmentIsComplete(c.bytes[start..], start, MayStartWithin(c, previous, limits), parse);
  }

  lemma NothingBehind(bytes: Bytes, parse: Parser)
    ensures ScanOf(bytes[|bytes|..], |bytes|, false, parse).bytes == []
  {
    assert bytes[|bytes|..] == [];
  }

  lemma LedgerGrows(reports: seq<Report>, deltas: seq<Delta>, newReports: seq<Report>, newDeltas: seq<Delta>, parse: Parser)
    requires LedgerOk(reports, deltas, parse) && LedgerOk(newReports, newDeltas, parse)
    ensures LedgerOk(reports + newReports, deltas, parse) && LedgerOk(reports + newReports, deltas + newDeltas, parse)
  {
  }

  // ---- a file that only grows ----

  /** What runs over growing parts of the file leave: an entry once a run has completed, and what it covers is there. */
  ghost predicate Watching(sources: Sources, sourceId: string, metadataHash: string, file: Bytes, size: nat, first: Option<nat>,
                           limits: Limits, parse: Parser)
    requires size <= |file|
  {
    && AllOk(sources, parse)
    && (sourceId in sources <==> first.Some?)
    && (first.Some? ==>
          && sources[sourceId].metadataHash == metadataHash && StillThere(sources[sourceId], file[..size])
          && (first.value <= limits.maxScanBytes ==> sources[sourceId].coverageStart == 0))
  }

  lemma WatchedOnce(sources: Sources, c: Candidate, file: Bytes, before: nat, first: Option<nat>, limits: Limits, parse: Parser)
    requires before <= |c.bytes| <= |file| && c.bytes == file[..|c.bytes|] && c.readable
    requires Watching(sources, c.sourceId, c.metadataHash, file, before, first, limits, parse)
    ensures var after := AfterOne(sources, c, TurnOf(limits, parse));
            && Watching(after, c.sourceId, c.metadataHash, file, |c.bytes|, if first.Some? then first else Some(|c.bytes|), limits, parse)
            && CaughtUp(after[c.sourceId], c.bytes)
  {
    var previous := EntryFor(sources, c.sourceId);
    if first.Some? { LaterStillThere(previous.value, file, before, |c.bytes|); }
    SettledEntry(c, previous, limits, parse);
    var e := EntryAfter(c, previous, limits, parse).value;
    AfterOnePuts(sources, c, TurnOf(limits, parse), e);
    AllOkWith(sources, c.sourceId, e, parse);
  }

  lemma AfterOnePuts(sources: Sources, c: Candidate, turn: Turn, e: Entry)
    requires var previous := EntryFor(sources, c.sourceId);
             Some(e) == if turn(c, previous).Some? then turn(c, previous) else previous
    ensures AfterOne(sources, c, turn) == sources[c.sourceId := e]
  {
  }

  lemma AllOkWith(sources: Sources, id: string, e: Entry, parse: Parser)
    requires AllOk(sources, parse) && EntryOk(e, parse)
    ensures AllOk(sources[id := e], parse)
  {
  }

  /** A file of which what was scanned is still there gets, or keeps, an entry that covers it. */
  lemma SettledEntry(c: Candidate, previous: Option<Entry>, limits: Limits, parse: Parser)
    requires c.readable
    requires previous.Some? ==>
               EntryOk(previous.value, parse) && previous.value.metadataHash == c.metadataHash && StillThere(previous.value, c.bytes)
    ensures var e := EntryAfter(c, previous, limits, parse);
            && e.Some? && EntryOk(e.value, parse) && e.value.metadataHash == c.metadataHash
            && CaughtUp(e.value, c.bytes) && StillThere(e.value, c.bytes)
            && (if previous.Some? then e.value.coverageStart == previous.value.coverageStart
                else |c.bytes| <= limits.maxScanBytes ==> e.value.coverageStart == 0)
  {
    CaughtUpExactly(c, previous, limits, parse);
    if NextEntry(c, previous, limits, parse).Some? { NextEntryOk(c, previous, limits, parse); }
    CaughtUpIsThere(EntryAfter(c, previous, limits, parse).value, c.bytes);
  }

  lemma OneCandidate(sources: Sources, c: Candidate, turn: Turn)
    ensures Inventoried(sources, [c], turn) == AfterOne(sources, c, turn)
  {
    assert [c][..0] == [];
  }

  lemma LaterStillThere(e: Entry, file: Bytes, before: nat, size: nat)
    requires before <= size <= |file| && StillThere(e, file[..before])
    ensures StillThere(e, file[..size])
  {
    assert file[..size][e.coverageStart..e.nextOffset] == file[..before][e.coverageStart..e.nextOffset];
  }

  lemma CaughtUpIsThere(e: Entry, bytes: Bytes)
    requires FitsChain(e) && CaughtUp(e, bytes)
    ensures StillThere(e, bytes)
  {
    CoverageLength(e);
    CompleteIsThere(bytes, e.coverageStart, BytesOf(e.chain));
  }

  lemma CompleteIsThere(bytes: Bytes, start: nat, done: Bytes)
    requires start <= |bytes| && done == Complete(bytes[start..])
    ensures start + |done| <= |bytes| && bytes[start..start + |done|] == done
  {
    LinesAreWhole(bytes[start..]);
    PrefixAsSlice(bytes, start, done);
  }

  lemma CoverageLength(e: Entry)
    requires FitsChain(e)
    ensures e.nextOffset == e.coverageStart + |BytesOf(e.chain)|
  {
    ChainLines(e.chain);
  }

  lemma PrefixAsSlice(bytes: Bytes, start: nat, done: Bytes)
    requires start <= |bytes| && done <= bytes[start..]
    ensures start + |done| <= |bytes| && bytes[start..start + |done|] == done
  {
    assert bytes[start..start + |done|] == bytes[start..][..|done|];
  }

  method WatchOnce(inventory: Inventory, file: Bytes, sourceId: string, metadataHash: string, before: nat, size: nat, stop: nat,
                   first: Option<nat>, limits: Limits, parse: Parser)
    returns (next: Option<nat>)
    requires before <= size <= |file| && inventory.Valid(parse)
    requires Watching(inventory.checkpoint.sources, sourceId, metadataHash, file, before, first, limits, parse)
    modifies inventory
    ensures inventory.Valid(parse)
    ensures next == if stop >= 3 && first == None then Some(size) else first
    ensures Watching(inventory.checkpoint.sources, sourceId, metadataHash, file, size, next, limits, parse)
    ensures stop >= 3 ==> CountedOnce(inventory.checkpoint.sources, sourceId, file[..size], next, limits, parse)
  {
    var c := Candidate(sourceId, metadataHash, file[..size], true);
    ghost var sources := inventory.checkpoint.sources;
    WatchedOnce(sources, c, file, before, first, limits, parse);
    OneCandidate(sources, c, TurnOf(limits, parse));
    if first.Some? { LaterStillThere(sources[sourceId], file, before, size); }
    inventory.RunInventory([c], limits, parse, stop);
    next := if stop >= 3 && first == None then Some(size) else first;
    if stop >= 3 { CaughtUpScannedOnce(inventory.checkpoint.sources[sourceId], file[..size], parse); }
  }

  /** A file that only grows is observed again and again, each time at the size it then has; any run may stop early.
      After a run that did not stop, the reports behind the checkpoint count every complete line, from where coverage
      starts, exactly once; and it starts at 0 if the first run that completed saw no more than `maxScanBytes` bytes. */
  method Watch(file: Bytes, sourceId: string, metadataHash: string, sizes: seq<nat>, stops: seq<nat>, limits: Limits, parse: Parser)
    returns (inventory: Inventory, first: Option<nat>)
    requires |sizes| == |stops| && (forall i, j | 0 <= i <= j < |sizes| :: sizes[i] <= sizes[j] <= |file|)
    ensures inventory.Valid(parse)
    ensures first == FirstCompleted(sizes, stops, |sizes|)
    ensures sizes != [] && stops[|stops| - 1] >= 3 ==>
              CountedOnce(inventory.checkpoint.sources, sourceId, file[..sizes[|sizes| - 1]], first, limits, parse)
  {
    inventory := new Inventory(parse);
    var size: nat := 0;
    var completed := false;
    first := None;
    for i := 0 to |sizes|
      invariant fresh(inventory) && inventory.Valid(parse)
      invariant size <= |file| && (i < |sizes| ==> size <= sizes[i])
      invariant first == FirstCompleted(sizes, stops, i)
      invariant i > 0 ==> size == sizes[i - 1] && completed == (stops[i - 1] >= 3)
      invariant Watching(inventory.checkpoint.sources, sourceId, metadataHash, file, size, first, limits, parse)
      invariant completed ==> CountedOnce(inventory.checkpoint.sources, sourceId, file[..size], first, limits, parse)
    {
      first := WatchOnce(inventory, file, sourceId, metadataHash, size, sizes[i], stops[i], first, limits, parse);
      size, completed := sizes[i], stops[i] >= 3;
    }
  }

  /** The size that the first of n runs to complete saw. */
  function FirstCompleted(sizes: seq<nat>, stops: seq<nat>, n: nat): Option<nat>
    requires n <= |sizes| == |stops|
  {
    if n == 0 then None
    else
      var earlier := FirstCompleted(sizes, stops, n - 1);
      if earlier.Some? then earlier else if stops[n - 1] >= 3 then Some(sizes[n - 1]) else None
  }

  ghost predicate CountedOnce(sources: Sources, sourceId: string, bytes: Bytes, first: Option<nat>, limits: Limits, parse: Parser) {
    && sourceId in sources && CaughtUp(sources[sourceId], bytes) && ScannedOnce(sources[sourceId], bytes, parse)
    && first.Some? && (first.value <= limits.maxScanBytes ==> sources[sourceId].coverageStart == 0)
  }

  /** A file that was rewritten behind the same first line, with as many bytes as were scanned: the run sees nothing new,
      and the entry does not cover the file. */
  lemma RewrittenUnnoticed(e: Entry, c: Candidate, limits: Limits, parse: Parser)
    requires EntryOk(e, parse) && c.readable && c.metadataHash == e.metadataHash
    requires e.coverageStart <= |c.bytes| == e.nextOffset && c.bytes[e.coverageStart..] != BytesOf(e.chain)
    ensures EntryAfter(c, Some(e), limits, parse) == Some(e) && !CaughtUp(e, c.bytes)
  {
    NothingBehind(c.bytes, parse);
    assert c.bytes[e.coverageStart..e.nextOffset] == c.bytes[e.coverageStart..];
    CaughtUpExactly(c, Some(e), limits, parse);
  }
}
