/** The hash-chained log of `src/event-store.mjs`: record files, the chain they form and the head that
    commits to it.

    A SHA-256 digest is modelled by the value it was taken of, so equal digests mean equal contents by
    construction. `OtherId`, `OtherDigest` and `OtherHeadHash` stand for every hex string that is not the
    digest of such a value. */
module EventChain {
  import opened Wrappers

  type Key = string

  predicate IsHash(s: string) {
    |s| == 64 && forall i | 0 <= i < |s| :: '0' <= s[i] <= '9' || 'a' <= s[i] <= 'f'
  }

  datatype Digest = DigestOf(payload: string) | OtherDigest(code: nat)

  datatype Id = Sha(core: Core) | OtherId(code: nat)

  /** An event without its `eventId`. `shaped` is the outcome of the field-set and field-format checks that
      need no context; `body` holds the fields the store never looks at. */
  datatype Core = Core(schemaVersion: int, shaped: bool, key: Key, sequence: int, recordedAt: int, body: string,
                       payload: string, payloadHash: Digest, previous: Option<Id>)

  datatype Event = Event(core: Core, eventId: Id)

  datatype Content = Unparsable | Parsed(event: Event)

  /** A record file: the sequence and id in its name, and what `JSON.parse` makes of its text. */
  datatype RecordFile = RecordFile(sequence: nat, id: Id, content: Content)

  datatype Input = Input(key: Key, shaped: bool, body: string, payload: string)

  predicate ValidInput(input: Input) {
    IsHash(input.key) && input.shaped
  }

  // ---- the stored chain ----

  predicate ValidStored(file: RecordFile, sequence: int, previous: Option<Id>) {
    && file.content.Parsed?
    && var event := file.content.event;
    && event.core.shaped && IsHash(event.core.key)
    && event.core.schemaVersion == 1
    && event.core.sequence == sequence == file.sequence
    && file.id == event.eventId
    && event.core.previous == previous
    && event.core.payloadHash == DigestOf(event.core.payload)
    && event.eventId == Sha(event.core)
  }

  function IdBefore(files: seq<RecordFile>, i: nat): Option<Id>
    requires i <= |files|
  {
    if i == 0 then None else Some(files[i - 1].id)
  }

  predicate LinkedAt(files: seq<RecordFile>, i: nat)
    requires i < |files|
  {
    ValidStored(files[i], i + 1, IdBefore(files, i))
  }

  /** Contiguous from sequence 1, every record self-consistent and linked to the one before it. */
  predicate Linked(files: seq<RecordFile>) {
    forall i | 0 <= i < |files| :: LinkedAt(files, i)
  }

  function KeyOf(file: RecordFile): Key {
    if file.content.Parsed? then file.content.event.core.key else ""
  }

  predicate DistinctKeys(files: seq<RecordFile>) {
    forall i, j | 0 <= i < j < |files| :: KeyOf(files[i]) != KeyOf(files[j])
  }

  /** What a full verification accepts. */
  ghost predicate Verified(files: seq<RecordFile>) {
    Linked(files) && DistinctKeys(files)
  }

  /** Two files of one sequence: a parallel chain. */
  predicate NoParallelChain(files: seq<RecordFile>) {
    forall i, j | 0 <= i < j < |files| :: files[i].sequence != files[j].sequence
  }

  predicate Readable(files: seq<RecordFile>) {
    forall i | 0 <= i < |files| :: files[i].content.Parsed?
  }

  function Keys(files: seq<RecordFile>): set<Key> {
    set i | 0 <= i < |files| :: KeyOf(files[i])
  }

  function EventsOf(files: seq<RecordFile>): seq<Event>
    requires Readable(files)
  {
    seq(|files|, i requires 0 <= i < |files| => files[i].content.event)
  }

  function FileOf(event: Event): RecordFile
    requires event.core.sequence >= 0
  {
    RecordFile(event.core.sequence, event.eventId, Parsed(event))
  }

  function BuildEvent(input: Input, sequence: int, previous: Option<Id>, now: int): Event {
    var core := Core(1, input.shaped, input.key, sequence, now, input.body, input.payload, DigestOf(input.payload), previous);
    Event(core, Sha(core))
  }

  // ---- the head ----

  datatype HeadCore = HeadCore(schemaVersion: int, sequence: int, eventId: Option<Id>, previous: Option<Id>,
                               recordedAt: Option<int>)

  datatype HeadHash = HashOf(core: HeadCore) | OtherHeadHash(code: nat)

  datatype Head = Head(core: HeadCore, headHash: HeadHash)

  /** The text of `head.json`: not JSON at all, or the value it parses to. */
  datatype HeadText = Garbage(code: nat) | Json(head: Head)

  function HeadOfLast(last: Option<Event>): Head {
    var core := match last
      case None => HeadCore(1, 0, None, None, None)
      case Some(e) => HeadCore(1, e.core.sequence, Some(e.eventId), e.core.previous, Some(e.core.recordedAt));
    Head(core, HashOf(core))
  }

  function LastEvent(files: seq<RecordFile>): Option<Event> {
    if files != [] && files[|files| - 1].content.Parsed? then Some(files[|files| - 1].content.event) else None
  }

  function ExpectedHead(files: seq<RecordFile>): Head {
    HeadOfLast(LastEvent(files))
  }

  /** The head file commits to exactly these records; an empty store has no head file. */
  predicate HeadMatches(files: seq<RecordFile>, head: Option<HeadText>) {
    if files == [] then head == None else head == Some(Json(ExpectedHead(files)))
  }

  // ---- what the definitions say ----

  /** The keys of the store are the lower-case hexadecimal digests, and nothing else. */
  lemma HashIsHex(s: string)
    ensures IsHash(s) <==> |s| == 64 && forall c | c in s :: c in "0123456789abcdef"
  {
    if IsHash(s) {
      forall c | c in s ensures c in "0123456789abcdef" { IsHexDigit(c); }
    }
    if forall c | c in s :: c in "0123456789abcdef" {
      forall i | 0 <= i < |s| ensures '0' <= s[i] <= '9' || 'a' <= s[i] <= 'f' { IsHexDigit(s[i]); }
    }
  }

  lemma IsHexDigit(c: char)
    ensures '0' <= c <= '9' || 'a' <= c <= 'f' <==> c in "0123456789abcdef"
  {
    var digits := "0123456789abcdef";
    if '0' <= c <= '9' {
      assert digits[c as int - '0' as int] == c;
    } else if 'a' <= c <= 'f' {
      assert digits[10 + c as int - 'a' as int] == c;
    }
  }

  lemma ParallelExactly(files: seq<RecordFile>)
    ensures !NoParallelChain(files) <==>
              exists i, j :: 0 <= i < |files| && 0 <= j < |files| && i != j && files[i].sequence == files[j].sequence
  {
    if i, j :| 0 <= i < |files| && 0 <= j < |files| && i != j && files[i].sequence == files[j].sequence {
      var a, b := if i < j then i else j, if i < j then j else i;
      assert files[a].sequence == files[b].sequence;
    }
  }

  /** A record validates at a place of the chain exactly when a writer at that place could have written it. */
  lemma ValidMeansWritten(file: RecordFile, sequence: nat, previous: Option<Id>)
    ensures ValidStored(file, sequence, previous) <==>
              exists input, now :: ValidInput(input) && file == FileOf(BuildEvent(input, sequence, previous, now))
  {
    if ValidStored(file, sequence, previous) {
      var core := file.content.event.core;
      var input := Input(core.key, core.shaped, core.body, core.payload);
      assert ValidInput(input) && file == FileOf(BuildEvent(input, sequence, previous, core.recordedAt));
    }
  }

  /** The published head of a linked chain: it counts the records, and repeats id, link and time of the last one. */
  lemma HeadNamesTip(files: seq<RecordFile>, head: Option<HeadText>)
    requires Linked(files)
    ensures files == [] ==> (HeadMatches(files, head) <==> head == None)
    ensures files == [] ==>
              var h := ExpectedHead(files);
              && h.core.schemaVersion == 1 && h.core.sequence == 0 && h.core.eventId == None && h.core.previous == None
              && h.core.recordedAt == None && h.headHash == HashOf(h.core)
    ensures files != [] ==>
              var last := files[|files| - 1];
              && last.content.Parsed?
              && (HeadMatches(files, head) <==>
                  && head.Some? && head.value.Json?
                  && var h := head.value.head;
                     && h.core.schemaVersion == 1 && h.core.sequence == |files|
                     && h.core.eventId == Some(last.id)
                     && h.core.previous == (if |files| == 1 then None else Some(files[|files| - 2].id))
                     && h.core.recordedAt == Some(last.content.event.core.recordedAt)
                     && h.headHash == HashOf(h.core))
  {
    if files != [] { assert LinkedAt(files, |files| - 1); }
  }

  // ---- the chain determines everything before it ----

  lemma VerifiedPrefix(files: seq<RecordFile>, n: nat)
    requires n <= |files|
    ensures Linked(files) ==> Linked(files[..n])
    ensures DistinctKeys(files) ==> DistinctKeys(files[..n])
  {
    if Linked(files) {
      forall i | 0 <= i < n ensures LinkedAt(files[..n], i) {
        assert LinkedAt(files, i);
      }
    }
  }

  lemma LinkedHasNoParallelChain(files: seq<RecordFile>)
    requires Linked(files)
    ensures NoParallelChain(files) && Readable(files)
  {
    forall i | 0 <= i < |files| ensures files[i].sequence == i + 1 && files[i].content.Parsed? {
      assert LinkedAt(files, i);
    }
  }

  lemma IdDeterminesRecord(f: RecordFile, m: int, p: Option<Id>, g: RecordFile, n: int, q: Option<Id>)
    requires ValidStored(f, m, p) && ValidStored(g, n, q) && f.id == g.id
    ensures f == g && m == n && p == q
  {
  }

  /** Backwards along the links: records that agree on an id agree on everything before it. */
  lemma {:induction false} AgreeBefore(a: seq<RecordFile>, b: seq<RecordFile>, m: nat, n: nat)
    requires Linked(a) && Linked(b)
    requires 0 < m <= |a| && 0 < n <= |b| && a[m - 1].id == b[n - 1].id
    ensures m == n && forall i | 0 <= i < m :: a[i] == b[i]
    decreases m
  {
    assert LinkedAt(a, m - 1) && LinkedAt(b, n - 1);
    IdDeterminesRecord(a[m - 1], m, IdBefore(a, m - 1), b[n - 1], n, IdBefore(b, n - 1));
    if m > 1 {
      AgreeBefore(a, b, m - 1, n - 1);
    }
  }

  /** A record that validates carries its whole past: equal last ids mean equal chains. */
  lemma LastIdDeterminesChain(a: seq<RecordFile>, b: seq<RecordFile>)
    requires Linked(a) && Linked(b)
    requires a != [] && b != [] && a[|a| - 1].id == b[|b| - 1].id
    ensures a == b
  {
    AgreeBefore(a, b, |a|, |b|);
  }

  /** Head commitment: two stores that verify under one head hash hold the same records. */
  lemma HeadCommitment(a: seq<RecordFile>, b: seq<RecordFile>)
    requires Linked(a) && Linked(b)
    ensures ExpectedHead(a).headHash == ExpectedHead(b).headHash <==> a == b
  {
    if ExpectedHead(a).headHash == ExpectedHead(b).headHash {
      if a != [] {
        assert LinkedAt(a, |a| - 1);
      }
      if b != [] {
        assert LinkedAt(b, |b| - 1);
      }
      if a != [] && b != [] {
        LastIdDeterminesChain(a, b);
      }
    }
  }

  /** A head pins the part of a longer chain it was taken of. */
  lemma HeadPinsPrefix(files: seq<RecordFile>, m: nat, n: nat)
    requires Linked(files) && m <= |files| && n <= |files|
    requires ExpectedHead(files[..m]) == ExpectedHead(files[..n])
    ensures m == n
  {
    VerifiedPrefix(files, m);
    VerifiedPrefix(files, n);
    HeadCommitment(files[..m], files[..n]);
    assert |files[..m]| == m && |files[..n]| == n;
  }

  /** A freshly built event links to the chain it was built for. */
  lemma ExtendLinked(files: seq<RecordFile>, input: Input, now: int)
    requires Linked(files) && ValidInput(input)
    ensures Linked(files + [FileOf(BuildEvent(input, |files| + 1, IdBefore(files, |files|), now))])
  {
    var longer := files + [FileOf(BuildEvent(input, |files| + 1, IdBefore(files, |files|), now))];
    forall i | 0 <= i < |longer| ensures LinkedAt(longer, i) {
      if i < |files| {
        assert LinkedAt(files, i);
      }
    }
  }

  /** One more record keeps the keys distinct exactly when its key is new. */
  lemma ExtendDistinct(files: seq<RecordFile>, file: RecordFile)
    requires DistinctKeys(files)
    ensures DistinctKeys(files + [file]) <==> KeyOf(file) !in Keys(files)
    ensures Keys(files + [file]) == Keys(files) + {KeyOf(file)}
  {
    var longer := files + [file];
    assert KeyOf(longer[|files|]) in Keys(longer);
    forall i | 0 <= i < |files| ensures KeyOf(files[i]) in Keys(longer) {
      assert longer[i] == files[i];
    }
    if KeyOf(file) in Keys(files) {
      var i :| 0 <= i < |files| && KeyOf(files[i]) == KeyOf(file);
      assert longer[i] == files[i] && longer[|files|] == file;
    }
  }
}
