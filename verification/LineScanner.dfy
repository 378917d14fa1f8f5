/** `scanCompleteLines` of `src/codex-inventory.mjs`: one pass over the chunks of a growing file of JSON lines. */
module LineScanner {
  import opened Wrappers

  type Bytes = seq<int>

  const NEWLINE := 0x0A
  const RETURN := 0x0D

  /** What a line says: nothing (it does not parse, or parses to a false value), or a kind, and perhaps a time and a
      lifecycle event. */
  datatype Row = NotARow | Row(kind: string, timestamp: Option<string>, lifecycle: Option<string>)

  type Parser = Bytes -> Row

  // ---- counting kinds ----

  /** The counts are an ordinary JavaScript object: reading a kind that names an inherited property finds that
      property, and adding 1 to it makes a text. */
  datatype Cell = Number(n: nat) | Garbled

  type Counts = map<string, Cell>

  function Inherited(): set<string> {
    {"constructor", "hasOwnProperty", "isPrototypeOf", "propertyIsEnumerable", "toLocaleString", "toString", "valueOf",
     "__proto__", "__defineGetter__", "__defineSetter__", "__lookupGetter__", "__lookupSetter__"}
  }

  /** `addCount`. Assigning a text to `__proto__` does nothing. */
  function AddCount(counts: Counts, kind: string): Counts {
    if kind == "__proto__" then counts
    else if kind in counts then counts[kind := if counts[kind].Number? then Number(counts[kind].n + 1) else Garbled]
    else counts[kind := if kind in Inherited() then Garbled else Number(1)]
  }

  // ---- lines ----

  /** The position of the first newline, or -1. */
  function FirstNewline(b: Bytes): (n: int)
    ensures -1 <= n < |b|
    ensures n < 0 ==> NEWLINE !in b
    ensures n >= 0 ==> b[n] == NEWLINE && NEWLINE !in b[..n]
  {
    if b == [] then -1
    else if b[0] == NEWLINE then 0
    else
      var n := FirstNewline(b[1..]);
      if n < 0 then -1 else
        assert b[..n + 1] == [b[0]] + b[1..][..n];
        n + 1
  }

  /** The complete lines of a text, each with its newline. */
  function LinesOf(b: Bytes): seq<Bytes>
    decreases |b|
  {
    var n := FirstNewline(b);
    if n < 0 then [] else [b[..n + 1]] + LinesOf(b[n + 1..])
  }

  function Concat(parts: seq<Bytes>): Bytes {
    if parts == [] then [] else parts[0] + Concat(parts[1..])
  }

  /** The complete lines: the text up to its last newline. */
  function Complete(b: Bytes): Bytes {
    Concat(LinesOf(b))
  }

  predicate WholeLine(line: Bytes) {
    line != [] && FirstNewline(line) == |line| - 1
  }

  predicate WholeLines(lines: seq<Bytes>) {
    forall i | 0 <= i < |lines| :: WholeLine(lines[i])
  }

  // ---- what a scan reports ----

  datatype Tally = Tally(counts: Counts, malformed: nat, first: Option<string>, last: Option<string>, lifecycle: Option<string>)

  /** `bytes` stands for the hash of the bytes scanned. */
  datatype Segment = Segment(start: nat, next: nat, bytes: Bytes, tally: Tally)

  const NOTHING: Tally := Tally(map[], 0, None, None, None)

  function LineText(line: Bytes): Bytes
    requires line != []
  {
    var text := line[..|line| - 1];
    if text != [] && text[|text| - 1] == RETURN then text[..|text| - 1] else text
  }

  function RowOf(line: Bytes, parse: Parser): Row {
    if line == [] then NotARow else parse(LineText(line))
  }

  function AddRow(t: Tally, row: Row): Tally {
    match row
    case NotARow => t.(malformed := t.malformed + 1)
    case Row(kind, timestamp, lifecycle) =>
      Tally(AddCount(t.counts, kind), t.malformed,
            if t.first == None then timestamp else t.first,
            if timestamp.Some? then timestamp else t.last,
            if lifecycle.Some? then lifecycle else t.lifecycle)
  }

  function TallyFrom(t: Tally, lines: seq<Bytes>, parse: Parser): Tally
    decreases |lines|
  {
    if lines == [] then t else TallyFrom(AddRow(t, RowOf(lines[0], parse)), lines[1..], parse)
  }

  function TallyOf(lines: seq<Bytes>, parse: Parser): Tally {
    TallyFrom(NOTHING, lines, parse)
  }

  /** Where the scan starts counting: after the first newline, when the start may lie within a line. */
  function Skipped(b: Bytes, discard: bool): nat {
    if discard && FirstNewline(b) >= 0 then FirstNewline(b) + 1 else 0
  }

  /** The scan of a text that starts at an offset of its file. */
  function ScanOf(b: Bytes, start: nat, discard: bool, parse: Parser): Segment {
    var body := b[Skipped(b, discard)..];
    var done := Complete(body);
    Segment(start + Skipped(b, discard), start + Skipped(b, discard) + |done|, done, TallyOf(LinesOf(body), parse))
  }

  // ---- lines and concatenation ----

  lemma {:induction false} FirstIs(b: Bytes, n: nat)
    requires n < |b| && b[n] == NEWLINE && forall i | 0 <= i < n :: b[i] != NEWLINE
    ensures FirstNewline(b) == n
  {
    if n > 0 { FirstIs(b[1..], n - 1); }
  }

  lemma NewlineAtEnd(line: Bytes, rest: Bytes)
    requires WholeLine(line)
    ensures FirstNewline(line + rest) == |line| - 1
  {
    var n := |line| - 1;
    forall i | 0 <= i < n ensures (line + rest)[i] != NEWLINE {
      assert (line + rest)[i] == line[..n][i];
    }
    FirstIs(line + rest, n);
  }

  lemma FirstLineIsWhole(b: Bytes)
    requires FirstNewline(b) >= 0
    ensures WholeLine(b[..FirstNewline(b) + 1])
  {
    var n := FirstNewline(b);
    var line := b[..n + 1];
    forall i | 0 <= i < n ensures line[i] != NEWLINE {
      assert line[i] == b[..n][i];
    }
    FirstIs(line, n);
  }

  lemma {:induction false} LinesAfterLines(lines: seq<Bytes>, rest: Bytes)
    requires WholeLines(lines)
    ensures LinesOf(Concat(lines) + rest) == lines + LinesOf(rest)
  {
    if lines == [] {
      assert Concat(lines) + rest == rest;
    } else {
      LinesAfterLines(lines[1..], rest);
      OneLineMore(lines[0], lines[1..], Concat(lines[1..]), rest, LinesOf(rest));
      assert lines == [lines[0]] + lines[1..];
    }
  }

  lemma OneLineMore(first: Bytes, tail: seq<Bytes>, text: Bytes, rest: Bytes, last: seq<Bytes>)
    requires WholeLine(first) && LinesOf(text + rest) == tail + last
    ensures LinesOf(first + text + rest) == [first] + tail + last
  {
    Regroup(first, text, rest);
    LineFirst(first, text + rest);
    assert [first] + (tail + last) == [first] + tail + last;
  }

  lemma Regroup(a: Bytes, b: Bytes, c: Bytes)
    ensures (a + b) + c == a + (b + c)
  {
  }

  lemma LineFirst(line: Bytes, more: Bytes)
    requires WholeLine(line)
    ensures LinesOf(line + more) == [line] + LinesOf(more)
  {
    NewlineAtEnd(line, more);
    assert (line + more)[..|line|] == line && (line + more)[|line|..] == more;
  }

  lemma {:induction false} LinesAreWhole(b: Bytes)
    ensures WholeLines(LinesOf(b))
    ensures Complete(b) <= b && NEWLINE !in b[|Complete(b)|..]
    decreases |b|
  {
    var n := FirstNewline(b);
    if n >= 0 {
      var line, rest := b[..n + 1], b[n + 1..];
      LinesAreWhole(rest);
      FirstLineIsWhole(b);
      assert b == line + rest;
      assert Complete(b) == line + Complete(rest);
      assert b[|Complete(b)|..] == rest[|Complete(rest)|..];
    }
  }

  /** Scanning on from the last newline sees the remaining lines, and no line twice. */
  lemma Resume(before: Bytes, after: Bytes)
    requires before <= after
    ensures Complete(before) <= after
    ensures LinesOf(after) == LinesOf(before) + LinesOf(after[|Complete(before)|..])
    ensures Complete(after) == Complete(before) + Complete(after[|Complete(before)|..])
  {
    LinesAreWhole(before);
    var done := Complete(before);
    assert after == done + after[|done|..];
    LinesAfterLines(LinesOf(before), after[|done|..]);
    ConcatOfBoth(LinesOf(before), LinesOf(after[|done|..]));
  }

  lemma {:induction false} ConcatOfBoth(a: seq<Bytes>, b: seq<Bytes>)
    ensures Concat(a + b) == Concat(a) + Concat(b)
  {
    if a == [] {
      assert a + b == b;
    } else {
      assert (a + b)[0] == a[0] && (a + b)[1..] == a[1..] + b;
      ConcatOfBoth(a[1..], b);
    }
  }

  lemma {:induction false} TallyOfBoth(t: Tally, a: seq<Bytes>, b: seq<Bytes>, parse: Parser)
    ensures TallyFrom(t, a + b, parse) == TallyFrom(TallyFrom(t, a, parse), b, parse)
    decreases |a|
  {
    if a == [] {
      assert a + b == b;
    } else {
      assert (a + b)[0] == a[0] && (a + b)[1..] == a[1..] + b;
      TallyOfBoth(AddRow(t, RowOf(a[0], parse)), a[1..], b, parse);
    }
  }

  // ---- the scanner ----

  /** The lines of the body so far are counted, except those still in the buffer. */
  ghost predicate CountedTo(body: Bytes, lines: seq<Bytes>, buffer: Bytes, committed: Bytes, tally: Tally, parse: Parser) {
    && WholeLines(lines) && committed == Concat(lines) && body == committed + buffer && tally == TallyOf(lines, parse)
  }

  lemma CountLine(body: Bytes, lines: seq<Bytes>, buffer: Bytes, committed: Bytes, tally: Tally, parse: Parser)
    requires CountedTo(body, lines, buffer, committed, tally, parse) && FirstNewline(buffer) >= 0
    ensures var line, rest := buffer[..FirstNewline(buffer) + 1], buffer[FirstNewline(buffer) + 1..];
            CountedTo(body, lines + [line], rest, committed + line, AddRow(tally, RowOf(line, parse)), parse)
  {
    var n := FirstNewline(buffer);
    var line := buffer[..n + 1];
    FirstLineIsWhole(buffer);
    ConcatMore(lines, line);
    TallyMore(lines, line, parse);
    MoveOver(committed, line, buffer[n + 1..]);
    assert buffer == line + buffer[n + 1..];
  }

  lemma ConcatMore(lines: seq<Bytes>, line: Bytes)
    ensures Concat(lines + [line]) == Concat(lines) + line
  {
    ConcatOfBoth(lines, [line]);
    assert [line][1..] == [];
  }

  lemma TallyMore(lines: seq<Bytes>, line: Bytes, parse: Parser)
    ensures TallyOf(lines + [line], parse) == AddRow(TallyOf(lines, parse), RowOf(line, parse))
  {
    TallyOfBoth(NOTHING, lines, [line], parse);
    assert [line][1..] == [];
  }

  lemma MoveOver(committed: Bytes, line: Bytes, rest: Bytes)
    ensures committed + (line + rest) == (committed + line) + rest
  {
  }

  lemma CountChunk(body: Bytes, lines: seq<Bytes>, buffer: Bytes, committed: Bytes, tally: Tally, parse: Parser, chunk: Bytes)
    requires CountedTo(body, lines, buffer, committed, tally, parse)
    ensures CountedTo(body + chunk, lines, buffer + chunk, committed, tally, parse)
  {
  }

  lemma AllCounted(body: Bytes, lines: seq<Bytes>, buffer: Bytes, committed: Bytes, tally: Tally, parse: Parser)
    requires CountedTo(body, lines, buffer, committed, tally, parse) && FirstNewline(buffer) < 0
    ensures committed == Complete(body) && tally == TallyOf(LinesOf(body), parse)
  {
    LinesAfterLines(lines, buffer);
    assert lines + [] == lines;
  }

  lemma FirstNewlineGrows(b: Bytes, chunk: Bytes)
    requires FirstNewline(b) >= 0
    ensures FirstNewline(b + chunk) == FirstNewline(b)
  {
    var n := FirstNewline(b);
    FirstLineIsWhole(b);
    assert b + chunk == b[..n + 1] + (b[n + 1..] + chunk);
    NewlineAtEnd(b[..n + 1], b[n + 1..] + chunk);
  }

  lemma {:induction false} ConcatLast(parts: seq<Bytes>, i: nat)
    requires i < |parts|
    ensures Concat(parts[..i + 1]) == Concat(parts[..i]) + parts[i]
  {
    assert parts[..i + 1] == parts[..i] + [parts[i]];
    ConcatOfBoth(parts[..i], [parts[i]]);
    assert Concat([parts[i]]) == parts[i];
  }

  /** What the loop over the chunks keeps. */
  ghost predicate ScannedTo(seen: Bytes, start: nat, discard: bool, pending: bool, effective: nat, buffer: Bytes,
                            lines: seq<Bytes>, committed: Bytes, tally: Tally, parse: Parser)
  {
    && (pending <==> discard && FirstNewline(seen) < 0)
    && effective == start + Skipped(seen, discard)
    && CountedTo(seen[Skipped(seen, discard)..], lines, buffer, committed, tally, parse)
    && FirstNewline(buffer) < 0
    && (pending ==> lines == [])
  }

  /** A chunk arrives, and the partial first line may end. */
  lemma ChunkArrives(seen: Bytes, chunk: Bytes, start: nat, discard: bool, pending: bool, effective: nat, buffer: Bytes,
                     lines: seq<Bytes>, committed: Bytes, tally: Tally, parse: Parser)
    requires ScannedTo(seen, start, discard, pending, effective, buffer, lines, committed, tally, parse)
    ensures var all, joined := seen + chunk, buffer + chunk;
            var cut := if pending && FirstNewline(joined) >= 0 then FirstNewline(joined) + 1 else 0;
            && (pending ==> joined == all)
            && Skipped(all, discard) == Skipped(seen, discard) + cut
            && CountedTo(all[Skipped(all, discard)..], lines, joined[cut..], committed, tally, parse)
  {
    var all, joined := seen + chunk, buffer + chunk;
    if pending {
      NothingCommitted(seen, buffer, lines, committed);
      var cut := if FirstNewline(joined) >= 0 then FirstNewline(joined) + 1 else 0;
      assert all[cut..] == [] + joined[cut..];
    } else {
      if discard { FirstNewlineGrows(seen, chunk); }
      CountChunk(seen[Skipped(seen, discard)..], lines, buffer, committed, tally, parse, chunk);
      SuffixGrows(seen, Skipped(seen, discard), chunk);
      assert joined[0..] == joined;
    }
  }

  lemma NothingCommitted(seen: Bytes, buffer: Bytes, lines: seq<Bytes>, committed: Bytes)
    requires lines == [] && committed == Concat(lines) && seen[0..] == committed + buffer
    ensures committed == [] && buffer == seen
  {
  }

  lemma SuffixGrows(seen: Bytes, k: nat, chunk: Bytes)
    requires k <= |seen|
    ensures (seen + chunk)[k..] == seen[k..] + chunk
  {
  }

  lemma AllScanned(seen: Bytes, start: nat, discard: bool, pending: bool, effective: nat, buffer: Bytes,
                   lines: seq<Bytes>, committed: Bytes, tally: Tally, parse: Parser)
    requires ScannedTo(seen, start, discard, pending, effective, buffer, lines, committed, tally, parse)
    ensures ScanOf(seen, start, discard, parse) == Segment(effective, effective + |committed|, committed, tally)
  {
    AllCounted(seen[Skipped(seen, discard)..], lines, buffer, committed, tally, parse);
  }

  /** The inner loop: every line that is complete now. */
  method TakeLines(committed0: Bytes, tally0: Tally, buffer0: Bytes, parse: Parser, ghost body: Bytes, ghost lines0: seq<Bytes>)
    returns (committed: Bytes, tally: Tally, buffer: Bytes, ghost lines: seq<Bytes>)
    requires CountedTo(body, lines0, buffer0, committed0, tally0, parse)
    ensures CountedTo(body, lines, buffer, committed, tally, parse) && FirstNewline(buffer) < 0
  {
    committed, tally, buffer, lines := committed0, tally0, buffer0, lines0;
    while FirstNewline(buffer) >= 0
      invariant CountedTo(body, lines, buffer, committed, tally, parse)
      decreases |buffer|
    {
      CountLine(body, lines, buffer, committed, tally, parse);
      var newline := FirstNewline(buffer);
      var line := buffer[..newline + 1];
      committed := committed + line;
      tally := AddRow(tally, RowOf(line, parse));
      buffer := buffer[newline + 1..];
      lines := lines + [line];
    }
  }

  /** `scanCompleteLines`. However the stream cuts the bytes into chunks, the report is the one of the whole text. */
  method ScanCompleteLines(chunks: seq<Bytes>, requestedStart: nat, discardPartialStart: bool, parse: Parser) returns (s: Segment)
    ensures s == ScanOf(Concat(chunks), requestedStart, discardPartialStart, parse)
  {
    var tally := NOTHING;
    var buffer: Bytes := [];
    var effectiveStart: nat := requestedStart;
    var committed: Bytes := [];
    var discardPending := discardPartialStart;
    ghost var lines: seq<Bytes> := [];
    ghost var seen: Bytes := [];
    for i := 0 to |chunks|
      invariant seen == Concat(chunks[..i])
      invariant ScannedTo(seen, requestedStart, discardPartialStart, discardPending, effectiveStart, buffer, lines, committed,
                          tally, parse)
    {
      ChunkArrives(seen, chunks[i], requestedStart, discardPartialStart, discardPending, effectiveStart, buffer, lines,
                   committed, tally, parse);
      ConcatLast(chunks, i);
      seen := seen + chunks[i];
      buffer := buffer + chunks[i];
      if discardPending {
        var newline := FirstNewline(buffer);
        if newline < 0 {
          continue;
        }
        effectiveStart := effectiveStart + newline + 1;
        buffer := buffer[newline + 1..];
        discardPending := false;
      }
      ghost var body := seen[Skipped(seen, discardPartialStart)..];
      committed, tally, buffer, lines := TakeLines(committed, tally, buffer, parse, body, lines);
    }
    assert chunks[..|chunks|] == chunks;
    AllScanned(seen, requestedStart, discardPartialStart, discardPending, effectiveStart, buffer, lines, committed, tally, parse);
    s := Segment(effectiveStart, effectiveStart + |committed|, committed, tally);
  }

  // ---- what the counts mean ----

  function Occurrences(lines: seq<Bytes>, kind: string, parse: Parser): nat {
    if lines == [] then 0
    else (if RowOf(lines[0], parse).Row? && RowOf(lines[0], parse).kind == kind then 1 else 0) + Occurrences(lines[1..], kind, parse)
  }

  function Unreadable(lines: seq<Bytes>, parse: Parser): nat {
    if lines == [] then 0
    else (if RowOf(lines[0], parse).NotARow? then 1 else 0) + Unreadable(lines[1..], parse)
  }

  /** The number reported for a kind; a kind that is not listed was not seen. */
  function Reported(counts: Counts, kind: string): Option<nat> {
    if kind !in counts then Some(0) else if counts[kind].Number? then Some(counts[kind].n) else None
  }

  lemma {:induction false} CountsFrom(t: Tally, lines: seq<Bytes>, kind: string, parse: Parser)
    requires kind !in Inherited() && Reported(t.counts, kind).Some?
    ensures var after := TallyFrom(t, lines, parse);
            && Reported(after.counts, kind) == Some(Reported(t.counts, kind).value + Occurrences(lines, kind, parse))
            && after.malformed == t.malformed + Unreadable(lines, parse)
    decreases |lines|
  {
    if lines != [] {
      CountsFrom(AddRow(t, RowOf(lines[0], parse)), lines[1..], kind, parse);
    }
  }

  lemma {:induction false} GarbledFrom(t: Tally, lines: seq<Bytes>, kind: string, parse: Parser)
    requires kind in Inherited() && (kind in t.counts ==> kind != "__proto__" && t.counts[kind] == Garbled)
    ensures Reported(TallyFrom(t, lines, parse).counts, kind)
         == if kind == "__proto__" || (kind !in t.counts && Occurrences(lines, kind, parse) == 0) then Some(0) else None
    decreases |lines|
  {
    if lines != [] {
      GarbledFrom(AddRow(t, RowOf(lines[0], parse)), lines[1..], kind, parse);
    }
  }

  /** The number reported for a kind is the number of its lines, unless the kind occurs and every JavaScript object
      inherits a property of that name. */
  lemma CountIsRight(lines: seq<Bytes>, kind: string, parse: Parser)
    ensures Reported(TallyOf(lines, parse).counts, kind) == Some(Occurrences(lines, kind, parse))
        <==> kind !in Inherited() || Occurrences(lines, kind, parse) == 0
    ensures TallyOf(lines, parse).malformed == Unreadable(lines, parse)
  {
    CountsFrom(NOTHING, lines, "", parse);
    if kind in Inherited() { GarbledFrom(NOTHING, lines, kind, parse); } else { CountsFrom(NOTHING, lines, kind, parse); }
  }

  lemma {:induction false} OccurrencesOfBoth(a: seq<Bytes>, b: seq<Bytes>, kind: string, parse: Parser)
    ensures Occurrences(a + b, kind, parse) == Occurrences(a, kind, parse) + Occurrences(b, kind, parse)
    ensures Unreadable(a + b, parse) == Unreadable(a, parse) + Unreadable(b, parse)
  {
    if a == [] {
      assert a + b == b;
    } else {
      assert (a + b)[0] == a[0] && (a + b)[1..] == a[1..] + b;
      OccurrencesOfBoth(a[1..], b, kind, parse);
    }
  }

  /** The last lifecycle event of a run of lines, or what was known before. */
  lemma {:induction false} LifecycleFrom(t: Tally, lines: seq<Bytes>, parse: Parser)
    ensures TallyFrom(t, lines, parse).lifecycle
         == if TallyOf(lines, parse).lifecycle.Some? then TallyOf(lines, parse).lifecycle else t.lifecycle
    decreases |lines|
  {
    if lines != [] {
      var row := RowOf(lines[0], parse);
      LifecycleFrom(AddRow(t, row), lines[1..], parse);
      LifecycleFrom(AddRow(NOTHING, row), lines[1..], parse);
    }
  }

  lemma LifecycleOfBoth(a: seq<Bytes>, b: seq<Bytes>, parse: Parser)
    ensures TallyOf(a + b, parse).lifecycle
         == if TallyOf(b, parse).lifecycle.Some? then TallyOf(b, parse).lifecycle else TallyOf(a, parse).lifecycle
  {
    TallyOfBoth(NOTHING, a, b, parse);
    LifecycleFrom(TallyOf(a, parse), b, parse);
  }

  /** A scan from the end of a file leaves off at a line boundary exactly when its window holds a newline, or began
      right after one. */
  lemma TailEndsAtBoundary(file: Bytes, start: nat, parse: Parser)
    requires 0 < start <= |file|
    ensures var s := ScanOf(file[start..], start, true, parse);
            && 0 < s.next <= |file|
            && (file[s.next - 1] == NEWLINE <==> NEWLINE in file[start..] || file[start - 1] == NEWLINE)
  {
    var window := file[start..];
    var s := ScanOf(window, start, true, parse);
    var n := FirstNewline(window);
    LinesAreWhole(window[Skipped(window, true)..]);
    if n >= 0 {
      var body := window[n + 1..];
      LinesAreWhole(body);
      if LinesOf(body) == [] {
        assert Complete(body) == [];
        assert file[start + n] == window[n];
      } else {
        EndsInNewline(LinesOf(body));
        assert file[s.next - 1] == body[|Complete(body)| - 1];
      }
    }
  }

  lemma {:induction false} EndsInNewline(lines: seq<Bytes>)
    requires WholeLines(lines) && lines != []
    ensures Concat(lines) != [] && Concat(lines)[|Concat(lines)| - 1] == NEWLINE
  {
    if |lines| == 1 {
      assert Concat(lines[1..]) == [];
      assert Concat(lines) == lines[0];
    } else {
      EndsInNewline(lines[1..]);
    }
  }

  // ---- what a line says ----

  /** A line is parsed without its newline, and without a carriage return before the newline. */
  lemma RowOfText(text: Bytes, parse: Parser)
    ensures (text != [] ==> text[|text| - 1] != 0x0D) ==> RowOf(text + [0x0A], parse) == parse(text)
    ensures RowOf(text + [0x0D, 0x0A], parse) == parse(text)
  {
    assert (text + [0x0A])[..|text|] == text;
    assert (text + [0x0D, 0x0A])[..|text| + 1] == text + [0x0D];
    assert (text + [0x0D])[..|text|] == text;
  }

  ghost predicate HasTime(line: Bytes, parse: Parser) {
    RowOf(line, parse).Row? && RowOf(line, parse).timestamp.Some?
  }

  ghost predicate HasLifecycle(line: Bytes, parse: Parser) {
    RowOf(line, parse).Row? && RowOf(line, parse).lifecycle.Some?
  }

  lemma {:induction false} NoTimeFrom(t: Tally, lines: seq<Bytes>, parse: Parser)
    requires forall i | 0 <= i < |lines| :: !HasTime(lines[i], parse)
    ensures TallyFrom(t, lines, parse).first == t.first && TallyFrom(t, lines, parse).last == t.last
    decreases |lines|
  {
    if lines != [] { NoTimeFrom(AddRow(t, RowOf(lines[0], parse)), lines[1..], parse); }
  }

  lemma {:induction false} FirstTimeKept(t: Tally, lines: seq<Bytes>, parse: Parser)
    requires t.first.Some?
    ensures TallyFrom(t, lines, parse).first == t.first
    decreases |lines|
  {
    if lines != [] { FirstTimeKept(AddRow(t, RowOf(lines[0], parse)), lines[1..], parse); }
  }

  lemma SplitTally(t: Tally, lines: seq<Bytes>, k: nat, parse: Parser)
    requires k < |lines|
    ensures TallyFrom(t, lines, parse) == TallyFrom(AddRow(TallyFrom(t, lines[..k], parse), RowOf(lines[k], parse)), lines[k + 1..], parse)
  {
    assert lines == lines[..k] + lines[k..] && lines[k..][0] == lines[k] && lines[k..][1..] == lines[k + 1..];
    TallyOfBoth(t, lines[..k], lines[k..], parse);
  }

  /** The first time reported is that of the first line that has one. */
  lemma FirstTime(lines: seq<Bytes>, k: nat, parse: Parser)
    requires k < |lines| && HasTime(lines[k], parse) && forall i | 0 <= i < k :: !HasTime(lines[i], parse)
    ensures TallyOf(lines, parse).first == RowOf(lines[k], parse).timestamp
  {
    SplitTally(NOTHING, lines, k, parse);
    NoTimeFrom(NOTHING, lines[..k], parse);
    FirstTimeKept(AddRow(TallyOf(lines[..k], parse), RowOf(lines[k], parse)), lines[k + 1..], parse);
  }

  /** The last time reported is that of the last line that has one. */
  lemma LastTime(lines: seq<Bytes>, k: nat, parse: Parser)
    requires k < |lines| && HasTime(lines[k], parse) && forall i | k < i < |lines| :: !HasTime(lines[i], parse)
    ensures TallyOf(lines, parse).last == RowOf(lines[k], parse).timestamp
  {
    SplitTally(NOTHING, lines, k, parse);
    NoTimeFrom(AddRow(TallyOf(lines[..k], parse), RowOf(lines[k], parse)), lines[k + 1..], parse);
  }

  lemma {:induction false} NoLifecycleFrom(t: Tally, lines: seq<Bytes>, parse: Parser)
    requires forall i | 0 <= i < |lines| :: !HasLifecycle(lines[i], parse)
    ensures TallyFrom(t, lines, parse).lifecycle == t.lifecycle
    decreases |lines|
  {
    if lines != [] { NoLifecycleFrom(AddRow(t, RowOf(lines[0], parse)), lines[1..], parse); }
  }

  /** The lifecycle event reported is that of the last line that has one. */
  lemma LastLifecycle(lines: seq<Bytes>, k: nat, parse: Parser)
    requires k < |lines| && HasLifecycle(lines[k], parse) && forall i | k < i < |lines| :: !HasLifecycle(lines[i], parse)
    ensures TallyOf(lines, parse).lifecycle == RowOf(lines[k], parse).lifecycle
  {
    SplitTally(NOTHING, lines, k, parse);
    NoLifecycleFrom(AddRow(TallyOf(lines[..k], parse), RowOf(lines[k], parse)), lines[k + 1..], parse);
  }

  /** Where no line has one, none is reported. */
  lemma NothingReported(lines: seq<Bytes>, parse: Parser)
    ensures (forall i | 0 <= i < |lines| :: !HasTime(lines[i], parse)) ==>
              TallyOf(lines, parse).first == None && TallyOf(lines, parse).last == None
    ensures (forall i | 0 <= i < |lines| :: !HasLifecycle(lines[i], parse)) ==> TallyOf(lines, parse).lifecycle == None
  {
    if forall i | 0 <= i < |lines| :: !HasTime(lines[i], parse) { NoTimeFrom(NOTHING, lines, parse); }
    if forall i | 0 <= i < |lines| :: !HasLifecycle(lines[i], parse) { NoLifecycleFrom(NOTHING, lines, parse); }
  }

  /** The complete lines of a text are all of its lines that end in a newline, in order. */
  lemma LinesMeaning(b: Bytes)
    ensures Concat(LinesOf(b)) <= b
    ensures forall i | |Concat(LinesOf(b))| <= i < |b| :: b[i] != 0x0A
    ensures forall k | 0 <= k < |LinesOf(b)| ::
              var line := LinesOf(b)[k];
              line != [] && line[|line| - 1] == 0x0A && forall j | 0 <= j < |line| - 1 :: line[j] != 0x0A
  {
    LinesAreWhole(b);
    forall k | 0 <= k < |LinesOf(b)|
      ensures var line := LinesOf(b)[k];
              line != [] && line[|line| - 1] == 0x0A && forall j | 0 <= j < |line| - 1 :: line[j] != 0x0A {
      var line := LinesOf(b)[k];
      assert WholeLine(line);
      assert forall j | 0 <= j < |line| - 1 :: line[j] == line[..|line| - 1][j];
    }
    var rest := b[|Complete(b)|..];
    assert forall i | |Complete(b)| <= i < |b| :: b[i] == rest[i - |Complete(b)|];
  }

  // ---- inputs that fail ----

  function SaysToString(text: Bytes): Row {
    Row("toString", None, None)
  }

  /** One line of kind `toString`: no number is reported for it. */
  lemma InheritedKindExample()
    ensures var lines := [[NEWLINE]];
            && Occurrences(lines, "toString", SaysToString) == 1
            && Reported(TallyOf(lines, SaysToString).counts, "toString") == None
  {
    var lines := [[NEWLINE]];
    assert lines[1..] == [];
    assert "toString"[0] != "__proto__"[0];
    GarbledFrom(NOTHING, lines, "toString", SaysToString);
  }

  /** Three bytes of one line, read from the second on: the scan leaves off where it began, within the line. */
  lemma NoNewlineExample(parse: Parser)
    ensures var file := [65, 66, 67];
            var s := ScanOf(file[1..], 1, true, parse);
            s.next == 1 && file[s.next - 1] != NEWLINE
  {
    var file := [65, 66, 67];
    TailEndsAtBoundary(file, 1, parse);
    var window := [66, 67];
    assert file[1..] == window && window[1..] == [67] && [67][1..] == [] && window[0..] == window;
    assert FirstNewline([67]) == -1 && FirstNewline(window) == -1;
  }
}
