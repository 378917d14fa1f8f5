/** The idempotency index of `src/event-store.mjs`: one row per record, and a sidecar that binds the rows to one
    chain tip. It is a cache; the checks below decide when it is trusted. */
module IdempotencyIndex {
  import opened Wrappers
  import opened EventChain

  const MAX_SAFE_INTEGER: int := 9007199254740991

  /** One non-empty line of `idempotency.jsonl`: unparsable, or the key and sequence it parses to. */
  datatype Row = Garbled | Row(key: Key, sequence: int)

  /** The sidecar `idempotency.head.json`. */
  datatype Binding = BadBinding | Binding(headEventId: Option<Id>, count: int)

  predicate SaneRow(row: Row) {
    row.Row? && IsHash(row.key) && 1 <= row.sequence <= MAX_SAFE_INTEGER
  }

  predicate SaneRows(rows: seq<Row>) {
    forall i | 0 <= i < |rows| :: SaneRow(rows[i])
  }

  function RowKeys(rows: seq<Row>): set<Key> {
    set i | 0 <= i < |rows| && rows[i].Row? :: rows[i].key
  }

  function RowSequences(rows: seq<Row>): set<int> {
    set i | 0 <= i < |rows| && rows[i].Row? :: rows[i].sequence
  }

  /** Later rows win, as in a JavaScript Map. */
  function IndexMap(rows: seq<Row>): map<Key, int> {
    if rows == [] then map[]
    else
      var before := IndexMap(rows[..|rows| - 1]);
      var row := rows[|rows| - 1];
      if row.Row? then before[row.key := row.sequence] else before
  }

  function Highest(rows: seq<Row>): int {
    if rows == [] then 0
    else
      var before := Highest(rows[..|rows| - 1]);
      var row := rows[|rows| - 1];
      if row.Row? && row.sequence > before then row.sequence else before
  }

  /** The checks the code makes: sane rows, and four counts that all equal the committed sequence. */
  predicate FourCounts(rows: seq<Row>, n: int) {
    && SaneRows(rows)
    && Highest(rows) == n && |rows| == n && |IndexMap(rows)| == n && |RowSequences(rows)| == n
  }

  /** What they are for: the rows pair the sequences 1..n with n distinct keys. */
  ghost predicate Bijection(rows: seq<Row>, n: int) {
    && SaneRows(rows) && |rows| == n
    && (forall i, j | 0 <= i < j < |rows| :: rows[i].key != rows[j].key && rows[i].sequence != rows[j].sequence)
    && (forall k: int :: k in RowSequences(rows) <==> 1 <= k <= n)
  }

  function RowsOf(files: seq<RecordFile>): seq<Row>
    requires Readable(files)
  {
    seq(|files|, i requires 0 <= i < |files| =>
      Row(files[i].content.event.core.key, files[i].content.event.core.sequence))
  }

  /** A row is taken as one if its key is a digest and its sequence a positive safe integer. */
  lemma SaneRowExactly(row: Row)
    ensures SaneRow(row) <==>
              && row.Row? && |row.key| == 64 && (forall c | c in row.key :: c in "0123456789abcdef")
              && 0 < row.sequence < 0x20_0000_0000_0000
  {
    if row.Row? { HashIsHex(row.key); }
  }

  // ---- counting ----

  function Range(n: nat): (r: set<int>)
    ensures forall k :: k in r <==> 1 <= k <= n
    ensures |r| == n
  {
    if n == 0 then {} else Range(n - 1) + {n}
  }

  lemma SubsetOfSameSize<T>(a: set<T>, b: set<T>)
    requires a <= b && |a| == |b|
    ensures a == b
  {
    assert b == a + (b - a);
  }

  /** As many distinct values as positions means no value twice, and conversely. */
  lemma {:induction false} DistinctByCount<T>(xs: seq<T>)
    ensures |set x | x in xs| <= |xs|
    ensures |set x | x in xs| == |xs| <==> forall i, j | 0 <= i < j < |xs| :: xs[i] != xs[j]
    decreases |xs|
  {
    if xs != [] {
      var n := |xs| - 1;
      var front := xs[..n];
      assert xs == front + [xs[n]];
      DistinctByCount(front);
      assert (set x | x in xs) == (set x | x in front) + {xs[n]};
      if xs[n] !in front {
        forall i, j | 0 <= i < j < |xs| && (forall k, l | 0 <= k < l < n :: front[k] != front[l]) ensures xs[i] != xs[j] {
          assert front[i] == xs[i];
          if j < n { assert front[j] == xs[j]; }
        }
      }
    }
  }

  lemma RowSetsOfLast(rows: seq<Row>)
    requires SaneRows(rows) && rows != []
    ensures RowKeys(rows) == RowKeys(rows[..|rows| - 1]) + {rows[|rows| - 1].key}
    ensures RowSequences(rows) == RowSequences(rows[..|rows| - 1]) + {rows[|rows| - 1].sequence}
  {
    forall i | 0 <= i < |rows| - 1 ensures rows[..|rows| - 1][i] == rows[i] {}
  }

  lemma {:induction false} IndexMapKeySet(rows: seq<Row>)
    requires SaneRows(rows)
    ensures IndexMap(rows).Keys == RowKeys(rows)
    decreases |rows|
  {
    if rows != [] {
      forall i | 0 <= i < |rows| - 1 ensures rows[..|rows| - 1][i] == rows[i] {}
      IndexMapKeySet(rows[..|rows| - 1]);
      RowSetsOfLast(rows);
    }
  }

  lemma RowKeysDistinct(rows: seq<Row>)
    requires SaneRows(rows)
    ensures |RowKeys(rows)| == |rows| <==> forall i, j | 0 <= i < j < |rows| :: rows[i].key != rows[j].key
  {
    var column: seq<Key> := seq(|rows|, i requires 0 <= i < |rows| => rows[i].key);
    assert RowKeys(rows) == (set x | x in column) by {
      forall x | x in column ensures x in RowKeys(rows) {
        var i :| 0 <= i < |column| && column[i] == x;
        assert SaneRow(rows[i]);
      }
      forall x | x in RowKeys(rows) ensures x in column {
        var i :| 0 <= i < |rows| && rows[i].Row? && rows[i].key == x;
        assert column[i] == x;
      }
    }
    DistinctByCount(column);
    if |RowKeys(rows)| == |rows| {
      forall i, j | 0 <= i < j < |rows| ensures rows[i].key != rows[j].key {
        assert column[i] != column[j];
      }
    }
  }

  lemma RowSequencesDistinct(rows: seq<Row>)
    requires SaneRows(rows)
    ensures |RowSequences(rows)| == |rows| <==> forall i, j | 0 <= i < j < |rows| :: rows[i].sequence != rows[j].sequence
  {
    var column: seq<int> := seq(|rows|, i requires 0 <= i < |rows| => rows[i].sequence);
    assert RowSequences(rows) == (set x | x in column) by {
      forall x | x in column ensures x in RowSequences(rows) {
        var i :| 0 <= i < |column| && column[i] == x;
        assert SaneRow(rows[i]);
      }
      forall x | x in RowSequences(rows) ensures x in column {
        var i :| 0 <= i < |rows| && rows[i].Row? && rows[i].sequence == x;
        assert column[i] == x;
      }
    }
    DistinctByCount(column);
    if |RowSequences(rows)| == |rows| {
      forall i, j | 0 <= i < j < |rows| ensures rows[i].sequence != rows[j].sequence {
        assert column[i] != column[j];
      }
    }
  }

  lemma CountsMeanDistinct(rows: seq<Row>)
    requires SaneRows(rows)
    ensures |RowKeys(rows)| == |rows| <==> forall i, j | 0 <= i < j < |rows| :: rows[i].key != rows[j].key
    ensures |RowSequences(rows)| == |rows| <==> forall i, j | 0 <= i < j < |rows| :: rows[i].sequence != rows[j].sequence
  {
    RowKeysDistinct(rows);
    RowSequencesDistinct(rows);
  }

  lemma {:induction false} HighestBounds(rows: seq<Row>)
    requires SaneRows(rows)
    ensures forall i | 0 <= i < |rows| :: rows[i].sequence <= Highest(rows)
    ensures if rows == [] then Highest(rows) == 0 else Highest(rows) in RowSequences(rows)
  {
    if rows != [] {
      var n := |rows| - 1;
      forall i | 0 <= i < n ensures rows[..n][i] == rows[i] {}
      HighestBounds(rows[..n]);
      RowSetsOfLast(rows);
      forall i | 0 <= i < |rows| ensures rows[i].sequence <= Highest(rows) {
        if i < n { assert rows[..n][i] == rows[i]; }
      }
    }
  }

  /** Pigeonhole: the four counts accept exactly the bijections onto 1..n. */
  lemma CountsAreBijection(rows: seq<Row>, n: int)
    ensures FourCounts(rows, n) <==> Bijection(rows, n)
  {
    if SaneRows(rows) && |rows| == n {
      CountsMeanDistinct(rows);
      IndexMapKeySet(rows);
      HighestBounds(rows);
      assert |IndexMap(rows)| == |IndexMap(rows).Keys|;
      if FourCounts(rows, n) {
        SubsetOfSameSize(RowSequences(rows), Range(n));
      }
      if Bijection(rows, n) {
        if n > 0 { assert n in RowSequences(rows); }
      }
    }
  }

  // ---- the rows of a verified chain ----

  lemma {:induction false} IndexMapFinds(rows: seq<Row>, i: nat)
    requires SaneRows(rows) && i < |rows|
    requires forall j | i < j < |rows| :: rows[j].key != rows[i].key
    ensures rows[i].key in IndexMap(rows) && IndexMap(rows)[rows[i].key] == rows[i].sequence
    decreases |rows|
  {
    var n := |rows| - 1;
    if i < n {
      assert forall j | 0 <= j < n :: rows[..n][j] == rows[j];
      IndexMapFinds(rows[..n], i);
    }
  }

  lemma {:induction false} IndexMapKeys(rows: seq<Row>, key: Key)
    ensures key in IndexMap(rows) <==> key in RowKeys(rows)
    ensures key in IndexMap(rows) ==> exists i :: 0 <= i < |rows| && rows[i] == Row(key, IndexMap(rows)[key])
    decreases |rows|
  {
    if rows != [] {
      var n := |rows| - 1;
      assert forall j | 0 <= j < n :: rows[..n][j] == rows[j];
      IndexMapKeys(rows[..n], key);
      if key in IndexMap(rows[..n]) && !(rows[n].Row? && rows[n].key == key) {
        var i :| 0 <= i < n && rows[..n][i] == Row(key, IndexMap(rows[..n])[key]);
        assert rows[i] == Row(key, IndexMap(rows)[key]);
      }
    }
  }

  lemma RowsOfChain(files: seq<RecordFile>)
    requires Linked(files)
    ensures Readable(files)
    ensures RowKeys(RowsOf(files)) == Keys(files)
    ensures forall i | 0 <= i < |files| :: RowsOf(files)[i] == Row(KeyOf(files[i]), i + 1)
  {
    LinkedHasNoParallelChain(files);
    var rows := RowsOf(files);
    forall i | 0 <= i < |files| ensures rows[i] == Row(KeyOf(files[i]), i + 1) {
      assert LinkedAt(files, i);
    }
  }

  /** An accepted index covers the chain as soon as its keys include the chain's: they are then the same keys. */
  lemma CoveringRowsAreExact(rows: seq<Row>, files: seq<RecordFile>)
    requires Verified(files) && Bijection(rows, |files|)
    ensures Keys(files) <= RowKeys(rows) <==> Keys(files) == RowKeys(rows)
  {
    CountsMeanDistinct(rows);
    KeysSize(files);
    if Keys(files) <= RowKeys(rows) {
      SubsetOfSameSize(Keys(files), RowKeys(rows));
    }
  }

  lemma {:induction false} KeysSize(files: seq<RecordFile>)
    requires DistinctKeys(files)
    ensures |Keys(files)| == |files|
    decreases |files|
  {
    if files != [] {
      var n := |files| - 1;
      VerifiedPrefix(files, n);
      KeysSize(files[..n]);
      assert files == files[..n] + [files[n]];
      ExtendDistinct(files[..n], files[n]);
    } else {
      assert Keys(files) == {};
    }
  }
}
