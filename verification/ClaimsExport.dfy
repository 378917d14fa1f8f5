/** The paged export of accepted claims (`src/claims-export.mts`). */
module ClaimsExport {
  import opened Wrappers

  /** The texts that order claims are represented by their places in the collation order; ids are never equal for
      different claims. `ownProvider` says that the asking provider recorded the claim, `refMatches` that one of its
      references matches a requested prefix. */
  datatype Claim = Claim(acceptedAt: int, claimKey: int, claimId: int, supersedes: Option<int>, shared: bool, ownProvider: bool,
                         refMatches: bool)

  /** A registered snapshot: whether it is clean, relates to a readable requested scope, may be read by the provider, and
      the claims it shows. */
  datatype Snapshot = Snapshot(clean: bool, inScope: bool, scopeAllowed: bool, claims: seq<Claim>)

  datatype Cursor = BadCursor | Cursor(acceptedAt: int, claimKey: int, claimId: int)

  datatype Error = InvalidCursor

  datatype Page = Page(records: seq<Claim>, truncated: bool, nextCursor: Option<Cursor>)

  const MAX_LIMIT := 500

  // ---- which claims ----

  predicate Selects(s: Snapshot, c: Claim, hasRefs: bool) {
    && s.clean && (s.inScope || (hasRefs && s.scopeAllowed))
    && (s.inScope || c.refMatches) && (c.shared || c.ownProvider)
  }

  predicate IsSelected(snapshots: seq<Snapshot>, hasRefs: bool, c: Claim) {
    exists i | 0 <= i < |snapshots| :: c in snapshots[i].claims && Selects(snapshots[i], c, hasRefs)
  }

  /** A claim id names one claim. */
  predicate IdsAgree(snapshots: seq<Snapshot>) {
    forall i, j | 0 <= i < |snapshots| && 0 <= j < |snapshots| ::
      forall c, d | c in snapshots[i].claims && d in snapshots[j].claims :: c.claimId == d.claimId ==> c == d
  }

  predicate DistinctIds(claims: seq<Claim>) {
    forall i, j | 0 <= i < j < |claims| :: claims[i].claimId != claims[j].claimId
  }

  /** No other selected claim replaces it. */
  predicate IsCurrent(selected: seq<Claim>, c: Claim) {
    forall d | d in selected :: d.supersedes != Some(c.claimId)
  }

  // ---- order ----

  predicate Before(a: Cursor, b: Cursor)
    requires a.Cursor? && b.Cursor?
  {
    || a.acceptedAt < b.acceptedAt
    || (a.acceptedAt == b.acceptedAt && a.claimKey < b.claimKey)
    || (a.acceptedAt == b.acceptedAt && a.claimKey == b.claimKey && a.claimId < b.claimId)
  }

  function CursorOf(c: Claim): (r: Cursor)
    ensures r.Cursor?
  {
    Cursor(c.acceptedAt, c.claimKey, c.claimId)
  }

  predicate Ascending(claims: seq<Claim>) {
    forall i, j | 0 <= i < j < |claims| :: Before(CursorOf(claims[i]), CursorOf(claims[j]))
  }

  function Insert(c: Claim, sorted: seq<Claim>): seq<Claim> {
    if sorted == [] || Before(CursorOf(c), CursorOf(sorted[0])) then [c] + sorted else [sorted[0]] + Insert(c, sorted[1..])
  }

  /** `filter(...).sort(order)`. */
  function SortedCurrent(rest: seq<Claim>, selected: seq<Claim>): seq<Claim> {
    if rest == [] then []
    else if IsCurrent(selected, rest[0]) then Insert(rest[0], SortedCurrent(rest[1..], selected))
    else SortedCurrent(rest[1..], selected)
  }

  function AfterCursor(sorted: seq<Claim>, cursor: Cursor): seq<Claim>
    requires cursor.Cursor?
  {
    if sorted == [] then []
    else (if Before(cursor, CursorOf(sorted[0])) then [sorted[0]] else []) + AfterCursor(sorted[1..], cursor)
  }

  lemma {:induction false} InsertInOrder(c: Claim, sorted: seq<Claim>)
    requires Ascending(sorted) && forall d | d in sorted :: d.claimId != c.claimId
    ensures Ascending(Insert(c, sorted)) && forall d :: d in Insert(c, sorted) <==> d == c || d in sorted
  {
    if sorted != [] && !Before(CursorOf(c), CursorOf(sorted[0])) {
      var rest := Insert(c, sorted[1..]);
      assert sorted == [sorted[0]] + sorted[1..];
      InsertInOrder(c, sorted[1..]);
      assert sorted[0] in sorted;
      forall j | 0 <= j < |rest| ensures Before(CursorOf(sorted[0]), CursorOf(rest[j])) {
        assert rest[j] in rest;
        if rest[j] != c { var k :| 0 <= k < |sorted[1..]| && sorted[1..][k] == rest[j]; }
      }
    }
  }

  /** The unpaged list: the current claims, each once, in order. */
  lemma {:induction false} SortedCurrentMeaning(rest: seq<Claim>, selected: seq<Claim>)
    requires DistinctIds(rest)
    ensures Ascending(SortedCurrent(rest, selected))
    ensures forall c :: c in SortedCurrent(rest, selected) <==> c in rest && IsCurrent(selected, c)
  {
    if rest != [] {
      var tail := rest[1..];
      assert rest == [rest[0]] + tail;
      SortedCurrentMeaning(tail, selected);
      forall d | d in SortedCurrent(tail, selected) ensures d.claimId != rest[0].claimId {
        var k :| 0 <= k < |tail| && tail[k] == d;
        assert rest[k + 1] == d;
      }
      if IsCurrent(selected, rest[0]) { InsertInOrder(rest[0], SortedCurrent(tail, selected)); }
    }
  }

  // ---- the export ----

  /** The loop over the registered snapshots. */
  method Collect(snapshots: seq<Snapshot>, hasRefs: bool) returns (selected: seq<Claim>)
    requires IdsAgree(snapshots)
    ensures DistinctIds(selected)
    ensures forall c :: c in selected <==> IsSelected(snapshots, hasRefs, c)
  {
    selected := [];
    for i := 0 to |snapshots|
      invariant DistinctIds(selected)
      invariant forall c :: c in selected <==> IsSelected(snapshots[..i], hasRefs, c)
    {
      selected := CollectFrom(snapshots, i, hasRefs, selected);
    }
    assert snapshots[..|snapshots|] == snapshots;
  }

  method CollectFrom(snapshots: seq<Snapshot>, i: nat, hasRefs: bool, before: seq<Claim>) returns (selected: seq<Claim>)
    requires IdsAgree(snapshots) && i < |snapshots| && DistinctIds(before)
    requires forall c :: c in before <==> IsSelected(snapshots[..i], hasRefs, c)
    ensures DistinctIds(selected)
    ensures forall c :: c in selected <==> IsSelected(snapshots[..i + 1], hasRefs, c)
  {
    var s := snapshots[i];
    selected := before;
    assert snapshots[..i + 1] == snapshots[..i] + [s];
    OneMoreSnapshot(snapshots, i, hasRefs);
    FromSnapshots(snapshots, i, hasRefs);
    if !s.clean || (!s.inScope && !(hasRefs && s.scopeAllowed)) { return; }
    for k := 0 to |s.claims|
      invariant DistinctIds(selected)
      invariant forall c :: c in selected <==> c in before || (c in s.claims[..k] && Selects(s, c, hasRefs))
    {
      var c := s.claims[k];
      assert s.claims[..k + 1] == s.claims[..k] + [c];
      if j :| 0 <= j < |selected| && selected[j].claimId == c.claimId {
        assert selected[j] in selected;
        assert c in s.claims;
        assert selected[j] == c;
        continue;
      }
      if !s.inScope && !c.refMatches { continue; }
      if !c.shared && !c.ownProvider { continue; }
      selected := selected + [c];
    }
    assert s.claims[..|s.claims|] == s.claims;
  }

  lemma OneMoreSnapshot(snapshots: seq<Snapshot>, i: nat, hasRefs: bool)
    requires i < |snapshots|
    ensures forall c :: IsSelected(snapshots[..i + 1], hasRefs, c) <==>
              IsSelected(snapshots[..i], hasRefs, c) || (c in snapshots[i].claims && Selects(snapshots[i], c, hasRefs))
  {
    var a, b := snapshots[..i], snapshots[..i + 1];
    forall c ensures IsSelected(b, hasRefs, c) <==>
                       IsSelected(a, hasRefs, c) || (c in snapshots[i].claims && Selects(snapshots[i], c, hasRefs)) {
      if j :| 0 <= j < |a| && c in a[j].claims && Selects(a[j], c, hasRefs) { assert b[j] == a[j]; }
      if c in snapshots[i].claims && Selects(snapshots[i], c, hasRefs) { assert b[i] == snapshots[i]; }
    }
  }

  lemma FromSnapshots(snapshots: seq<Snapshot>, i: nat, hasRefs: bool)
    requires IdsAgree(snapshots) && i < |snapshots|
    ensures forall c, d | IsSelected(snapshots[..i], hasRefs, c) && d in snapshots[i].claims :: c.claimId == d.claimId ==> c == d
  {
  }

  predicate ComesAfter(after: Option<Cursor>, c: Claim)
    requires after != Some(BadCursor)
  {
    after == None || Before(after.value, CursorOf(c))
  }

  /** A claim still to be given out: selected, superseded by none, and after the cursor. */
  predicate IsDue(selected: seq<Claim>, after: Option<Cursor>, c: Claim)
    requires after != Some(BadCursor)
  {
    c in selected && IsCurrent(selected, c) && ComesAfter(after, c)
  }

  /** A page holds due claims, in order and at most `limit`. Of the due claims it leaves out, all come after the last it
      holds, and only a full page leaves any out. The next cursor is there exactly when some are left out, and stands
      for the last claim of the page. */
  ghost predicate OrderedPage(selected: seq<Claim>, after: Option<Cursor>, limit: nat, page: Page)
    requires after != Some(BadCursor)
  {
    && |page.records| <= limit && Ascending(page.records)
    && (forall c | c in page.records :: IsDue(selected, after, c))
    && (forall c | IsDue(selected, after, c) && c !in page.records ::
          |page.records| == limit > 0 && Before(CursorOf(page.records[limit - 1]), CursorOf(c)))
    && (page.truncated <==> exists c :: IsDue(selected, after, c) && c !in page.records)
    && (page.truncated ==> page.records != [] && page.nextCursor == Some(CursorOf(page.records[|page.records| - 1])))
    && (!page.truncated ==> page.nextCursor == None)
  }

  /** Claims accepted earlier come first; of those accepted at one time, those with the lesser key, and then the lesser id. */
  ghost predicate EarliestFirst(claims: seq<Claim>) {
    forall i, j | 0 <= i < j < |claims| :: Earlier(claims[i], claims[j])
  }

  ghost predicate Earlier(a: Claim, b: Claim) {
    && a.acceptedAt <= b.acceptedAt
    && (a.acceptedAt == b.acceptedAt ==> a.claimKey <= b.claimKey)
    && (a.acceptedAt == b.acceptedAt && a.claimKey == b.claimKey ==> a.claimId < b.claimId)
  }

  lemma AscendingMeaning(claims: seq<Claim>)
    ensures Ascending(claims) <==> EarliestFirst(claims)
  {
    if EarliestFirst(claims) {
      forall i, j | 0 <= i < j < |claims| ensures Before(CursorOf(claims[i]), CursorOf(claims[j])) {}
    }
  }

  /** The claims still to be given out. */
  ghost function Due(selected: seq<Claim>, after: Option<Cursor>): set<Claim>
    requires after != Some(BadCursor)
  {
    set c | c in selected && IsDue(selected, after, c)
  }

  /** A page is as long as was asked for, from 1 to 500, unless it holds all that is left. */
  ghost predicate HasAskedLength(selected: seq<Claim>, after: Option<Cursor>, requestedLimit: int, page: Page)
    requires after != Some(BadCursor)
  {
    var limit := if requestedLimit < 1 then 1 else if requestedLimit > 500 then 500 else requestedLimit;
    |page.records| == if |Due(selected, after)| < limit then |Due(selected, after)| else limit
  }

  /** `exportClaims`, once the claims are collected. */
  method ExportClaims(selected: seq<Claim>, after: Option<Cursor>, requestedLimit: int) returns (r: Result<Page, Error>)
    requires DistinctIds(selected)
    ensures r.Err? <==> after == Some(BadCursor)
    ensures r.Ok? ==> OrderedPage(selected, after, Limit(requestedLimit), r.value) && EarliestFirst(r.value.records)
    ensures r.Ok? ==> HasAskedLength(selected, after, requestedLimit, r.value)
  {
    if after == Some(BadCursor) { return Err(InvalidCursor); }
    var limit := Limit(requestedLimit);
    var current := SortedCurrent(selected, selected);
    SortedCurrentMeaning(selected, selected);
    if after.Some? { AfterCursorMeaning(current, after.value); current := AfterCursor(current, after.value); }
    var page := if |current| > limit then current[..limit] else current;
    var truncated := |current| > |page|;
    r := Ok(Page(page, truncated, if truncated then Some(CursorOf(page[|page| - 1])) else None));
    CutIsOrdered(selected, after, limit, current, r.value);
    CutLength(selected, after, limit, current, page);
  }

  lemma CutLength(selected: seq<Claim>, after: Option<Cursor>, limit: nat, due: seq<Claim>, page: seq<Claim>)
    requires after != Some(BadCursor) && Ascending(due) && forall c :: c in due <==> IsDue(selected, after, c)
    requires page == if |due| > limit then due[..limit] else due
    ensures EarliestFirst(page)
    ensures |page| == if |Due(selected, after)| < limit then |Due(selected, after)| else limit
  {
    AscendingCount(due);
    assert Due(selected, after) == set c | c in due;
    AscendingMeaning(page);
  }

  /** A list in order holds no claim twice. */
  lemma {:induction false} AscendingCount(claims: seq<Claim>)
    requires Ascending(claims)
    ensures |set c | c in claims| == |claims|
  {
    if claims != [] {
      AscendingCount(claims[1..]);
      InTail(claims, claims[0]);
      assert claims == [claims[0]] + claims[1..];
      assert (set c | c in claims) == (set c | c in claims[1..]) + {claims[0]};
    }
  }

  /** The claims after a cursor, still in order. */
  lemma {:induction false} AfterCursorMeaning(sorted: seq<Claim>, cursor: Cursor)
    requires cursor.Cursor? && Ascending(sorted)
    ensures Ascending(AfterCursor(sorted, cursor))
    ensures forall c :: c in AfterCursor(sorted, cursor) <==> c in sorted && Before(cursor, CursorOf(c))
  {
    if sorted != [] {
      var rest := AfterCursor(sorted[1..], cursor);
      AfterCursorMeaning(sorted[1..], cursor);
      forall c ensures c in sorted[1..] <==> c in sorted && c != sorted[0] { InTail(sorted, c); }
      PutFirst(sorted, rest);
      assert [] + rest == rest;
    }
  }

  lemma PutFirst(sorted: seq<Claim>, rest: seq<Claim>)
    requires Ascending(sorted) && sorted != [] && Ascending(rest) && forall c | c in rest :: c in sorted[1..]
    ensures Ascending([sorted[0]] + rest)
  {
    forall j | 0 <= j < |rest| ensures Before(CursorOf(sorted[0]), CursorOf(rest[j])) {
      assert rest[j] in rest;
      InTail(sorted, rest[j]);
      FirstIsLeast(sorted, rest[j]);
    }
  }

  lemma CutIsOrdered(selected: seq<Claim>, after: Option<Cursor>, limit: nat, due: seq<Claim>, page: Page)
    requires after != Some(BadCursor) && limit > 0 && Ascending(due) && forall c :: c in due <==> IsDue(selected, after, c)
    requires page.records == if |due| > limit then due[..limit] else due
    requires page.truncated == (|due| > limit)
    requires page.nextCursor == if page.truncated then Some(CursorOf(page.records[limit - 1])) else None
    ensures OrderedPage(selected, after, limit, page)
  {
    var k := |page.records|;
    assert page.records == due[..k];
    PrefixMisses(due, k);
    forall c | c in due && c !in page.records ensures k == limit && Before(CursorOf(page.records[limit - 1]), CursorOf(c)) {
      LeftOut(due, k, c);
    }
  }

  lemma LeftOut(all: seq<Claim>, k: nat, c: Claim)
    requires Ascending(all) && k <= |all| && c in all && c !in all[..k]
    ensures k < |all| && (k > 0 ==> Before(CursorOf(all[k - 1]), CursorOf(c)))
  {
    var some := all[..k];
    var j :| 0 <= j < |all| && all[j] == c;
    assert forall i | 0 <= i < k :: some[i] in some && all[i] == some[i];
  }

  /** What is due after a position in the unpaged list is the rest of the list. */
  lemma DueIsRest(selected: seq<Claim>, all: seq<Claim>, after: Option<Cursor>, n: nat)
    requires Ascending(all) && (forall c :: c in all <==> c in selected && IsCurrent(selected, c))
    requires n <= |all| && Position(all, after, n)
    ensures after != Some(BadCursor) && forall c :: c in all[n..] <==> IsDue(selected, after, c)
  {
    forall c ensures c in all[n..] <==> IsDue(selected, after, c) {
      if n > 0 { AfterPosition(all, n, c); } else { assert all[0..] == all; }
    }
  }

  /** A page holds the first of what is due. */
  lemma PageIsStart(selected: seq<Claim>, due: seq<Claim>, after: Option<Cursor>, limit: nat, page: Page)
    requires after != Some(BadCursor) && Ascending(due) && forall c :: c in due <==> IsDue(selected, after, c)
    requires OrderedPage(selected, after, limit, page)
    ensures |page.records| <= |due| && page.records == due[..|page.records|]
    ensures page.truncated <==> |page.records| < |due|
  {
    assert IsInitial(due, page.records);
    InitialIsPrefix(due, page.records);
    PrefixMisses(due, |page.records|);
  }

  lemma PrefixMisses(all: seq<Claim>, k: nat)
    requires Ascending(all) && k <= |all|
    ensures (exists c :: c in all && c !in all[..k]) <==> k < |all|
  {
    if k < |all| {
      var some, c := all[..k], all[k];
      forall j | 0 <= j < k ensures some[j] != c { assert Before(CursorOf(all[j]), CursorOf(c)); }
      assert c in all && c !in some;
    } else {
      assert all[..k] == all;
    }
  }

  /** A page is the part of the unpaged list that comes next. */
  lemma PageIsSlice(selected: seq<Claim>, all: seq<Claim>, after: Option<Cursor>, n: nat, limit: nat, page: Page)
    requires IsUnpaged(selected, all)
    requires n <= |all| && Position(all, after, n) && after != Some(BadCursor) && OrderedPage(selected, after, limit, page)
    ensures IsNextPage(all, n, page, n + |page.records|)
  {
    var k := |page.records|;
    DueIsRest(selected, all, after, n);
    PageIsStart(selected, all[n..], after, limit, page);
    assert all[n..][..k] == all[n..n + k];
    if page.truncated { assert page.records[k - 1] == all[n + k - 1]; }
  }

  lemma AfterPosition(all: seq<Claim>, n: nat, c: Claim)
    requires Ascending(all) && 0 < n <= |all|
    ensures c in all[n..] <==> c in all && Before(CursorOf(all[n - 1]), CursorOf(c))
  {
    if c in all {
      var k :| 0 <= k < |all| && all[k] == c;
      if k >= n { assert all[n..][k - n] == c; }
    }
    if c in all[n..] {
      var k :| 0 <= k < |all[n..]| && all[n..][k] == c;
      assert all[n + k] == c;
    }
  }

  lemma FirstIsLeast(all: seq<Claim>, c: Claim)
    requires Ascending(all) && c in all
    ensures c == all[0] || Before(CursorOf(all[0]), CursorOf(c))
  {
    var k :| 0 <= k < |all| && all[k] == c;
  }

  lemma InTail(all: seq<Claim>, c: Claim)
    requires Ascending(all) && all != []
    ensures c in all[1..] <==> c in all && c != all[0]
  {
    AfterPosition(all, 1, c);
    if c in all { FirstIsLeast(all, c); }
  }

  /** In `some` are some claims of the list, and everything left out comes after the last of them. */
  ghost predicate IsInitial(all: seq<Claim>, some: seq<Claim>) {
    && Ascending(all) && Ascending(some) && (forall c | c in some :: c in all)
    && forall c | c in all && c !in some :: some != [] ==> Before(CursorOf(some[|some| - 1]), CursorOf(c))
  }

  lemma SameFirst(all: seq<Claim>, some: seq<Claim>)
    requires IsInitial(all, some) && some != []
    ensures all != [] && all[0] == some[0]
  {
    var last := some[|some| - 1];
    assert some[0] in some && last in some;
    FirstIsLeast(all, some[0]);
    FirstIsLeast(all, last);
    if all[0] in some { FirstIsLeast(some, all[0]); }
  }

  lemma TailIsInitial(all: seq<Claim>, some: seq<Claim>)
    requires IsInitial(all, some) && some != [] && all != [] && all[0] == some[0]
    ensures IsInitial(all[1..], some[1..])
  {
    var rest, tail := all[1..], some[1..];
    forall c | c in tail ensures c in rest {
      InTail(some, c);
      InTail(all, c);
    }
    forall c | c in rest && c !in tail ensures tail != [] ==> Before(CursorOf(tail[|tail| - 1]), CursorOf(c)) {
      InTail(some, c);
      InTail(all, c);
    }
  }

  /** They are its first elements. */
  lemma {:induction false} InitialIsPrefix(all: seq<Claim>, some: seq<Claim>)
    requires IsInitial(all, some)
    ensures |some| <= |all| && some == all[..|some|]
    decreases |some|
  {
    if some != [] {
      SameFirst(all, some);
      TailIsInitial(all, some);
      InitialIsPrefix(all[1..], some[1..]);
      assert some == [some[0]] + some[1..] && all == [all[0]] + all[1..];
    }
  }

  function Limit(requested: int): (limit: nat)
    ensures 1 <= limit <= MAX_LIMIT
  {
    var atLeastOne := if requested < 1 then 1 else requested;
    if atLeastOne > MAX_LIMIT then MAX_LIMIT else atLeastOne
  }

  function Flatten(pages: seq<seq<Claim>>): seq<Claim> {
    if pages == [] then [] else Flatten(pages[..|pages| - 1]) + pages[|pages| - 1]
  }

  /** A cursor stands for the number of claims already given out. */
  predicate Position(all: seq<Claim>, after: Option<Cursor>, n: nat)
    requires n <= |all|
  {
    after == if n == 0 then None else Some(CursorOf(all[n - 1]))
  }

  /** The list holds the current claims, in order. */
  ghost predicate IsUnpaged(selected: seq<Claim>, all: seq<Claim>) {
    Ascending(all) && forall c :: c in all <==> c in selected && IsCurrent(selected, c)
  }

  /** The page is the part of the list from n to `end`, and leads on exactly when the list does. */
  ghost predicate IsNextPage(all: seq<Claim>, n: nat, page: Page, end: nat) {
    && n <= end <= |all| && page.records == all[n..end] && (page.truncated <==> end < |all|)
    && (page.truncated ==> n < end && Position(all, page.nextCursor, end))
  }

  /** One page on: the next claims of the unpaged list, and where to go on. */
  method NextPage(selected: seq<Claim>, after: Option<Cursor>, limit: int, ghost all: seq<Claim>, ghost n: nat)
    returns (page: Page, ghost end: nat)
    requires DistinctIds(selected) && IsUnpaged(selected, all) && n <= |all| && Position(all, after, n)
    ensures IsNextPage(all, n, page, end)
  {
    var r := ExportClaims(selected, after, limit);
    page := r.value;
    end := n + |page.records|;
    PageIsSlice(selected, all, after, n, Limit(limit), page);
  }

  /** Following the cursor, with any limits, ends, and the pages are together the unpaged list. */
  method FollowCursor(selected: seq<Claim>, limits: nat -> int) returns (pages: seq<seq<Claim>>)
    requires DistinctIds(selected)
    ensures Flatten(pages) == SortedCurrent(selected, selected)
  {
    ghost var all := SortedCurrent(selected, selected);
    SortedCurrentMeaning(selected, selected);
    pages := [];
    var after: Option<Cursor> := None;
    var more := true;
    ghost var n: nat := 0;
    while more
      invariant n <= |all| && Flatten(pages) == all[..n]
      invariant if more then Position(all, after, n) else n == |all|
      decreases more, |all| - n
    {
      ghost var end;
      var page;
      page, end := NextPage(selected, after, limits(|pages|), all, n);
      assert (pages + [page.records])[..|pages|] == pages;
      assert all[..n] + all[n..end] == all[..end];
      pages := pages + [page.records];
      n := end;
      more := page.truncated;
      after := page.nextCursor;
    }
    assert all[..n] == all;
  }

  /** Every current claim is exported once, in order, and none that another selected claim supersedes. */
  method ExportAll(snapshots: seq<Snapshot>, hasRefs: bool, limits: nat -> int) returns (pages: seq<seq<Claim>>)
    requires IdsAgree(snapshots)
    ensures EarliestFirst(Flatten(pages))
    ensures forall c :: c in Flatten(pages) <==> IsExported(snapshots, hasRefs, c)
  {
    var selected := Collect(snapshots, hasRefs);
    SortedCurrentMeaning(selected, selected);
    pages := FollowCursor(selected, limits);
    AscendingMeaning(Flatten(pages));
  }

  ghost predicate IsExported(snapshots: seq<Snapshot>, hasRefs: bool, c: Claim) {
    IsSelected(snapshots, hasRefs, c) && forall d | IsSelected(snapshots, hasRefs, d) :: d.supersedes != Some(c.claimId)
  }
}
