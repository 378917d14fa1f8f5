/** How a context query selects claims (`src/context-query.mjs`), the trace it leaves of every decision, and the layers
    and counts that summarise the trace (`src/context-trace.mts`). */
module DecisionTrace {
  import opened Wrappers

  datatype Freshness = Usable | Stale | Expired

  /** A claim a snapshot lists, as the query sees it: facts about its fields, and how many terms it matches. `withdrawn`
      claims are listed still, and no longer shown. */
  datatype Claim = Claim(claimId: string, claimKey: int, acceptedAt: int, typeAllowed: bool, ownProvider: bool, shared: bool,
                         queryMatches: nat, profileMatches: nat, freshness: Freshness, withdrawn: bool)

  datatype Snapshot = Snapshot(id: int, related: bool, exactScope: bool, globalScope: bool, listed: seq<Claim>)

  datatype Query = Query(crossProvider: bool, hasTerms: bool, narrowScope: bool, globalScope: bool, maxClaims: nat)

  datatype Relevance = Relevance(score: Option<int>, reason: Option<string>)

  datatype Candidate = Candidate(claim: Claim, snapshotId: int, detail: Relevance)

  /** An entry of `trace.candidates` or of `trace.peerProgress`; `count` claims are excluded by one read limit. */
  datatype Entry = Entry(snapshotId: int, claimId: Option<string>, included: bool, reason: Option<string>, count: nat)

  // ---- selection ----

  /** `relevanceDecision`. */
  function RelevanceOf(c: Claim, s: Snapshot, q: Query): Relevance {
    if !c.typeAllowed then Relevance(None, Some("claim-type"))
    else if !q.crossProvider && !c.ownProvider then Relevance(None, Some("provider"))
    else if !c.ownProvider && !c.shared then Relevance(None, Some("private-other-provider"))
    else if !s.related then Relevance(None, Some("relation"))
    else
      var exactScope := if s.exactScope then 4 else 2;
      var score := c.queryMatches * 8 + c.profileMatches * 2 + exactScope + if c.ownProvider then 0 else 1;
      if q.hasTerms && c.queryMatches == 0 && !(q.narrowScope && exactScope >= 4) && !(s.globalScope && !q.globalScope)
      then Relevance(Some(score), Some("term-miss"))
      else Relevance(Some(score), None)
  }

  function ReadLimit(q: Query): nat {
    var n := if q.maxClaims * 4 > q.maxClaims then q.maxClaims * 4 else q.maxClaims;
    if n < 100 then n else 100
  }

  function NotWithdrawn(claims: seq<Claim>): seq<Claim> {
    if claims == [] then []
    else (if claims[0].withdrawn then [] else [claims[0]]) + NotWithdrawn(claims[1..])
  }

  /** Fresh, and not ruled out by the relevance decision. */
  predicate Eligible(c: Candidate) {
    c.claim.freshness == Usable && (if c.detail.reason.Some? || c.detail.score == None then -1 else c.detail.score.value) >= 0
  }

  function Score(c: Candidate): int {
    if c.detail.score.Some? then c.detail.score.value else -1
  }

  predicate Better(a: Candidate, b: Candidate) {
    || Score(a) > Score(b)
    || (Score(a) == Score(b) && a.claim.acceptedAt > b.claim.acceptedAt)
    || (Score(a) == Score(b) && a.claim.acceptedAt == b.claim.acceptedAt && a.claim.claimKey < b.claim.claimKey)
  }

  /** Who may be shown what: an eligible claim is fresh, of an allowed type and in a related scope; another provider's claim
      is shown only if it is shared and the profile crosses providers; and terms are a filter, except for the very scope of
      a ticket or merge request and for global rules. */
  lemma EligibleExactly(c: Claim, s: Snapshot, q: Query)
    ensures Eligible(Candidate(c, s.id, RelevanceOf(c, s, q))) <==>
              && c.freshness == Usable && c.typeAllowed && s.related && (c.ownProvider || (q.crossProvider && c.shared))
              && (q.hasTerms ==> c.queryMatches > 0 || (q.narrowScope && s.exactScope) || (s.globalScope && !q.globalScope))
  {
  }

  function InsertRanked(i: nat, ranked: seq<nat>, candidates: seq<Candidate>): seq<nat>
    requires i < |candidates| && forall k | 0 <= k < |ranked| :: ranked[k] < |candidates|
  {
    if ranked == [] || Better(candidates[i], candidates[ranked[0]]) then [i] + ranked
    else [ranked[0]] + InsertRanked(i, ranked[1..], candidates)
  }

  /** Positions, best first, none twice. */
  predicate Ordered(ranked: seq<nat>, candidates: seq<Candidate>) {
    && (forall k | 0 <= k < |ranked| :: ranked[k] < |candidates|)
    && (forall a, b | 0 <= a < b < |ranked| :: ranked[a] != ranked[b] && !Better(candidates[ranked[b]], candidates[ranked[a]]))
  }

  lemma {:induction false} InsertKeepsOrder(i: nat, ranked: seq<nat>, candidates: seq<Candidate>)
    requires i < |candidates| && Ordered(ranked, candidates) && i !in ranked
    ensures Ordered(InsertRanked(i, ranked, candidates), candidates)
    ensures forall x :: x in InsertRanked(i, ranked, candidates) <==> x == i || x in ranked
  {
    if ranked != [] && !Better(candidates[i], candidates[ranked[0]]) {
      assert ranked == [ranked[0]] + ranked[1..];
      InsertKeepsOrder(i, ranked[1..], candidates);
      var rest := InsertRanked(i, ranked[1..], candidates);
      forall x | x in rest ensures x < |candidates| && x != ranked[0] && !Better(candidates[x], candidates[ranked[0]]) {
        if x != i { FirstIsBest(ranked, candidates, x); }
      }
      BestFirst(ranked[0], rest, candidates);
    }
  }

  lemma FirstIsBest(ranked: seq<nat>, candidates: seq<Candidate>, x: nat)
    requires Ordered(ranked, candidates) && ranked != [] && x in ranked[1..]
    ensures x < |candidates| && x != ranked[0] && !Better(candidates[x], candidates[ranked[0]])
  {
    var k :| 0 <= k < |ranked[1..]| && ranked[1..][k] == x;
    assert ranked[k + 1] == x;
  }

  lemma BestFirst(first: nat, rest: seq<nat>, candidates: seq<Candidate>)
    requires first < |candidates| && Ordered(rest, candidates)
    requires forall x | x in rest :: x < |candidates| && x != first && !Better(candidates[x], candidates[first])
    ensures Ordered([first] + rest, candidates)
  {
    forall b | 0 <= b < |rest| ensures rest[b] != first && !Better(candidates[rest[b]], candidates[first]) {
      assert rest[b] in rest;
    }
  }

  // ---- what a query leaves ----

  /** The entries that reading a snapshot leaves: its withdrawn claims, and those beyond the read limit as one. */
  function ReadNotes(s: Snapshot, q: Query): seq<Entry> {
    var shown := NotWithdrawn(s.listed);
    WithdrawnNotes(s.id, s.listed)
    + if |shown| > ReadLimit(q) then [Entry(s.id, None, false, Some("read-limit"), |shown| - ReadLimit(q))] else []
  }

  function WithdrawnNotes(snapshotId: int, claims: seq<Claim>): seq<Entry> {
    if claims == [] then []
    else (if claims[0].withdrawn then [Entry(snapshotId, Some(claims[0].claimId), false, Some("tombstoned"), 1)] else [])
         + WithdrawnNotes(snapshotId, claims[1..])
  }

  function ReadClaims(s: Snapshot, q: Query): seq<Candidate> {
    var shown := NotWithdrawn(s.listed);
    var n := if |shown| > ReadLimit(q) then ReadLimit(q) else |shown|;
    seq(n, i requires 0 <= i < n => Candidate(shown[i], s.id, RelevanceOf(shown[i], s, q)))
  }

  function Weight(entries: seq<Entry>): nat {
    if entries == [] then 0 else entries[0].count + Weight(entries[1..])
  }

  function Listed(snapshots: seq<Snapshot>): nat {
    if snapshots == [] then 0 else |snapshots[0].listed| + Listed(snapshots[1..])
  }

  /** The decision the trace should show for a candidate. */
  predicate Explains(e: Entry, c: Candidate, returned: bool) {
    && e.claimId == Some(c.claim.claimId) && e.snapshotId == c.snapshotId && e.count == 1
    && (e.included <==> returned) && (e.included <==> e.reason == None)
    && (e.reason == Some("claim-cap") <==> Eligible(c) && !returned)
    && (c.claim.freshness == Stale ==> e.reason == Some("stale"))
    && (c.claim.freshness == Expired ==> e.reason == Some("expired"))
    && (c.claim.freshness == Usable && c.detail.reason.Some? ==> e.reason == c.detail.reason)
  }

  lemma {:induction false} WeightOfBoth(a: seq<Entry>, b: seq<Entry>)
    ensures Weight(a + b) == Weight(a) + Weight(b)
  {
    if a == [] {
      assert a + b == b;
    } else {
      assert (a + b)[0] == a[0] && (a + b)[1..] == a[1..] + b;
      WeightOfBoth(a[1..], b);
    }
  }

  lemma {:induction false} WithdrawnOrShown(snapshotId: int, claims: seq<Claim>)
    ensures Weight(WithdrawnNotes(snapshotId, claims)) + |NotWithdrawn(claims)| == |claims|
  {
    if claims != [] {
      var notes := WithdrawnNotes(snapshotId, claims[1..]);
      WithdrawnOrShown(snapshotId, claims[1..]);
      if claims[0].withdrawn {
        var note := Entry(snapshotId, Some(claims[0].claimId), false, Some("tombstoned"), 1);
        assert ([note] + notes)[1..] == notes;
      } else {
        assert [] + notes == notes;
      }
    }
  }

  /** Every claim a snapshot lists is noted or becomes a candidate. */
  lemma SnapshotAccounted(s: Snapshot, q: Query)
    ensures Weight(ReadNotes(s, q)) + |ReadClaims(s, q)| == |s.listed|
  {
    var shown, notes := NotWithdrawn(s.listed), WithdrawnNotes(s.id, s.listed);
    WithdrawnOrShown(s.id, s.listed);
    if |shown| > ReadLimit(q) {
      var limit := Entry(s.id, None, false, Some("read-limit"), |shown| - ReadLimit(q));
      WeightOfBoth(notes, [limit]);
      assert [limit][1..] == [];
    } else {
      assert notes + [] == notes;
    }
  }

  lemma {:induction false} ListedLast(snapshots: seq<Snapshot>, i: nat)
    requires i < |snapshots|
    ensures Listed(snapshots[..i + 1]) == Listed(snapshots[..i]) + |snapshots[i].listed|
  {
    if i > 0 {
      ListedLast(snapshots[1..], i - 1);
      assert snapshots[..i + 1][1..] == snapshots[1..][..i] && snapshots[..i][1..] == snapshots[1..][..i - 1];
    } else {
      assert snapshots[..1][1..] == [];
    }
  }

  // ---- which claims a snapshot contributes ----

  /** Positions in the list of a snapshot: the first `limit` claims of it that are not withdrawn, in order. */
  ghost predicate FirstShown(listed: seq<Claim>, limit: nat, picked: seq<nat>) {
    && |picked| <= limit
    && (forall a, b | 0 <= a < b < |picked| :: picked[a] < picked[b])
    && (forall a | 0 <= a < |picked| :: picked[a] < |listed| && !listed[picked[a]].withdrawn)
    && (forall p: nat | p < |listed| && !listed[p].withdrawn && p !in picked ::
          |picked| == limit && forall a | 0 <= a < |picked| :: picked[a] < p)
  }

  /** The positions of all claims that are not withdrawn. */
  ghost function ShownAt(listed: seq<Claim>): seq<nat> {
    if listed == [] then []
    else
      var n := |listed| - 1;
      ShownAt(listed[..n]) + if listed[n].withdrawn then [] else [n]
  }

  ghost predicate AllShown(listed: seq<Claim>, at: seq<nat>) {
    && (forall a | 0 <= a < |at| :: at[a] < |listed| && !listed[at[a]].withdrawn)
    && (forall a, b | 0 <= a < b < |at| :: at[a] < at[b])
    && (forall p: nat | p < |listed| && !listed[p].withdrawn :: p in at)
  }

  lemma {:induction false} ShownAtMeaning(listed: seq<Claim>)
    ensures AllShown(listed, ShownAt(listed))
    decreases |listed|
  {
    if listed != [] {
      var n := |listed| - 1;
      var before, at := ShownAt(listed[..n]), ShownAt(listed);
      ShownAtMeaning(listed[..n]);
      forall p: nat | p <= n && !listed[p].withdrawn ensures p in at {
        if p < n { assert !listed[..n][p].withdrawn && p in before; } else { assert at[|before|] == n; }
      }
    }
  }

  lemma {:induction false} NotWithdrawnOfBoth(a: seq<Claim>, b: seq<Claim>)
    ensures NotWithdrawn(a + b) == NotWithdrawn(a) + NotWithdrawn(b)
  {
    if a == [] {
      assert a + b == b;
    } else {
      assert (a + b)[0] == a[0] && (a + b)[1..] == a[1..] + b;
      NotWithdrawnOfBoth(a[1..], b);
    }
  }

  /** The claims at these positions are what is shown. */
  ghost predicate ClaimsAt(shown: seq<Claim>, listed: seq<Claim>, at: seq<nat>) {
    |shown| == |at| && forall a | 0 <= a < |at| :: at[a] < |listed| && shown[a] == listed[at[a]]
  }

  lemma {:induction false} ShownInOrder(listed: seq<Claim>)
    ensures ClaimsAt(NotWithdrawn(listed), listed, ShownAt(listed))
    decreases |listed|
  {
    if listed != [] {
      var n := |listed| - 1;
      ShownInOrder(listed[..n]);
      assert listed == listed[..n] + [listed[n]];
      NotWithdrawnOfBoth(listed[..n], [listed[n]]);
      NotWithdrawnOne(listed[n]);
      ClaimsOneMore(NotWithdrawn(listed[..n]), listed, ShownAt(listed[..n]));
    }
  }

  lemma NotWithdrawnOne(c: Claim)
    ensures NotWithdrawn([c]) == if c.withdrawn then [] else [c]
  {
    assert [c][1..] == [];
  }

  lemma ClaimsOneMore(shown: seq<Claim>, listed: seq<Claim>, at: seq<nat>)
    requires listed != [] && ClaimsAt(shown, listed[..|listed| - 1], at)
    ensures ClaimsAt(shown + [], listed, at + []) && ClaimsAt(shown + [listed[|listed| - 1]], listed, at + [|listed| - 1])
  {
    assert shown + [] == shown && at + [] == at;
  }

  lemma CutIsFirstShown(listed: seq<Claim>, limit: nat, at: seq<nat>, picked: seq<nat>)
    requires AllShown(listed, at) && picked == if |at| > limit then at[..limit] else at
    ensures FirstShown(listed, limit, picked)
  {
    forall p: nat | p < |listed| && !listed[p].withdrawn && p !in picked
      ensures |picked| == limit && forall a | 0 <= a < |picked| :: picked[a] < p {
      var k :| 0 <= k < |at| && at[k] == p;
      assert forall a | 0 <= a < |picked| :: picked[a] == at[a] && picked[a] in picked;
    }
  }

  /** The candidate is the claim at the position, with its relevance decision. */
  ghost predicate CandidateIs(c: Candidate, s: Snapshot, q: Query, p: nat) {
    && p < |s.listed| && c.claim == s.listed[p] && c.snapshotId == s.id
    && c.detail == RelevanceOf(s.listed[p], s, q)
  }

  lemma ReadClaimAt(s: Snapshot, q: Query, at: seq<nat>, a: nat)
    requires ClaimsAt(NotWithdrawn(s.listed), s.listed, at) && a < |ReadClaims(s, q)|
    ensures a < |at| && CandidateIs(ReadClaims(s, q)[a], s, q, at[a])
  {
  }

  lemma ReadCount(s: Snapshot, q: Query)
    ensures var limit, shown := if 4 * q.maxClaims < 100 then 4 * q.maxClaims else 100, |NotWithdrawn(s.listed)|;
            |ReadClaims(s, q)| == if shown > limit then limit else shown
  {
  }

  /** The candidates of a snapshot are the first of its claims that are not withdrawn, four times as many as the query may
      return but at most 100, each with its relevance decision. */
  lemma CandidatesAreFirstShown(s: Snapshot, q: Query) returns (picked: seq<nat>)
    ensures FirstShown(s.listed, if 4 * q.maxClaims < 100 then 4 * q.maxClaims else 100, picked)
    ensures |ReadClaims(s, q)| == |picked| && forall a | 0 <= a < |picked| :: CandidateIs(ReadClaims(s, q)[a], s, q, picked[a])
  {
    var limit: nat := if 4 * q.maxClaims < 100 then 4 * q.maxClaims else 100;
    var at := ShownAt(s.listed);
    picked := if |at| > limit then at[..limit] else at;
    ShownInOrder(s.listed);
    ShownAtMeaning(s.listed);
    CutIsFirstShown(s.listed, limit, at, picked);
    ReadCount(s, q);
    forall a | 0 <= a < |picked| ensures CandidateIs(ReadClaims(s, q)[a], s, q, picked[a]) { ReadClaimAt(s, q, at, a); }
  }

  // ---- which claim is better ----

  ghost function Points(c: Claim, s: Snapshot): int {
    8 * c.queryMatches + 2 * c.profileMatches + (if s.exactScope then 4 else 2) + (if c.ownProvider then 0 else 1)
  }

  /** Of two eligible claims the one with more points is better: eight for a query term, two for a term of the profile, two
      more for the exact scope, one for another provider. With equal points it is the one accepted later, and of two
      accepted at one time that with the lesser key. */
  lemma BetterExactly(c: Claim, s: Snapshot, d: Claim, t: Snapshot, q: Query)
    requires Eligible(Candidate(c, s.id, RelevanceOf(c, s, q))) && Eligible(Candidate(d, t.id, RelevanceOf(d, t, q)))
    ensures Better(Candidate(c, s.id, RelevanceOf(c, s, q)), Candidate(d, t.id, RelevanceOf(d, t, q))) <==>
              if Points(c, s) != Points(d, t) then Points(c, s) > Points(d, t)
              else if c.acceptedAt != d.acceptedAt then c.acceptedAt > d.acceptedAt
              else c.claimKey < d.claimKey
  {
    EligibleExactly(c, s, q);
    EligibleExactly(d, t, q);
  }

  /** Why a claim is not eligible: the first of the rules that it fails. */
  lemma ReasonExactly(c: Claim, s: Snapshot, q: Query)
    ensures var reason := RelevanceOf(c, s, q).reason;
            && (reason == Some("claim-type") <==> !c.typeAllowed)
            && (reason == Some("provider") <==> c.typeAllowed && !c.ownProvider && !q.crossProvider)
            && (reason == Some("private-other-provider") <==> c.typeAllowed && !c.ownProvider && q.crossProvider && !c.shared)
            && (reason == Some("relation") <==> c.typeAllowed && !s.related && (c.ownProvider || (q.crossProvider && c.shared)))
            && (reason == Some("term-miss") <==>
                  && c.typeAllowed && s.related && (c.ownProvider || (q.crossProvider && c.shared))
                  && q.hasTerms && c.queryMatches == 0 && !(q.narrowScope && s.exactScope) && !(s.globalScope && !q.globalScope))
            && (reason.Some? ==> reason.value in {"claim-type", "provider", "private-other-provider", "relation", "term-miss"})
    ensures RelevanceOf(c, s, q).score ==
              if c.typeAllowed && s.related && (c.ownProvider || (q.crossProvider && c.shared)) then Some(Points(c, s)) else None
  {
    assert "claim-type"[0] == 'c' && "provider"[1] == 'r' && "private-other-provider"[2] == 'i' && "provider"[2] == 'o';
    assert "relation"[0] == 'r' && "term-miss"[0] == 't' && "provider"[0] == 'p' && "private-other-provider"[0] == 'p';
  }

  // ---- what a snapshot's notes say ----

  lemma {:induction false} WithdrawnNoted(snapshotId: int, listed: seq<Claim>, p: nat)
    requires p < |listed| && listed[p].withdrawn
    ensures Entry(snapshotId, Some(listed[p].claimId), false, Some("tombstoned"), 1) in WithdrawnNotes(snapshotId, listed)
  {
    if p > 0 { WithdrawnNoted(snapshotId, listed[1..], p - 1); }
  }

  /** Each withdrawn claim is named by its id, and a claim beyond the read limit by nothing. */
  lemma NotesMeaning(s: Snapshot, q: Query)
    ensures forall p: nat | p < |s.listed| && s.listed[p].withdrawn ::
              Entry(s.id, Some(s.listed[p].claimId), false, Some("tombstoned"), 1) in ReadNotes(s, q)
    ensures forall e | e in ReadNotes(s, q) ::
              && e.snapshotId == s.id && !e.included
              && match e.claimId
                 case Some(id) => e.reason == Some("tombstoned") && e.count == 1 && exists p :: 0 <= p < |s.listed| && s.listed[p].withdrawn && s.listed[p].claimId == id
                 case None => e.reason == Some("read-limit") && e.count + |ReadClaims(s, q)| == |ShownAt(s.listed)|
  {
    forall p: nat | p < |s.listed| && s.listed[p].withdrawn
      ensures Entry(s.id, Some(s.listed[p].claimId), false, Some("tombstoned"), 1) in ReadNotes(s, q) {
      WithdrawnNoted(s.id, s.listed, p);
    }
    ShownInOrder(s.listed);
    forall e | e in WithdrawnNotes(s.id, s.listed) ensures IsTombstone(e, s.id, s.listed) {
      NotedWithdrawn(s.id, s.listed, e);
    }
  }

  ghost predicate IsTombstone(e: Entry, snapshotId: int, listed: seq<Claim>) {
    exists p :: && 0 <= p < |listed| && listed[p].withdrawn
                && e == Entry(snapshotId, Some(listed[p].claimId), false, Some("tombstoned"), 1)
  }

  lemma {:induction false} NotedWithdrawn(snapshotId: int, listed: seq<Claim>, e: Entry)
    requires e in WithdrawnNotes(snapshotId, listed)
    ensures IsTombstone(e, snapshotId, listed)
  {
    if !(listed[0].withdrawn && e == Entry(snapshotId, Some(listed[0].claimId), false, Some("tombstoned"), 1)) {
      NotedWithdrawn(snapshotId, listed[1..], e);
      var p :| && 0 <= p < |listed[1..]| && listed[1..][p].withdrawn
               && e == Entry(snapshotId, Some(listed[1..][p].claimId), false, Some("tombstoned"), 1);
      assert listed[p + 1].withdrawn;
    }
  }

  function AllCandidates(snapshots: seq<Snapshot>, q: Query): seq<Candidate> {
    if snapshots == [] then []
    else AllCandidates(snapshots[..|snapshots| - 1], q) + ReadClaims(snapshots[|snapshots| - 1], q)
  }

  function AllNotes(snapshots: seq<Snapshot>, q: Query): seq<Entry> {
    if snapshots == [] then []
    else AllNotes(snapshots[..|snapshots| - 1], q) + ReadNotes(snapshots[|snapshots| - 1], q)
  }

  /** Reading the selected snapshots. */
  method ReadSnapshots(snapshots: seq<Snapshot>, q: Query) returns (candidates: seq<Candidate>, notes: seq<Entry>)
    ensures candidates == AllCandidates(snapshots, q) && notes == AllNotes(snapshots, q)
    ensures Weight(notes) + |candidates| == Listed(snapshots)
    ensures forall e | e in notes :: !e.included && e.reason.Some?
    ensures forall c | c in candidates :: exists s | s in snapshots ::
              c.snapshotId == s.id && c.claim in NotWithdrawn(s.listed) && c.detail == RelevanceOf(c.claim, s, q)
  {
    candidates, notes := [], [];
    for i := 0 to |snapshots|
      invariant candidates == AllCandidates(snapshots[..i], q) && notes == AllNotes(snapshots[..i], q)
      invariant Weight(notes) + |candidates| == Listed(snapshots[..i])
      invariant forall e | e in notes :: !e.included && e.reason.Some?
      invariant forall c | c in candidates :: exists s | s in snapshots ::
                  c.snapshotId == s.id && c.claim in NotWithdrawn(s.listed) && c.detail == RelevanceOf(c.claim, s, q)
    {
      var s := snapshots[i];
      assert snapshots[..i + 1][..i] == snapshots[..i];
      SnapshotAccounted(s, q);
      ListedLast(snapshots, i);
      WeightOfBoth(notes, ReadNotes(s, q));
      NotesExclude(s, q);
      notes := notes + ReadNotes(s, q);
      candidates := candidates + ReadClaims(s, q);
    }
    assert snapshots[..|snapshots|] == snapshots;
  }

  lemma NotesExclude(s: Snapshot, q: Query)
    ensures forall e | e in ReadNotes(s, q) :: !e.included && e.reason.Some?
  {
    WithdrawnExclude(s.id, s.listed);
  }

  lemma {:induction false} WithdrawnExclude(snapshotId: int, claims: seq<Claim>)
    ensures forall e | e in WithdrawnNotes(snapshotId, claims) :: !e.included && e.reason.Some?
  {
    if claims != [] { WithdrawnExclude(snapshotId, claims[1..]); }
  }

  /** The claims a query returns: the best eligible ones, up to the cap. */
  predicate ReturnsBest(candidates: seq<Candidate>, returned: seq<nat>, maxClaims: nat) {
    && |returned| <= maxClaims && Ordered(returned, candidates)
    && (forall i | i in returned :: i < |candidates| && Eligible(candidates[i]))
    && (forall i | 0 <= i < |candidates| && Eligible(candidates[i]) && i !in returned ::
          |returned| == maxClaims && forall k | k in returned :: k < |candidates| && !Better(candidates[i], candidates[k]))
  }

  /** Candidate selection in `buildContextQuery`: filter, sort, slice. */
  method SelectClaims(candidates: seq<Candidate>, q: Query) returns (returned: seq<nat>)
    ensures ReturnsBest(candidates, returned, q.maxClaims)
  {
    var ranked: seq<nat> := [];
    for i := 0 to |candidates|
      invariant Ordered(ranked, candidates)
      invariant forall x: nat :: x in ranked <==> x < i && Eligible(candidates[x])
    {
      if Eligible(candidates[i]) {
        InsertKeepsOrder(i, ranked, candidates);
        ranked := InsertRanked(i, ranked, candidates);
      }
    }
    returned := if |ranked| > q.maxClaims then ranked[..q.maxClaims] else ranked;
    CutIsBest(candidates, ranked, returned, q.maxClaims);
  }

  lemma BeyondCut(candidates: seq<Candidate>, ranked: seq<nat>, n: nat, i: nat)
    requires Ordered(ranked, candidates) && n <= |ranked| && i in ranked && forall b | 0 <= b < n :: ranked[b] != i
    ensures n < |ranked| && i < |candidates|
    ensures forall b | 0 <= b < n :: !Better(candidates[i], candidates[ranked[b]])
  {
    var a :| 0 <= a < |ranked| && ranked[a] == i;
  }

  lemma CutIsBest(candidates: seq<Candidate>, ranked: seq<nat>, returned: seq<nat>, maxClaims: nat)
    requires Ordered(ranked, candidates) && forall x: nat :: x in ranked <==> x < |candidates| && Eligible(candidates[x])
    requires returned == if |ranked| > maxClaims then ranked[..maxClaims] else ranked
    ensures ReturnsBest(candidates, returned, maxClaims)
  {
    var n := |returned|;
    assert returned == ranked[..n];
    forall i | i in returned ensures i < |candidates| && Eligible(candidates[i]) {
      assert i in ranked;
    }
    forall i: nat | i < |candidates| && Eligible(candidates[i]) && i !in returned
      ensures n == maxClaims && forall k | k in returned :: k < |candidates| && !Better(candidates[i], candidates[k]) {
      assert forall b | 0 <= b < n :: returned[b] in returned && ranked[b] == returned[b];
      BeyondCut(candidates, ranked, n, i);
    }
  }

  /** A relevance decision either gives a score or a reason. */
  predicate Decided(c: Candidate) {
    && (c.detail.reason == None ==> c.detail.score.Some? && c.detail.score.value >= 0)
    && c.detail.reason != Some("claim-cap")
  }

  /** The loop that explains every candidate. */
  method Decide(candidates: seq<Candidate>, returned: seq<nat>) returns (decisions: seq<Entry>)
    requires forall c | c in candidates :: Decided(c)
    requires forall i | i in returned :: i < |candidates| && Eligible(candidates[i])
    ensures |decisions| == |candidates| == Weight(decisions)
    ensures forall i | 0 <= i < |candidates| :: Explains(decisions[i], candidates[i], i in returned)
  {
    decisions := [];
    for i := 0 to |candidates|
      invariant |decisions| == i && Weight(decisions) == i
      invariant forall j | 0 <= j < i :: Explains(decisions[j], candidates[j], j in returned)
    {
      var c := candidates[i];
      var detail := c.detail;
      assert c in candidates && Decided(c);
      var reason :=
        if c.claim.freshness == Stale then Some("stale")
        else if c.claim.freshness == Expired then Some("expired")
        else if detail.reason.Some? then detail.reason
        else if i in returned then None else Some("claim-cap");
      var entry := Entry(c.snapshotId, Some(c.claim.claimId), reason == None, reason, 1);
      WeightOfBoth(decisions, [entry]);
      assert [entry][1..] == [];
      decisions := decisions + [entry];
    }
  }

  /** The decisions of a query: every claim listed by a selected snapshot is accounted for once, and an entry says
      `included` exactly for the claims returned. */
  method BuildTrace(snapshots: seq<Snapshot>, q: Query)
    returns (candidates: seq<Candidate>, returned: seq<nat>, notes: seq<Entry>, decisions: seq<Entry>)
    ensures candidates == AllCandidates(snapshots, q) && notes == AllNotes(snapshots, q)
    ensures ReturnsBest(candidates, returned, q.maxClaims)
    ensures |decisions| == |candidates| && forall i | 0 <= i < |candidates| :: Explains(decisions[i], candidates[i], i in returned)
    ensures forall e | e in notes :: !e.included && e.reason.Some?
    ensures Weight(notes + decisions) == Listed(snapshots)
    ensures Included(notes + decisions) == |returned|
  {
    candidates, notes := ReadSnapshots(snapshots, q);
    returned := SelectClaims(candidates, q);
    AllDecided(candidates, snapshots, q);
    decisions := Decide(candidates, returned);
    WeightOfBoth(notes, decisions);
    IncludedOfBoth(notes, decisions);
    NoneIncluded(notes);
    IncludedAre(decisions, candidates, returned);
  }

  lemma AllDecided(candidates: seq<Candidate>, snapshots: seq<Snapshot>, q: Query)
    requires forall c | c in candidates :: exists s | s in snapshots ::
               c.snapshotId == s.id && c.claim in NotWithdrawn(s.listed) && c.detail == RelevanceOf(c.claim, s, q)
    ensures forall c | c in candidates :: Decided(c)
  {
  }

  function Included(entries: seq<Entry>): nat {
    if entries == [] then 0 else (if entries[0].included then entries[0].count else 0) + Included(entries[1..])
  }

  lemma {:induction false} IncludedOfBoth(a: seq<Entry>, b: seq<Entry>)
    ensures Included(a + b) == Included(a) + Included(b)
  {
    if a == [] {
      assert a + b == b;
    } else {
      assert (a + b)[0] == a[0] && (a + b)[1..] == a[1..] + b;
      IncludedOfBoth(a[1..], b);
    }
  }

  lemma {:induction false} NoneIncluded(entries: seq<Entry>)
    requires forall e | e in entries :: !e.included
    ensures Included(entries) == 0
  {
    if entries != [] { NoneIncluded(entries[1..]); }
  }

  lemma {:induction false} IncludedCount(entries: seq<Entry>)
    requires forall i | 0 <= i < |entries| :: entries[i].count == 1
    ensures Included(entries) == |set i | 0 <= i < |entries| && entries[i].included|
    decreases |entries|
  {
    var all := set i | 0 <= i < |entries| && entries[i].included;
    if entries == [] {
      assert all == {};
    } else {
      var n := |entries| - 1;
      var before := set i | 0 <= i < n && entries[..n][i].included;
      IncludedCount(entries[..n]);
      IncludedOfBoth(entries[..n], [entries[n]]);
      assert entries == entries[..n] + [entries[n]];
      assert Included([entries[n]]) == if entries[n].included then 1 else 0 by { assert [entries[n]][1..] == []; }
      assert all == before + if entries[n].included then {n} else {};
    }
  }

  function Members(s: seq<nat>): set<nat> {
    set x | x in s
  }

  lemma {:induction false} DistinctCount(s: seq<nat>)
    requires forall a, b | 0 <= a < b < |s| :: s[a] != s[b]
    ensures |Members(s)| == |s|
  {
    if s != [] {
      DistinctCount(s[1..]);
      assert s == [s[0]] + s[1..];
      assert Members(s) == Members(s[1..]) + {s[0]};
      forall b | 0 <= b < |s[1..]| ensures s[1..][b] != s[0] {}
      assert s[0] !in Members(s[1..]);
    }
  }

  lemma IncludedAre(decisions: seq<Entry>, candidates: seq<Candidate>, returned: seq<nat>)
    requires |decisions| == |candidates| && forall i | 0 <= i < |candidates| :: Explains(decisions[i], candidates[i], i in returned)
    requires (forall i | i in returned :: i < |candidates|) && forall a, b | 0 <= a < b < |returned| :: returned[a] != returned[b]
    ensures Included(decisions) == |returned|
  {
    IncludedCount(decisions);
    DistinctCount(returned);
    var a := set i | 0 <= i < |decisions| && decisions[i].included;
    var b := Members(returned);
    assert forall i :: i in a <==> i in b;
    assert a == b;
  }

  // ---- layers and counts ----

  datatype Layer = Layer(included: nat, excluded: nat, reasons: map<string, nat>)

  function CountOf(entries: seq<Entry>, reason: string): nat {
    if entries == [] then 0
    else (if !entries[0].included && entries[0].reason == Some(reason) then entries[0].count else 0) + CountOf(entries[1..], reason)
  }

  function Of(reasons: map<string, nat>, reason: string): nat {
    if reason in reasons then reasons[reason] else 0
  }

  /** The layer says, for its entries, how much was included, how much was not, and why. */
  ghost predicate Sums(layer: Layer, entries: seq<Entry>) {
    && layer.included == Included(entries) && layer.included + layer.excluded == Weight(entries)
    && forall reason :: Of(layer.reasons, reason) == CountOf(entries, reason)
  }

  lemma {:induction false} CountOfLast(entries: seq<Entry>, i: nat, reason: string)
    requires i < |entries|
    ensures var e := entries[i];
            && CountOf(entries[..i + 1], reason)
               == CountOf(entries[..i], reason) + (if !e.included && e.reason == Some(reason) then e.count else 0)
            && Included(entries[..i + 1]) == Included(entries[..i]) + (if e.included then e.count else 0)
            && Weight(entries[..i + 1]) == Weight(entries[..i]) + e.count
  {
    if i == 0 {
      assert entries[..1][1..] == [];
    } else {
      CountOfLast(entries[1..], i - 1, reason);
      assert entries[..i + 1][1..] == entries[1..][..i] && entries[..i][1..] == entries[1..][..i - 1];
    }
  }

  /** `summarize`, for a layer that is on. */
  method Summarize(entries: seq<Entry>) returns (layer: Layer)
    ensures Sums(layer, entries)
  {
    var included: nat, excluded: nat := 0, 0;
    var reasons: map<string, nat> := map[];
    for i := 0 to |entries|
      invariant included == Included(entries[..i]) && included + excluded == Weight(entries[..i])
      invariant forall reason :: Of(reasons, reason) == CountOf(entries[..i], reason)
    {
      var e := entries[i];
      forall reason ensures CountOf(entries[..i + 1], reason)
                         == CountOf(entries[..i], reason) + (if !e.included && e.reason == Some(reason) then e.count else 0) {
        CountOfLast(entries, i, reason);
      }
      CountOfLast(entries, i, "");
      if e.included {
        included := included + e.count;
      } else {
        excluded := excluded + e.count;
        if e.reason.Some? {
          var reason := e.reason.value;
          reasons := reasons[reason := Of(reasons, reason) + e.count];
        }
      }
    }
    assert entries[..|entries|] == entries;
    layer := Layer(included, excluded, reasons);
  }

  // ---- the accepted layers are a partition ----

  /** The role of a snapshot in the trace; the last entry for an id counts. */
  function RoleFor(roles: seq<(int, string)>, snapshotId: int): string {
    if roles == [] then "related"
    else if roles[|roles| - 1].0 == snapshotId then roles[|roles| - 1].1
    else RoleFor(roles[..|roles| - 1], snapshotId)
  }

  /** It is the role of the last entry for the snapshot, and `related` where there is none. */
  lemma {:induction false} RoleForMeaning(roles: seq<(int, string)>, snapshotId: int, k: int)
    requires -1 <= k < |roles| && forall l | k < l < |roles| :: roles[l].0 != snapshotId
    requires k >= 0 ==> roles[k].0 == snapshotId
    ensures RoleFor(roles, snapshotId) == if k == -1 then "related" else roles[k].1
    decreases |roles|
  {
    if roles != [] && roles[|roles| - 1].0 != snapshotId {
      RoleForMeaning(roles[..|roles| - 1], snapshotId, k);
    }
  }

  const LAYERS: seq<string> := ["primary", "ambient-project", "ambient-global", "related"]

  predicate InLayer(layer: string, e: Entry, roles: seq<(int, string)>) {
    var actual := RoleFor(roles, e.snapshotId);
    if layer == "related" then actual != "primary" && actual != "ambient-project" && actual != "ambient-global"
    else actual == layer
  }

  function LayerEntries(layer: string, entries: seq<Entry>, roles: seq<(int, string)>): seq<Entry> {
    if entries == [] then []
    else (if InLayer(layer, entries[0], roles) then [entries[0]] else []) + LayerEntries(layer, entries[1..], roles)
  }

  /** An entry is in a named layer if that is the role of its snapshot, and in the last one if its role is no other name. */
  lemma {:induction false} LayerHolds(layer: string, entries: seq<Entry>, roles: seq<(int, string)>, e: Entry)
    requires layer in {"primary", "ambient-project", "ambient-global", "related"}
    ensures e in LayerEntries(layer, entries, roles) <==>
              && e in entries
              && var role := RoleFor(roles, e.snapshotId);
                 if layer == "related" then role !in {"primary", "ambient-project", "ambient-global"} else role == layer
    decreases |entries|
  {
    if entries != [] {
      assert entries == [entries[0]] + entries[1..];
      LayerHolds(layer, entries[1..], roles, e);
    }
  }

  lemma LayerFirst(layer: string, entries: seq<Entry>, roles: seq<(int, string)>, reason: string)
    requires entries != []
    ensures var mine, rest := InLayer(layer, entries[0], roles), LayerEntries(layer, entries[1..], roles);
            var all, e := LayerEntries(layer, entries, roles), entries[0];
            && CountOf(all, reason)
               == (if mine && !e.included && e.reason == Some(reason) then e.count else 0) + CountOf(rest, reason)
            && Included(all) == (if mine && e.included then e.count else 0) + Included(rest)
            && Weight(all) == (if mine then e.count else 0) + Weight(rest)
  {
    var rest := LayerEntries(layer, entries[1..], roles);
    if InLayer(layer, entries[0], roles) {
      assert ([entries[0]] + rest)[1..] == rest;
    } else {
      assert [] + rest == rest;
    }
  }

  /** Every entry is in exactly one of the four accepted layers: their sums are those of the whole trace. */
  lemma {:induction false} LayersPartition(entries: seq<Entry>, roles: seq<(int, string)>, reason: string)
    ensures CountOf(entries, reason)
         == CountOf(LayerEntries("primary", entries, roles), reason) + CountOf(LayerEntries("ambient-project", entries, roles), reason)
          + CountOf(LayerEntries("ambient-global", entries, roles), reason) + CountOf(LayerEntries("related", entries, roles), reason)
    ensures Included(entries)
         == Included(LayerEntries("primary", entries, roles)) + Included(LayerEntries("ambient-project", entries, roles))
          + Included(LayerEntries("ambient-global", entries, roles)) + Included(LayerEntries("related", entries, roles))
    ensures Weight(entries)
         == Weight(LayerEntries("primary", entries, roles)) + Weight(LayerEntries("ambient-project", entries, roles))
          + Weight(LayerEntries("ambient-global", entries, roles)) + Weight(LayerEntries("related", entries, roles))
    decreases |entries|
  {
    if entries != [] {
      LayersPartition(entries[1..], roles, reason);
      LayerFirst("primary", entries, roles, reason);
      LayerFirst("ambient-project", entries, roles, reason);
      LayerFirst("ambient-global", entries, roles, reason);
      LayerFirst("related", entries, roles, reason);
      OneLayer(entries[0], roles);
    }
  }

  lemma OneLayer(e: Entry, roles: seq<(int, string)>)
    ensures InLayer("primary", e, roles) || InLayer("ambient-project", e, roles) || InLayer("ambient-global", e, roles)
         || InLayer("related", e, roles)
    ensures !(InLayer("primary", e, roles) && InLayer("ambient-project", e, roles))
    ensures !(InLayer("primary", e, roles) && InLayer("ambient-global", e, roles))
    ensures !(InLayer("ambient-project", e, roles) && InLayer("ambient-global", e, roles))
    ensures InLayer("related", e, roles) ==>
              !InLayer("primary", e, roles) && !InLayer("ambient-project", e, roles) && !InLayer("ambient-global", e, roles)
  {
    assert "primary"[0] != "ambient-project"[0] && "ambient-project"[8] != "ambient-global"[8] && "primary"[0] != "ambient-global"[0];
    assert "related"[0] != "primary"[0] && "related"[0] != "ambient-project"[0];
  }

  /** `traceCounts`, over the candidates and the peer progress. An included entry counts as one. */
  method TraceCounts(candidates: seq<Entry>, peers: seq<Entry>) returns (included: nat, excludedByReason: map<string, nat>)
    requires forall e | e in candidates + peers :: e.included ==> e.count == 1
    ensures included == Included(candidates) + Included(peers)
    ensures forall reason :: Of(excludedByReason, reason) == CountOf(candidates, reason) + CountOf(peers, reason)
  {
    var entries := candidates + peers;
    included, excludedByReason := 0, map[];
    for i := 0 to |entries|
      invariant included == Included(entries[..i])
      invariant forall reason :: Of(excludedByReason, reason) == CountOf(entries[..i], reason)
    {
      var e := entries[i];
      assert e in entries;
      forall reason ensures CountOf(entries[..i + 1], reason)
                         == CountOf(entries[..i], reason) + (if !e.included && e.reason == Some(reason) then e.count else 0) {
        CountOfLast(entries, i, reason);
      }
      CountOfLast(entries, i, "");
      if e.included {
        included := included + 1;
      } else if e.reason.Some? {
        var reason := e.reason.value;
        excludedByReason := excludedByReason[reason := Of(excludedByReason, reason) + e.count];
      }
    }
    assert entries[..|entries|] == entries;
    IncludedOfBoth(candidates, peers);
    forall reason ensures CountOf(entries, reason) == CountOf(candidates, reason) + CountOf(peers, reason) {
      CountOfBoth(candidates, peers, reason);
    }
  }

  lemma {:induction false} CountOfBoth(a: seq<Entry>, b: seq<Entry>, reason: string)
    ensures CountOf(a + b, reason) == CountOf(a, reason) + CountOf(b, reason)
  {
    if a == [] {
      assert a + b == b;
    } else {
      assert (a + b)[0] == a[0] && (a + b)[1..] == a[1..] + b;
      CountOfBoth(a[1..], b, reason);
    }
  }

  /** The accepted layers and the peer layer of a query's trace add up, reason by reason, to its counts. */
  method Layers(candidates: seq<Entry>, peers: seq<Entry>, roles: seq<(int, string)>)
    returns (accepted: seq<Layer>, peer: Layer, included: nat, excludedByReason: map<string, nat>)
    requires forall e | e in candidates + peers :: e.included ==> e.count == 1
    ensures |accepted| == 4
    ensures Sums(accepted[0], LayerEntries("primary", candidates, roles)) && Sums(accepted[1], LayerEntries("ambient-project", candidates, roles))
    ensures Sums(accepted[2], LayerEntries("ambient-global", candidates, roles)) && Sums(accepted[3], LayerEntries("related", candidates, roles))
    ensures accepted[0].excluded + accepted[1].excluded + accepted[2].excluded + accepted[3].excluded
         == Weight(candidates) - Included(candidates)
    ensures accepted[0].included + accepted[1].included + accepted[2].included + accepted[3].included == Included(candidates)
    ensures included == accepted[0].included + accepted[1].included + accepted[2].included + accepted[3].included + peer.included
    ensures forall reason :: Of(excludedByReason, reason)
              == Of(accepted[0].reasons, reason) + Of(accepted[1].reasons, reason) + Of(accepted[2].reasons, reason)
               + Of(accepted[3].reasons, reason) + Of(peer.reasons, reason)
  {
    accepted := [];
    for k := 0 to |LAYERS|
      invariant |accepted| == k && forall j | 0 <= j < k :: Sums(accepted[j], LayerEntries(LAYERS[j], candidates, roles))
    {
      var layer := Summarize(LayerEntries(LAYERS[k], candidates, roles));
      accepted := accepted + [layer];
    }
    peer := Summarize(peers);
    included, excludedByReason := TraceCounts(candidates, peers);
    LayersPartition(candidates, roles, "");
    forall reason ensures Of(excludedByReason, reason)
              == Of(accepted[0].reasons, reason) + Of(accepted[1].reasons, reason) + Of(accepted[2].reasons, reason)
               + Of(accepted[3].reasons, reason) + Of(peer.reasons, reason) {
      LayersPartition(candidates, roles, reason);
    }
  }

  /** A query and its trace: the accepted layers include as much as the query returns, and exclude, each with its reason,
      all the rest of what the selected snapshots list. */
  method TraceQuery(snapshots: seq<Snapshot>, q: Query, peers: seq<Entry>, roles: seq<(int, string)>)
    returns (returned: seq<nat>, accepted: seq<Layer>, peer: Layer, excludedByReason: map<string, nat>)
    requires forall e | e in peers :: e.included ==> e.count == 1
    ensures ReturnsBest(AllCandidates(snapshots, q), returned, q.maxClaims)
    ensures |accepted| == 4
    ensures accepted[0].included + accepted[1].included + accepted[2].included + accepted[3].included == |returned|
    ensures accepted[0].excluded + accepted[1].excluded + accepted[2].excluded + accepted[3].excluded
         == Listed(snapshots) - |returned|
    ensures forall reason :: Of(excludedByReason, reason)
              == Of(accepted[0].reasons, reason) + Of(accepted[1].reasons, reason) + Of(accepted[2].reasons, reason)
               + Of(accepted[3].reasons, reason) + Of(peer.reasons, reason)
  {
    var candidates, notes, decisions;
    candidates, returned, notes, decisions := BuildTrace(snapshots, q);
    var included;
    accepted, peer, included, excludedByReason := Layers(notes + decisions, peers, roles);
  }
}
