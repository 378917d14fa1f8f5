/** Withdrawing claims (`src/claims-withdraw.mts`) under readers that go through a registry which may be one state
    behind (`src/context-query.mjs`). */
module ClaimWithdrawal {
  import opened Wrappers

  /** A claim id is a hash; ids are ordered as their texts are. */
  datatype IndexEntry = IndexEntry(claimKey: string, claimId: int, canonicalRefs: set<string>)

  datatype Snapshot = Snapshot(snapshotId: nat, version: nat, baseHash: Option<Hash>, scopeKey: string, claimIds: seq<int>,
                               canonicalRefs: set<string>)

  datatype Hash = Sha(snapshot: Snapshot)

  datatype ScopeEntry = ScopeEntry(scopeKey: string, snapshotId: nat, snapshotHash: Hash, version: nat, index: seq<IndexEntry>)

  /** Pairs of a scope key and a claim key. */
  type KeyPairs = set<(string, string)>

  datatype State = State(scopes: seq<ScopeEntry>, tombstones: KeyPairs, withdrawnPublications: set<int>)

  datatype RegistryEntry = RegistryEntry(snapshotId: nat, digest: Hash, version: nat)

  datatype Disk = Disk(state: State, snapshots: map<nat, Snapshot>, registry: seq<RegistryEntry>)

  datatype Error = NotWithdrawable

  // ---- lists of ids ----

  function Insert(id: int, ids: seq<int>): seq<int> {
    if ids == [] || id <= ids[0] then [id] + ids else [ids[0]] + Insert(id, ids[1..])
  }

  function Sorted(ids: seq<int>): seq<int> {
    if ids == [] then [] else Insert(ids[0], Sorted(ids[1..]))
  }

  function Keep(ids: seq<int>, allowed: set<int>): seq<int> {
    if ids == [] then []
    else (if ids[0] in allowed then [ids[0]] else []) + Keep(ids[1..], allowed)
  }

  function Ids(index: seq<IndexEntry>): seq<int> {
    seq(|index|, i requires 0 <= i < |index| => index[i].claimId)
  }

  predicate Ascending(ids: seq<int>) {
    forall i, j | 0 <= i < j < |ids| :: ids[i] <= ids[j]
  }

  lemma {:induction false} InsertIsSorted(id: int, ids: seq<int>)
    requires Ascending(ids)
    ensures Ascending(Insert(id, ids)) && forall x :: x in Insert(id, ids) <==> x == id || x in ids
  {
    if ids != [] && id > ids[0] {
      var rest := Insert(id, ids[1..]);
      assert ids == [ids[0]] + ids[1..];
      InsertIsSorted(id, ids[1..]);
      forall j | 0 <= j < |rest| ensures ids[0] <= rest[j] {
        assert rest[j] in rest;
      }
    }
  }

  lemma {:induction false} InsertKeeps(id: int, ids: seq<int>, allowed: set<int>)
    requires Ascending(ids)
    ensures Keep(Insert(id, ids), allowed) == if id in allowed then Insert(id, Keep(ids, allowed)) else Keep(ids, allowed)
  {
    if ids == [] || id <= ids[0] {
      assert ([id] + ids)[1..] == ids;
      if ids != [] { InsertFirst(id, ids, allowed); }
    } else {
      InsertKeeps(id, ids[1..], allowed);
      KeepFirst(ids[0], Insert(id, ids[1..]), allowed);
      KeepFirst(ids[0], ids[1..], allowed);
      assert ids == [ids[0]] + ids[1..];
      InsertSecond(id, ids[0], Keep(ids[1..], allowed));
    }
  }

  lemma KeepFirst(id: int, ids: seq<int>, allowed: set<int>)
    ensures Keep([id] + ids, allowed) == if id in allowed then [id] + Keep(ids, allowed) else Keep(ids, allowed)
  {
    assert ([id] + ids)[1..] == ids;
  }

  lemma InsertSecond(id: int, first: int, ids: seq<int>)
    requires first < id
    ensures Insert(id, [first] + ids) == [first] + Insert(id, ids)
  {
    assert ([first] + ids)[1..] == ids;
  }

  lemma {:induction false} KeepIsSome(ids: seq<int>, allowed: set<int>)
    requires Ascending(ids)
    ensures Ascending(Keep(ids, allowed)) && forall x :: x in Keep(ids, allowed) <==> x in ids && x in allowed
  {
    if ids != [] {
      assert ids == [ids[0]] + ids[1..];
      var rest := Keep(ids[1..], allowed);
      KeepIsSome(ids[1..], allowed);
      assert [] + rest == rest;
      forall j | 0 <= j < |rest| ensures ids[0] <= rest[j] {
        assert rest[j] in ids[1..];
      }
    }
  }

  lemma InsertFirst(id: int, ids: seq<int>, allowed: set<int>)
    requires Ascending(ids) && ids != [] && id <= ids[0]
    ensures Insert(id, Keep(ids, allowed)) == [id] + Keep(ids, allowed)
  {
    KeepIsSome(ids, allowed);
    var kept := Keep(ids, allowed);
    if kept != [] { assert kept[0] in kept; }
  }

  /** Keeping some of the ids before or after sorting is the same. */
  lemma {:induction false} KeepSorted(ids: seq<int>, allowed: set<int>)
    ensures Ascending(Sorted(ids))
    ensures Keep(Sorted(ids), allowed) == Sorted(Keep(ids, allowed))
    ensures forall x :: x in Sorted(ids) <==> x in ids
  {
    if ids != [] {
      assert ids == [ids[0]] + ids[1..];
      KeepSorted(ids[1..], allowed);
      InsertKeeps(ids[0], Sorted(ids[1..]), allowed);
      InsertIsSorted(ids[0], Sorted(ids[1..]));
      var kept := Keep(ids[1..], allowed);
      assert ([ids[0]] + kept)[1..] == kept && [] + kept == kept;
    }
  }

  // ---- readers ----

  function FindScope(scopes: seq<ScopeEntry>, scopeKey: string): Option<ScopeEntry> {
    if scopes == [] then None
    else if scopes[0].scopeKey == scopeKey then Some(scopes[0])
    else FindScope(scopes[1..], scopeKey)
  }

  /** The ids a scope shows now. */
  function Allowed(state: State, scopeKey: string): set<int> {
    match FindScope(state.scopes, scopeKey)
    case None => {}
    case Some(e) => set i | 0 <= i < |e.index| && (scopeKey, e.index[i].claimKey) !in state.tombstones :: e.index[i].claimId
  }

  /** `verifiedSnapshotFile`: the snapshot must be the one the registry names, and have a canonical reference; what the
      state no longer shows is left out. */
  function ReadSnapshot(d: Disk, r: RegistryEntry): Option<seq<int>> {
    if r.snapshotId !in d.snapshots then None
    else
      var s := d.snapshots[r.snapshotId];
      if s.snapshotId != r.snapshotId || Sha(s) != r.digest || s.version != r.version || s.canonicalRefs == {} then None
      else Some(Keep(s.claimIds, Allowed(d.state, s.scopeKey)))
  }

  lemma {:induction false} KeepExactly(ids: seq<int>, allowed: set<int>, x: int)
    ensures x in Keep(ids, allowed) <==> x in ids && x in allowed
  {
    if ids != [] {
      assert ids == [ids[0]] + ids[1..];
      KeepExactly(ids[1..], allowed, x);
    }
  }

  /** A reader gets the claims of the snapshot that the scope's index lists now under a key without a tombstone: one that has
      left the index, or has a tombstone while the index still lists it, is not shown. */
  lemma ReadExactly(d: Disk, r: RegistryEntry, id: int)
    requires ReadSnapshot(d, r).Some?
    ensures id in ReadSnapshot(d, r).value <==>
              var s := d.snapshots[r.snapshotId];
              && id in s.claimIds
              && exists k, i :: && 0 <= k < |d.state.scopes| && 0 <= i < |d.state.scopes[k].index|
                                && FindScope(d.state.scopes, s.scopeKey) == Some(d.state.scopes[k])
                                && d.state.scopes[k].index[i].claimId == id
                                && (s.scopeKey, d.state.scopes[k].index[i].claimKey) !in d.state.tombstones
  {
    var s := d.snapshots[r.snapshotId];
    KeepExactly(s.claimIds, Allowed(d.state, s.scopeKey), id);
    FoundScope(d.state.scopes, s.scopeKey);
    if id in Allowed(d.state, s.scopeKey) {
      var e := FindScope(d.state.scopes, s.scopeKey).value;
      var k :| 0 <= k < |d.state.scopes| && d.state.scopes[k] == e;
      var i :| 0 <= i < |e.index| && (s.scopeKey, e.index[i].claimKey) !in d.state.tombstones && e.index[i].claimId == id;
      assert d.state.scopes[k].index[i].claimId == id;
    }
  }

  /** A reader takes the one snapshot that the registry entry names or none: whatever has been put in the place of its
      file, what is read through the entry under one state is always the same. */
  lemma OneSnapshotPerEntry(d: Disk, other: Disk, r: RegistryEntry)
    requires other.state == d.state && ReadSnapshot(d, r).Some? && ReadSnapshot(other, r).Some?
    ensures ReadSnapshot(other, r) == ReadSnapshot(d, r)
  {
    assert d.snapshots[r.snapshotId] == r.digest.snapshot && other.snapshots[r.snapshotId] == r.digest.snapshot;
  }

  function Registered(e: ScopeEntry): RegistryEntry {
    RegistryEntry(e.snapshotId, e.snapshotHash, e.version)
  }

  function RegistryOf(state: State): seq<RegistryEntry> {
    seq(|state.scopes|, i requires 0 <= i < |state.scopes| => Registered(state.scopes[i]))
  }

  /** One entry per scope, naming its snapshot. */
  ghost predicate RegistryNames(registry: seq<RegistryEntry>, scopes: seq<ScopeEntry>) {
    && |registry| == |scopes|
    && forall k | 0 <= k < |scopes| ::
         && registry[k].snapshotId == scopes[k].snapshotId && registry[k].digest == scopes[k].snapshotHash
         && registry[k].version == scopes[k].version
  }

  // ---- consistent states ----

  function RefsOf(index: seq<IndexEntry>): set<string> {
    set i, ref | 0 <= i < |index| && ref in index[i].canonicalRefs :: ref
  }

  predicate HasRefs(index: seq<IndexEntry>) {
    RefsOf(index) != {}
  }

  predicate DistinctEntries(index: seq<IndexEntry>) {
    forall i, j | 0 <= i < j < |index| :: index[i].claimKey != index[j].claimKey && index[i].claimId != index[j].claimId
  }

  /** The scope's snapshot is on disk and lists exactly the index, and no current key is withdrawn. */
  predicate ScopeOk(e: ScopeEntry, snapshots: map<nat, Snapshot>, tombstones: KeyPairs) {
    && e.snapshotId in snapshots && snapshots[e.snapshotId].snapshotId == e.snapshotId
    && e.snapshotHash == Sha(snapshots[e.snapshotId]) && e.version == snapshots[e.snapshotId].version
    && snapshots[e.snapshotId].scopeKey == e.scopeKey
    && snapshots[e.snapshotId].claimIds == Sorted(Ids(e.index)) && snapshots[e.snapshotId].canonicalRefs == RefsOf(e.index)
    && DistinctEntries(e.index)
    && forall i | 0 <= i < |e.index| :: (e.scopeKey, e.index[i].claimKey) !in tombstones
  }

  predicate Consistent(state: State, snapshots: map<nat, Snapshot>) {
    && (forall i, j | 0 <= i < j < |state.scopes| :: state.scopes[i].scopeKey != state.scopes[j].scopeKey)
    && (forall i | 0 <= i < |state.scopes| :: ScopeOk(state.scopes[i], snapshots, state.tombstones))
  }

  // ---- a withdrawal ----

  predicate Affected(e: ScopeEntry, removed: KeyPairs) {
    exists i | 0 <= i < |e.index| :: (e.scopeKey, e.index[i].claimKey) in removed
  }

  function Remaining(index: seq<IndexEntry>, scopeKey: string, removed: KeyPairs): seq<IndexEntry> {
    if index == [] then []
    else (if (scopeKey, index[0].claimKey) in removed then [] else [index[0]]) + Remaining(index[1..], scopeKey, removed)
  }

  function NewSnapshot(e: ScopeEntry, remaining: seq<IndexEntry>, id: nat): Snapshot {
    Snapshot(id, e.version + 1, Some(e.snapshotHash), e.scopeKey, Sorted(Ids(remaining)), RefsOf(remaining))
  }

  /** What becomes of one scope: None when it leaves the state. */
  function NewScope(e: ScopeEntry, removed: KeyPairs, id: nat): Option<ScopeEntry> {
    var remaining := Remaining(e.index, e.scopeKey, removed);
    if !Affected(e, removed) then Some(e)
    else if remaining == [] || !HasRefs(remaining) then None
    else
      var s := NewSnapshot(e, remaining, id);
      Some(ScopeEntry(e.scopeKey, id, Sha(s), s.version, remaining))
  }

  /** A fresh snapshot id for each scope key. */
  type Naming = string -> nat

  predicate FreshNames(scopes: seq<ScopeEntry>, snapshots: map<nat, Snapshot>, name: Naming) {
    && (forall i | 0 <= i < |scopes| :: name(scopes[i].scopeKey) !in snapshots)
    && (forall i, j | 0 <= i < j < |scopes| :: name(scopes[i].scopeKey) != name(scopes[j].scopeKey))
  }

  function NewScopes(scopes: seq<ScopeEntry>, removed: KeyPairs, name: Naming): seq<ScopeEntry> {
    if scopes == [] then []
    else
      var e := NewScope(scopes[0], removed, name(scopes[0].scopeKey));
      (if e.Some? then [e.value] else []) + NewScopes(scopes[1..], removed, name)
  }

  /** The snapshots a reader of the new state needs are there, and the old ones still are. */
  predicate SnapshotsReady(scopes: seq<ScopeEntry>, removed: KeyPairs, name: Naming,
                           before: map<nat, Snapshot>, after: map<nat, Snapshot>)
  {
    && (forall id | id in before :: id in after && after[id] == before[id])
    && forall i | 0 <= i < |scopes| && Affected(scopes[i], removed) && NewScope(scopes[i], removed, name(scopes[i].scopeKey)).Some? ::
         var id := name(scopes[i].scopeKey);
         id in after && after[id] == NewSnapshot(scopes[i], Remaining(scopes[i].index, scopes[i].scopeKey, removed), id)
  }

  function Shown(e: ScopeEntry, removed: KeyPairs): seq<int> {
    Sorted(Ids(Remaining(e.index, e.scopeKey, removed)))
  }

  /** A caller can see before withdrawing whether the scope keeps what remains: it does unless claims remain and none of
      them has a canonical reference. */
  predicate KeepsRest(e: ScopeEntry, removed: KeyPairs) {
    var remaining := Remaining(e.index, e.scopeKey, removed);
    Affected(e, removed) ==> remaining == [] || HasRefs(remaining)
  }

  // ---- lemmas ----

  lemma {:induction false} RemainingEntries(index: seq<IndexEntry>, scopeKey: string, removed: KeyPairs)
    ensures forall x :: x in Remaining(index, scopeKey, removed) <==> x in index && (scopeKey, x.claimKey) !in removed
    ensures DistinctEntries(index) ==> DistinctEntries(Remaining(index, scopeKey, removed))
  {
    if index != [] {
      var tail := index[1..];
      assert index == [index[0]] + tail;
      RemainingEntries(tail, scopeKey, removed);
      if DistinctEntries(index) {
        assert DistinctEntries(tail);
        var rest := Remaining(tail, scopeKey, removed);
        forall j | 0 <= j < |rest| ensures rest[j].claimKey != index[0].claimKey && rest[j].claimId != index[0].claimId {
          assert rest[j] in rest;
          var k :| 0 <= k < |tail| && tail[k] == rest[j];
          assert index[k + 1] == rest[j];
        }
      }
    }
  }

  /** Of the ids of the index, those of the remaining entries. */
  lemma {:induction false} KeepRemaining(index: seq<IndexEntry>, scopeKey: string, removed: KeyPairs, allowed: set<int>)
    requires forall x | x in index :: x.claimId in allowed <==> (scopeKey, x.claimKey) !in removed
    ensures Keep(Ids(index), allowed) == Ids(Remaining(index, scopeKey, removed))
  {
    if index != [] {
      var tail := index[1..];
      assert index == [index[0]] + tail;
      assert Ids(index)[1..] == Ids(tail);
      KeepRemaining(tail, scopeKey, removed, allowed);
      var rest := Remaining(tail, scopeKey, removed);
      assert Ids([index[0]] + rest) == [index[0].claimId] + Ids(rest);
      assert [] + rest == rest;
    }
  }

  lemma {:induction false} FindNewScope(scopes: seq<ScopeEntry>, removed: KeyPairs, name: Naming, k: nat)
    requires k < |scopes| && forall i, j | 0 <= i < j < |scopes| :: scopes[i].scopeKey != scopes[j].scopeKey
    ensures FindScope(scopes, scopes[k].scopeKey) == Some(scopes[k])
    ensures FindScope(NewScopes(scopes, removed, name), scopes[k].scopeKey)
         == NewScope(scopes[k], removed, name(scopes[k].scopeKey))
  {
    var first := NewScope(scopes[0], removed, name(scopes[0].scopeKey));
    var tail := scopes[1..];
    if k > 0 {
      assert tail[k - 1] == scopes[k];
      FindNewScope(tail, removed, name, k - 1);
      if first.Some? { assert ([first.value] + NewScopes(tail, removed, name))[1..] == NewScopes(tail, removed, name); }
      else { assert [] + NewScopes(tail, removed, name) == NewScopes(tail, removed, name); }
    } else if first == None {
      NotFound(tail, removed, name, scopes[0].scopeKey);
      assert [] + NewScopes(tail, removed, name) == NewScopes(tail, removed, name);
    }
  }

  lemma {:induction false} NotFound(scopes: seq<ScopeEntry>, removed: KeyPairs, name: Naming, scopeKey: string)
    requires forall i | 0 <= i < |scopes| :: scopes[i].scopeKey != scopeKey
    ensures FindScope(NewScopes(scopes, removed, name), scopeKey) == None
  {
    if scopes != [] {
      var first, tail := NewScope(scopes[0], removed, name(scopes[0].scopeKey)), scopes[1..];
      NotFound(tail, removed, name, scopeKey);
      if first.Some? { assert ([first.value] + NewScopes(tail, removed, name))[1..] == NewScopes(tail, removed, name); }
      else { assert [] + NewScopes(tail, removed, name) == NewScopes(tail, removed, name); }
    }
  }

  function Withdrawn(state: State, removed: KeyPairs, name: Naming, publications: set<int>): State {
    State(NewScopes(state.scopes, removed, name), state.tombstones + removed, state.withdrawnPublications + publications)
  }

  /** What the new state shows of a scope: the ids of the entries that remain, if the scope is kept. */
  lemma AllowedAfter(state: State, snapshots: map<nat, Snapshot>, removed: KeyPairs, name: Naming,
                     publications: set<int>, k: nat)
    requires Consistent(state, snapshots) && k < |state.scopes|
    ensures var e := state.scopes[k];
            var allowed := Allowed(Withdrawn(state, removed, name, publications), e.scopeKey);
            && (NewScope(e, removed, name(e.scopeKey)) == None ==> allowed == {})
            && (NewScope(e, removed, name(e.scopeKey)).Some? ==>
                  forall x | x in e.index :: x.claimId in allowed <==> (e.scopeKey, x.claimKey) !in removed)
  {
    var e := state.scopes[k];
    var after := Withdrawn(state, removed, name, publications);
    FindNewScope(state.scopes, removed, name, k);
    var found := NewScope(e, removed, name(e.scopeKey));
    if found.Some? {
      RemainingEntries(e.index, e.scopeKey, removed);
      assert ScopeOk(e, snapshots, state.tombstones);
      forall x | x in e.index ensures x.claimId in Allowed(after, e.scopeKey) <==> (e.scopeKey, x.claimKey) !in removed {
        VisibleExactly(e, found.value, state.tombstones, removed, x);
      }
    }
  }

  lemma VisibleExactly(e: ScopeEntry, after: ScopeEntry, tombstones: KeyPairs, removed: KeyPairs, x: IndexEntry)
    requires DistinctEntries(e.index) && x in e.index
    requires forall i | 0 <= i < |e.index| :: (e.scopeKey, e.index[i].claimKey) !in tombstones
    requires forall y :: y in after.index ==> y in e.index
    requires (e.scopeKey, x.claimKey) !in removed ==> x in after.index
    ensures (exists i | 0 <= i < |after.index| ::
               (e.scopeKey, after.index[i].claimKey) !in tombstones + removed && after.index[i].claimId == x.claimId)
        <==> (e.scopeKey, x.claimKey) !in removed
  {
    var k :| 0 <= k < |e.index| && e.index[k] == x;
    if i :| 0 <= i < |after.index| && (e.scopeKey, after.index[i].claimKey) !in tombstones + removed
            && after.index[i].claimId == x.claimId {
      assert after.index[i] in after.index;
      var m :| 0 <= m < |e.index| && e.index[m] == after.index[i];
      assert m == k;
    }
    if (e.scopeKey, x.claimKey) !in removed {
      var i :| 0 <= i < |after.index| && after.index[i] == x;
    }
  }

  /** What a reader gets of an index: the code refuses a snapshot without canonical references. */
  function IndexRead(index: seq<IndexEntry>): Option<seq<int>> {
    if HasRefs(index) then Some(Sorted(Ids(index))) else None
  }

  /** In a consistent state a scope shows its whole index, unless no claim of it has a canonical reference: then it cannot
      be read. */
  lemma ShowsIndex(d: Disk, k: nat)
    requires Consistent(d.state, d.snapshots) && k < |d.state.scopes|
    ensures ReadSnapshot(d, Registered(d.state.scopes[k])) == IndexRead(d.state.scopes[k].index)
  {
    var e := d.state.scopes[k];
    AllowedAfter(d.state, d.snapshots, {}, _ => 0, {}, k);
    FindNewScope(d.state.scopes, {}, _ => 0, k);
    assert d.state.tombstones + {} == d.state.tombstones;
    assert Allowed(Withdrawn(d.state, {}, _ => 0, {}), e.scopeKey) == Allowed(d.state, e.scopeKey);
    NothingRemoved(e.index, e.scopeKey);
    KeepRemaining(e.index, e.scopeKey, {}, Allowed(d.state, e.scopeKey));
    KeepSorted(Ids(e.index), Allowed(d.state, e.scopeKey));
  }

  lemma {:induction false} NothingRemoved(index: seq<IndexEntry>, scopeKey: string)
    ensures Remaining(index, scopeKey, {}) == index
  {
    if index != [] { NothingRemoved(index[1..], scopeKey); }
  }

  /** Once the state is written, a reader that still holds the old registry entry and one that holds the new one see the
      same: the old claims of the scope without the withdrawn keys. That is so exactly when the scope keeps its rest. */
  lemma StaleAndFreshAgree(d: Disk, removed: KeyPairs, name: Naming, publications: set<int>, after: Disk, k: nat)
    requires Consistent(d.state, d.snapshots) && k < |d.state.scopes| && FreshNames(d.state.scopes, d.snapshots, name)
    requires after.state == Withdrawn(d.state, removed, name, publications)
    requires SnapshotsReady(d.state.scopes, removed, name, d.snapshots, after.snapshots)
    ensures var e := d.state.scopes[k];
            var stale := ReadSnapshot(after, Registered(e));
            && (HasRefs(e.index) ==> (stale == Some(Shown(e, removed)) <==> KeepsRest(e, removed)))
            && (!HasRefs(e.index) ==> stale == None)
            && (match NewScope(e, removed, name(e.scopeKey))
                case Some(next) => ReadSnapshot(after, Registered(next)) == stale
                case None => FindScope(after.state.scopes, e.scopeKey) == None && (HasRefs(e.index) ==> stale == Some([])))
  {
    var e := d.state.scopes[k];
    assert ScopeOk(e, d.snapshots, d.state.tombstones);
    var allowed := Allowed(after.state, e.scopeKey);
    var remaining := Remaining(e.index, e.scopeKey, removed);
    AllowedAfter(d.state, d.snapshots, removed, name, publications, k);
    FindNewScope(d.state.scopes, removed, name, k);
    KeepSorted(Ids(e.index), allowed);
    assert HasRefs(e.index) ==> ReadSnapshot(after, Registered(e)) == Some(Keep(Sorted(Ids(e.index)), allowed));
    if Affected(e, removed) && HasRefs(remaining) { RemainingRefs(e.index, e.scopeKey, removed); }
    if NewScope(e, removed, name(e.scopeKey)).Some? {
      KeepRemaining(e.index, e.scopeKey, removed, allowed);
      RemainingShown(remaining, allowed, e.index, e.scopeKey, removed);
    } else {
      KeepNone(Ids(e.index));
      ShownEmpty(remaining);
    }
  }

  lemma RemainingRefs(index: seq<IndexEntry>, scopeKey: string, removed: KeyPairs)
    ensures RefsOf(Remaining(index, scopeKey, removed)) <= RefsOf(index)
  {
    var remaining := Remaining(index, scopeKey, removed);
    RemainingEntries(index, scopeKey, removed);
    forall i, ref | 0 <= i < |remaining| && ref in remaining[i].canonicalRefs ensures ref in RefsOf(index) {
      assert remaining[i] in remaining;
      var k :| 0 <= k < |index| && index[k] == remaining[i];
    }
  }

  /** Where every claim has a canonical reference, as publishing demands, a withdrawal keeps the rest of every scope. */
  lemma PublishedKeepsRest(e: ScopeEntry, removed: KeyPairs)
    requires forall i | 0 <= i < |e.index| :: e.index[i].canonicalRefs != {}
    ensures KeepsRest(e, removed)
    ensures e.index != [] ==> HasRefs(e.index)
  {
    var remaining := Remaining(e.index, e.scopeKey, removed);
    RemainingEntries(e.index, e.scopeKey, removed);
    if remaining != [] {
      assert remaining[0] in remaining;
      var ref :| ref in remaining[0].canonicalRefs;
      assert ref in RefsOf(remaining);
    }
    if e.index != [] {
      var ref :| ref in e.index[0].canonicalRefs;
      assert ref in RefsOf(e.index);
    }
  }

  lemma {:induction false} KeepNone(ids: seq<int>)
    ensures Keep(ids, {}) == []
  {
    if ids != [] { KeepNone(ids[1..]); }
  }

  lemma ShownEmpty(index: seq<IndexEntry>)
    ensures Sorted(Ids(index)) == [] <==> index == []
  {
    KeepSorted(Ids(index), {});
    if index != [] { assert Ids(index)[0] in Ids(index); }
  }

  lemma RemainingShown(remaining: seq<IndexEntry>, allowed: set<int>, index: seq<IndexEntry>, scopeKey: string, removed: KeyPairs)
    requires remaining == Remaining(index, scopeKey, removed)
    requires forall x | x in index :: x.claimId in allowed <==> (scopeKey, x.claimKey) !in removed
    ensures Keep(Sorted(Ids(remaining)), allowed) == Sorted(Ids(remaining))
  {
    RemainingEntries(index, scopeKey, removed);
    KeepSorted(Ids(remaining), allowed);
    forall i | 0 <= i < |remaining| ensures Ids(remaining)[i] in allowed {
      assert remaining[i] in remaining;
    }
    KeepAll(Ids(remaining), allowed);
  }

  lemma {:induction false} KeepAll(ids: seq<int>, allowed: set<int>)
    requires forall i | 0 <= i < |ids| :: ids[i] in allowed
    ensures Keep(ids, allowed) == ids
  {
    if ids != [] { KeepAll(ids[1..], allowed); }
  }

  // ---- the withdrawal itself ----

  lemma {:induction false} NewScopesFrom(scopes: seq<ScopeEntry>, removed: KeyPairs, name: Naming, x: ScopeEntry)
    requires x in NewScopes(scopes, removed, name)
    ensures exists k :: 0 <= k < |scopes| && NewScope(scopes[k], removed, name(scopes[k].scopeKey)) == Some(x)
  {
    var first, tail := NewScope(scopes[0], removed, name(scopes[0].scopeKey)), scopes[1..];
    if first != Some(x) {
      NewScopesFrom(tail, removed, name, x);
      var k :| 0 <= k < |tail| && NewScope(tail[k], removed, name(tail[k].scopeKey)) == Some(x);
      assert scopes[k + 1] == tail[k];
    }
  }

  lemma {:induction false} NewKeysDistinct(scopes: seq<ScopeEntry>, removed: KeyPairs, name: Naming)
    requires forall i, j | 0 <= i < j < |scopes| :: scopes[i].scopeKey != scopes[j].scopeKey
    ensures var later := NewScopes(scopes, removed, name);
            forall i, j | 0 <= i < j < |later| :: later[i].scopeKey != later[j].scopeKey
  {
    if scopes != [] {
      var first, tail := NewScope(scopes[0], removed, name(scopes[0].scopeKey)), scopes[1..];
      var rest := NewScopes(tail, removed, name);
      NewKeysDistinct(tail, removed, name);
      forall j | 0 <= j < |rest| ensures rest[j].scopeKey != scopes[0].scopeKey {
        NewScopesFrom(tail, removed, name, rest[j]);
        var k :| 0 <= k < |tail| && NewScope(tail[k], removed, name(tail[k].scopeKey)) == Some(rest[j]);
        assert tail[k] == scopes[k + 1];
      }
      if first == None { assert NewScopes(scopes, removed, name) == rest; }
    }
  }

  /** A withdrawal keeps the store consistent. */
  lemma WithdrawnIsConsistent(state: State, before: map<nat, Snapshot>, removed: KeyPairs, name: Naming,
                              publications: set<int>, after: map<nat, Snapshot>)
    requires Consistent(state, before) && SnapshotsReady(state.scopes, removed, name, before, after)
    ensures Consistent(Withdrawn(state, removed, name, publications), after)
  {
    var scopes := NewScopes(state.scopes, removed, name);
    NewKeysDistinct(state.scopes, removed, name);
    forall i | 0 <= i < |scopes| ensures ScopeOk(scopes[i], after, state.tombstones + removed) {
      NewScopesFrom(state.scopes, removed, name, scopes[i]);
      var k :| 0 <= k < |state.scopes| && NewScope(state.scopes[k], removed, name(state.scopes[k].scopeKey)) == Some(scopes[i]);
      NewScopeOk(state.scopes[k], before, state.tombstones, removed, name, after, scopes[i]);
    }
  }

  lemma NewScopeOk(e: ScopeEntry, before: map<nat, Snapshot>, tombstones: KeyPairs, removed: KeyPairs,
                   name: Naming, after: map<nat, Snapshot>, x: ScopeEntry)
    requires ScopeOk(e, before, tombstones) && NewScope(e, removed, name(e.scopeKey)) == Some(x)
    requires forall id | id in before :: id in after && after[id] == before[id]
    requires Affected(e, removed) ==>
               var id := name(e.scopeKey);
               id in after && after[id] == NewSnapshot(e, Remaining(e.index, e.scopeKey, removed), id)
    ensures ScopeOk(x, after, tombstones + removed)
  {
    RemainingEntries(e.index, e.scopeKey, removed);
    forall i | 0 <= i < |x.index| ensures (e.scopeKey, x.index[i].claimKey) !in tombstones + removed {
      assert x.index[i] in x.index && x.index[i] in e.index;
    }
  }

  /** A claim's place: the first scope whose index holds it, and its key there. */
  function Place(scopes: seq<ScopeEntry>, claimId: int): Option<(string, string)> {
    if scopes == [] then None
    else
      var key := KeyIn(scopes[0].index, claimId);
      if key.Some? then Some((scopes[0].scopeKey, key.value)) else Place(scopes[1..], claimId)
  }

  function KeyIn(index: seq<IndexEntry>, claimId: int): Option<string> {
    if index == [] then None
    else if index[0].claimId == claimId then Some(index[0].claimKey)
    else KeyIn(index[1..], claimId)
  }

  datatype StoredClaim = StoredClaim(claimKey: string, supersedes: Option<int>)

  /** One version after another, each stored and superseded by the one before, without repetition. */
  ghost predicate VersionsFrom(claims: map<int, StoredClaim>, claimId: int, chain: seq<int>) {
    && (chain != [] ==> chain[0] == claimId)
    && (forall i | 0 <= i < |chain| :: chain[i] in claims)
    && (forall i | 0 < i < |chain| :: claims[chain[i - 1]].supersedes == Some(chain[i]))
    && (forall i, j | 0 <= i < j < |chain| :: chain[i] != chain[j])
  }

  /** The second is the first, or a version behind it. */
  ghost predicate IsVersion(claims: map<int, StoredClaim>, claimId: int, older: int) {
    exists chain :: VersionsFrom(claims, claimId, chain) && older in chain
  }

  /** A chain that cannot go on holds every version. */
  lemma AllVersions(claims: map<int, StoredClaim>, claimId: int, chain: seq<int>, older: int)
    requires VersionsFrom(claims, claimId, chain)
    requires var next := NextVersion(claims, claimId, chain); next.Some? ==> next.value in chain || next.value !in claims
    ensures older in chain <==> IsVersion(claims, claimId, older)
  {
    if other :| VersionsFrom(claims, claimId, other) && older in other {
      var k :| 0 <= k < |other| && other[k] == older;
      SameWalk(claims, claimId, chain, other, k);
    }
  }

  lemma {:induction false} SameWalk(claims: map<int, StoredClaim>, claimId: int, chain: seq<int>, other: seq<int>, k: nat)
    requires VersionsFrom(claims, claimId, chain) && VersionsFrom(claims, claimId, other) && k < |other|
    requires var next := NextVersion(claims, claimId, chain); next.Some? ==> next.value in chain || next.value !in claims
    ensures k < |chain| && chain[k] == other[k]
  {
    if k > 0 {
      SameWalk(claims, claimId, chain, other, k - 1);
      assert claims[other[k - 1]].supersedes == Some(other[k]);
      if k == |chain| {
        var next: int := other[k];
        assert NextVersion(claims, claimId, chain) == Some(next);
        var j :| 0 <= j < |chain| && chain[j] == next;
        SameWalk(claims, claimId, chain, other, j);
        assert false;
      }
    }
  }

  /** What comes after the chain. */
  function NextVersion(claims: map<int, StoredClaim>, claimId: int, chain: seq<int>): Option<int> {
    if chain == [] then Some(claimId)
    else if chain[|chain| - 1] in claims then claims[chain[|chain| - 1]].supersedes else None
  }

  /** The pairs of scope and key that a list of ids withdraws: the current claims whose files are there. */
  function Removed(scopes: seq<ScopeEntry>, claims: map<int, StoredClaim>, ids: seq<int>): KeyPairs {
    set id | id in ids && id in claims && Place(scopes, id).Some? :: Place(scopes, id).value
  }

  // ---- what a withdrawal means, claim by claim ----

  ghost predicate Lists(e: ScopeEntry, id: int) {
    exists i :: 0 <= i < |e.index| && e.index[i].claimId == id
  }

  /** Some scope lists the claim. */
  ghost predicate Listed(scopes: seq<ScopeEntry>, id: int) {
    exists k :: 0 <= k < |scopes| && Lists(scopes[k], id)
  }

  /** The claim leaves the scope: it was asked for, its file is there, and no earlier scope lists it. */
  ghost predicate Leaves(scopes: seq<ScopeEntry>, claims: map<int, StoredClaim>, ids: seq<int>, k: nat, id: int)
    requires k < |scopes|
  {
    && id in ids && id in claims && Lists(scopes[k], id)
    && forall j | 0 <= j < k :: !Lists(scopes[j], id)
  }

  /** A claim of the scope stays. */
  ghost predicate StaysIn(scopes: seq<ScopeEntry>, claims: map<int, StoredClaim>, ids: seq<int>, k: nat, id: int)
    requires k < |scopes|
  {
    Lists(scopes[k], id) && !Leaves(scopes, claims, ids, k, id)
  }

  /** Of the claims that stay in the scope, one has a canonical reference. */
  ghost predicate RefStays(scopes: seq<ScopeEntry>, claims: map<int, StoredClaim>, ids: seq<int>, k: nat)
    requires k < |scopes|
  {
    exists i :: && 0 <= i < |scopes[k].index| && scopes[k].index[i].canonicalRefs != {}
                && StaysIn(scopes, claims, ids, k, scopes[k].index[i].claimId)
  }

  /** A pair of keys is removed exactly when it is that of an entry whose claim leaves. */
  ghost predicate RemovesById(scopes: seq<ScopeEntry>, claims: map<int, StoredClaim>, ids: seq<int>, removed: KeyPairs) {
    && (forall k, i | 0 <= k < |scopes| && 0 <= i < |scopes[k].index| ::
          (scopes[k].scopeKey, scopes[k].index[i].claimKey) in removed <==> Leaves(scopes, claims, ids, k, scopes[k].index[i].claimId))
    && (forall pair | pair in removed :: IsKeyPair(scopes, pair))
  }

  ghost predicate IsKeyPair(scopes: seq<ScopeEntry>, pair: (string, string)) {
    exists k, i :: 0 <= k < |scopes| && 0 <= i < |scopes[k].index| && pair == (scopes[k].scopeKey, scopes[k].index[i].claimKey)
  }

  lemma {:induction false} KeyInMeaning(index: seq<IndexEntry>, id: int)
    ensures match KeyIn(index, id)
            case None => forall i | 0 <= i < |index| :: index[i].claimId != id
            case Some(key) => exists i :: 0 <= i < |index| && index[i].claimId == id && index[i].claimKey == key
  {
    if index != [] && index[0].claimId != id {
      KeyInMeaning(index[1..], id);
      assert forall i | 1 <= i < |index| :: index[i] == index[1..][i - 1];
    }
  }

  /** The place of a claim: in the first scope that lists it, the key of the entry that has its id. */
  lemma {:induction false} PlaceMeaning(scopes: seq<ScopeEntry>, id: int)
    ensures Place(scopes, id) == None ==> !Listed(scopes, id)
    ensures Place(scopes, id).Some? ==> exists k, i :: IsPlace(scopes, id, k, i, Place(scopes, id).value)
  {
    if scopes != [] {
      KeyInMeaning(scopes[0].index, id);
      if KeyIn(scopes[0].index, id) == None {
        PlaceMeaning(scopes[1..], id);
        assert forall k | 1 <= k < |scopes| :: scopes[k] == scopes[1..][k - 1];
        if Place(scopes[1..], id).Some? {
          var pair: (string, string) := Place(scopes[1..], id).value;
          var k, i :| IsPlace(scopes[1..], id, k, i, pair);
          assert IsPlace(scopes, id, k + 1, i, pair);
        } else {
          forall k | 0 <= k < |scopes| ensures !Lists(scopes[k], id) {
            if k > 0 { assert !Lists(scopes[1..][k - 1], id); }
          }
        }
      } else {
        var key: string := KeyIn(scopes[0].index, id).value;
        var i :| 0 <= i < |scopes[0].index| && scopes[0].index[i].claimId == id && scopes[0].index[i].claimKey == key;
        assert IsPlace(scopes, id, 0, i, (scopes[0].scopeKey, key));
      }
    }
  }

  ghost predicate IsPlace(scopes: seq<ScopeEntry>, id: int, k: int, i: int, pair: (string, string)) {
    && 0 <= k < |scopes| && 0 <= i < |scopes[k].index| && scopes[k].index[i].claimId == id
    && (forall j | 0 <= j < k :: !Lists(scopes[j], id))
    && pair == (scopes[k].scopeKey, scopes[k].index[i].claimKey)
  }

  lemma PlaceIsListed(scopes: seq<ScopeEntry>, id: int)
    ensures Place(scopes, id).Some? <==> Listed(scopes, id)
  {
    PlaceMeaning(scopes, id);
    if Place(scopes, id).Some? {
      var pair: (string, string) := Place(scopes, id).value;
      var k, i :| IsPlace(scopes, id, k, i, pair);
      assert Lists(scopes[k], id);
    }
  }

  ghost predicate DistinctScopes(scopes: seq<ScopeEntry>) {
    && (forall k, l | 0 <= k < l < |scopes| :: scopes[k].scopeKey != scopes[l].scopeKey)
    && forall k | 0 <= k < |scopes| :: DistinctEntries(scopes[k].index)
  }

  lemma RemovedById(scopes: seq<ScopeEntry>, claims: map<int, StoredClaim>, ids: seq<int>)
    requires DistinctScopes(scopes)
    ensures RemovesById(scopes, claims, ids, Removed(scopes, claims, ids))
  {
    var removed := Removed(scopes, claims, ids);
    forall pair | pair in removed ensures IsKeyPair(scopes, pair) {
      var id :| id in ids && id in claims && Place(scopes, id) == Some(pair);
      PlaceMeaning(scopes, id);
      var k, i :| IsPlace(scopes, id, k, i, pair);
    }
    forall k, i | 0 <= k < |scopes| && 0 <= i < |scopes[k].index|
      ensures (scopes[k].scopeKey, scopes[k].index[i].claimKey) in removed <==> Leaves(scopes, claims, ids, k, scopes[k].index[i].claimId) {
      EntryRemoved(scopes, claims, ids, k, i);
    }
  }

  lemma EntryRemoved(scopes: seq<ScopeEntry>, claims: map<int, StoredClaim>, ids: seq<int>, k: nat, i: nat)
    requires DistinctScopes(scopes) && k < |scopes| && i < |scopes[k].index|
    ensures (scopes[k].scopeKey, scopes[k].index[i].claimKey) in Removed(scopes, claims, ids)
       <==> Leaves(scopes, claims, ids, k, scopes[k].index[i].claimId)
  {
    var pair, id := (scopes[k].scopeKey, scopes[k].index[i].claimKey), scopes[k].index[i].claimId;
    if pair in Removed(scopes, claims, ids) {
      var other :| other in ids && other in claims && Place(scopes, other) == Some(pair);
      PlaceMeaning(scopes, other);
      var l, j :| IsPlace(scopes, other, l, j, pair);
      SameEntry(scopes, k, i, l, j);
    }
    if Leaves(scopes, claims, ids, k, id) {
      PlaceMeaning(scopes, id);
      assert Listed(scopes, id);
      var found: (string, string) := Place(scopes, id).value;
      var l, j :| IsPlace(scopes, id, l, j, found);
      assert Lists(scopes[l], id);
      assert l == k && j == i;
    }
  }

  lemma SameEntry(scopes: seq<ScopeEntry>, k: nat, i: nat, l: nat, j: nat)
    requires DistinctScopes(scopes) && k < |scopes| && i < |scopes[k].index| && l < |scopes| && j < |scopes[l].index|
    requires scopes[k].scopeKey == scopes[l].scopeKey && scopes[k].index[i].claimKey == scopes[l].index[j].claimKey
    ensures k == l && i == j
  {
  }

  // ---- what is deleted ----

  /** Which scopes have listed a claim in one of their snapshots. */
  type Owners = map<int, set<string>>

  datatype Analysis = Analysis(removed: KeyPairs, publications: set<int>, deletes: set<int>, ambiguous: set<int>)

  /** Some scope still lists the claim. */
  predicate Survives(scopes: seq<ScopeEntry>, removed: KeyPairs, id: int) {
    exists k | 0 <= k < |scopes| :: id in Ids(Remaining(scopes[k].index, scopes[k].scopeKey, removed))
  }

  /** The file carries a withdrawn key. */
  predicate HasWithdrawnKey(claim: StoredClaim, removed: KeyPairs) {
    exists pair | pair in removed :: pair.1 == claim.claimKey
  }

  /** The file carries a withdrawn key, in a scope that has listed it. */
  predicate IsOwned(id: int, claim: StoredClaim, removed: KeyPairs, owners: Owners) {
    id in owners && exists pair | pair in removed :: pair.1 == claim.claimKey && pair.0 in owners[id]
  }

  /** A version of a claim that is withdrawn. */
  ghost predicate IsWithdrawnVersion(scopes: seq<ScopeEntry>, claims: map<int, StoredClaim>, ids: seq<int>, older: int) {
    exists id | id in ids :: Listed(scopes, id) && IsVersion(claims, id, older)
  }

  /** The files to delete: versions of withdrawn claims, and files with a withdrawn key in a scope that has listed them; but
      none that a scope still lists. A file with a withdrawn key that nobody owns is kept and reported. */
  ghost predicate Deletes(scopes: seq<ScopeEntry>, claims: map<int, StoredClaim>, owners: Owners, ids: seq<int>, a: Analysis) {
    && (forall id :: id in a.deletes <==>
          && id in claims && !Survives(scopes, a.removed, id)
          && (IsWithdrawnVersion(scopes, claims, ids, id) || IsOwned(id, claims[id], a.removed, owners)))
    && (forall id :: id in a.ambiguous <==>
          && id in claims && !Survives(scopes, a.removed, id) && HasWithdrawnKey(claims[id], a.removed)
          && !IsWithdrawnVersion(scopes, claims, ids, id) && !IsOwned(id, claims[id], a.removed, owners))
  }

  /** A scope still lists the claim after the withdrawal. */
  ghost predicate StillListed(scopes: seq<ScopeEntry>, claims: map<int, StoredClaim>, ids: seq<int>, id: int) {
    exists k :: 0 <= k < |scopes| && StaysIn(scopes, claims, ids, k, id)
  }

  /** The file has the key of an entry whose claim leaves a scope that has listed the file. */
  ghost predicate FollowsKey(scopes: seq<ScopeEntry>, claims: map<int, StoredClaim>, owners: Owners, ids: seq<int>, id: int)
    requires id in claims
  {
    exists k, i :: && 0 <= k < |scopes| && 0 <= i < |scopes[k].index| && Leaves(scopes, claims, ids, k, scopes[k].index[i].claimId)
                   && scopes[k].index[i].claimKey == claims[id].claimKey && id in owners && scopes[k].scopeKey in owners[id]
  }

  /** The files that go: versions of the claims asked for, and files with the key of one that left a scope which had
      listed them; but none that a scope still lists. */
  ghost predicate FileGoes(scopes: seq<ScopeEntry>, claims: map<int, StoredClaim>, owners: Owners, ids: seq<int>, id: int) {
    && id in claims && !StillListed(scopes, claims, ids, id)
    && (IsWithdrawnVersion(scopes, claims, ids, id) || FollowsKey(scopes, claims, owners, ids, id))
  }

  /** The file has the key of an entry whose claim leaves its scope. */
  ghost predicate HasLeftKey(scopes: seq<ScopeEntry>, claims: map<int, StoredClaim>, ids: seq<int>, id: int)
    requires id in claims
  {
    exists k, i :: && 0 <= k < |scopes| && 0 <= i < |scopes[k].index| && Leaves(scopes, claims, ids, k, scopes[k].index[i].claimId)
                   && scopes[k].index[i].claimKey == claims[id].claimKey
  }

  /** The files that are kept and reported: they have such a key, but no scope that lost it has listed them. */
  ghost predicate FileInDoubt(scopes: seq<ScopeEntry>, claims: map<int, StoredClaim>, owners: Owners, ids: seq<int>, id: int) {
    && id in claims && !StillListed(scopes, claims, ids, id) && HasLeftKey(scopes, claims, ids, id)
    && !IsWithdrawnVersion(scopes, claims, ids, id) && !FollowsKey(scopes, claims, owners, ids, id)
  }

  lemma LeftKeyById(scopes: seq<ScopeEntry>, claims: map<int, StoredClaim>, ids: seq<int>, removed: KeyPairs, id: int)
    requires RemovesById(scopes, claims, ids, removed) && id in claims
    ensures HasWithdrawnKey(claims[id], removed) <==> HasLeftKey(scopes, claims, ids, id)
  {
    if HasWithdrawnKey(claims[id], removed) {
      var pair :| pair in removed && pair.1 == claims[id].claimKey;
      assert IsKeyPair(scopes, pair);
      var k, i :| 0 <= k < |scopes| && 0 <= i < |scopes[k].index| && pair == (scopes[k].scopeKey, scopes[k].index[i].claimKey);
      assert Leaves(scopes, claims, ids, k, scopes[k].index[i].claimId);
    }
    if HasLeftKey(scopes, claims, ids, id) {
      var k, i :| && 0 <= k < |scopes| && 0 <= i < |scopes[k].index| && Leaves(scopes, claims, ids, k, scopes[k].index[i].claimId)
                  && scopes[k].index[i].claimKey == claims[id].claimKey;
      assert (scopes[k].scopeKey, scopes[k].index[i].claimKey) in removed;
    }
  }

  lemma SurvivesById(scopes: seq<ScopeEntry>, claims: map<int, StoredClaim>, ids: seq<int>, removed: KeyPairs, id: int)
    requires DistinctScopes(scopes) && RemovesById(scopes, claims, ids, removed)
    ensures Survives(scopes, removed, id) <==> StillListed(scopes, claims, ids, id)
  {
    forall k | 0 <= k < |scopes|
      ensures id in Ids(Remaining(scopes[k].index, scopes[k].scopeKey, removed)) <==> StaysIn(scopes, claims, ids, k, id) {
      StayingIds(scopes, claims, ids, removed, k);
      KeepSorted(Ids(Remaining(scopes[k].index, scopes[k].scopeKey, removed)), {});
    }
  }

  lemma OwnedById(scopes: seq<ScopeEntry>, claims: map<int, StoredClaim>, owners: Owners, ids: seq<int>, removed: KeyPairs, id: int)
    requires RemovesById(scopes, claims, ids, removed) && id in claims
    ensures IsOwned(id, claims[id], removed, owners) <==> FollowsKey(scopes, claims, owners, ids, id)
  {
    if IsOwned(id, claims[id], removed, owners) {
      var pair :| pair in removed && pair.1 == claims[id].claimKey && pair.0 in owners[id];
      assert IsKeyPair(scopes, pair);
      var k, i :| 0 <= k < |scopes| && 0 <= i < |scopes[k].index| && pair == (scopes[k].scopeKey, scopes[k].index[i].claimKey);
      assert Leaves(scopes, claims, ids, k, scopes[k].index[i].claimId);
    }
    if FollowsKey(scopes, claims, owners, ids, id) {
      var k, i :| && 0 <= k < |scopes| && 0 <= i < |scopes[k].index| && Leaves(scopes, claims, ids, k, scopes[k].index[i].claimId)
                  && scopes[k].index[i].claimKey == claims[id].claimKey && id in owners && scopes[k].scopeKey in owners[id];
      assert (scopes[k].scopeKey, scopes[k].index[i].claimKey) in removed;
    }
  }

  lemma DeletesById(scopes: seq<ScopeEntry>, claims: map<int, StoredClaim>, owners: Owners, ids: seq<int>, a: Analysis)
    requires Deletes(scopes, claims, owners, ids, a)
    requires DistinctScopes(scopes) && RemovesById(scopes, claims, ids, a.removed)
    ensures forall id :: id in a.deletes <==> FileGoes(scopes, claims, owners, ids, id)
    ensures forall id :: id in a.ambiguous <==> FileInDoubt(scopes, claims, owners, ids, id)
  {
    forall id ensures id in a.deletes <==> FileGoes(scopes, claims, owners, ids, id)
              ensures id in a.ambiguous <==> FileInDoubt(scopes, claims, owners, ids, id) {
      SurvivesById(scopes, claims, ids, a.removed, id);
      if id in claims {
        OwnedById(scopes, claims, owners, ids, a.removed, id);
        LeftKeyById(scopes, claims, ids, a.removed, id);
      }
    }
  }

  /** Whatever is deleted, the claims a scope shows afterwards keep their files. */
  lemma ShownKeepFiles(scopes: seq<ScopeEntry>, claims: map<int, StoredClaim>, owners: Owners, ids: seq<int>, a: Analysis,
                       name: Naming, x: ScopeEntry, i: nat)
    requires Deletes(scopes, claims, owners, ids, a)
    requires x in NewScopes(scopes, a.removed, name) && i < |x.index|
    ensures x.index[i].claimId !in a.deletes
  {
    NewScopesFrom(scopes, a.removed, name, x);
    var k :| 0 <= k < |scopes| && NewScope(scopes[k], a.removed, name(scopes[k].scopeKey)) == Some(x);
    var remaining := Remaining(scopes[k].index, scopes[k].scopeKey, a.removed);
    if !Affected(scopes[k], a.removed) { NoneRemoved(scopes[k].index, scopes[k].scopeKey, a.removed); }
    assert x.index == remaining;
    assert Ids(remaining)[i] == x.index[i].claimId;
  }

  lemma SomeMember(s: set<int>)
    ensures s == {} || exists x :: x in s
  {
    if forall x :: x !in s { assert s == {}; }
  }

  class ClaimStore {
    var state: State
    var snapshots: map<nat, Snapshot>
    var registry: seq<RegistryEntry>
    var claims: map<int, StoredClaim>
    /** Every state of the disk so far. */
    ghost var log: seq<Disk>

    constructor (d: Disk, claims: map<int, StoredClaim>)
      requires Consistent(d.state, d.snapshots)
      ensures Valid() && Now() == d && this.claims == claims && log == [d]
    {
      state, snapshots, registry, this.claims := d.state, d.snapshots, d.registry, claims;
      log := [d];
    }

    function Now(): Disk
      reads this
    {
      Disk(state, snapshots, registry)
    }

    ghost predicate Valid()
      reads this
    {
      log != [] && log[|log| - 1] == Now() && Consistent(state, snapshots)
    }

    /** `versionChain`: the claim and its earlier versions, until one is missing, or the first, or seen before. */
    static method VersionChain(claims: map<int, StoredClaim>, claimId: int) returns (chain: seq<int>)
      ensures VersionsFrom(claims, claimId, chain)
      ensures var next := NextVersion(claims, claimId, chain);
              next.Some? ==> next.value in chain || next.value !in claims
      ensures chain == [] <==> claimId !in claims
    {
      chain := [];
      var seen: set<int> := {};
      var next := Some(claimId);
      while next.Some? && next.value !in seen
        invariant VersionsFrom(claims, claimId, chain)
        invariant forall x | x in seen :: x in chain
        invariant forall x | x in chain :: x in seen
        invariant next == NextVersion(claims, claimId, chain)
        invariant chain == [] ==> seen == {}
        decreases claims.Keys - seen
      {
        if next.value !in claims { return; }
        seen := seen + {next.value};
        chain := chain + [next.value];
        next := claims[next.value].supersedes;
      }
      if next.Some? {
        ghost var repeated: int := next.value;
        assert repeated in seen && repeated in chain;
      }
    }

    /** `analyse`. `pending` are the publications under review. */
    method Analyse(ids: seq<int>, pending: set<int>, owners: Owners) returns (r: Result<Analysis, Error>)
      ensures r.Err? <==> ids == [] || exists i :: 0 <= i < |ids| && !Listed(state.scopes, ids[i]) && ids[i] !in pending
      ensures r.Ok? ==> r.value.removed == Removed(state.scopes, claims, ids)
      ensures r.Ok? && DistinctScopes(state.scopes) ==> RemovesById(state.scopes, claims, ids, r.value.removed)
      ensures r.Ok? ==> forall id :: id in r.value.publications <==> id in ids && (!Listed(state.scopes, id) || id !in claims)
      ensures r.Ok? ==> Deletes(state.scopes, claims, owners, ids, r.value)
      ensures r.Ok? && DistinctScopes(state.scopes) ==>
                && (forall id :: id in r.value.deletes <==> FileGoes(state.scopes, claims, owners, ids, id))
                && (forall id :: id in r.value.ambiguous <==> FileInDoubt(state.scopes, claims, owners, ids, id))
    {
      if ids == [] { return Err(NotWithdrawable); }
      var removed: KeyPairs, publications: set<int>, versions: set<int> := {}, {}, {};
      for i := 0 to |ids|
        invariant forall j | 0 <= j < i :: Listed(state.scopes, ids[j]) || ids[j] in pending
        invariant removed == Removed(state.scopes, claims, ids[..i])
        invariant forall id :: id in publications <==> id in ids[..i] && (!Listed(state.scopes, id) || id !in claims)
        invariant forall id :: id in versions <==> IsWithdrawnVersion(state.scopes, claims, ids[..i], id)
      {
        var place := Place(state.scopes, ids[i]);
        PlaceIsListed(state.scopes, ids[i]);
        assert ids[..i + 1] == ids[..i] + [ids[i]];
        if place == None {
          if ids[i] !in pending { return Err(NotWithdrawable); }
          publications := publications + {ids[i]};
        } else {
          var chain := VersionChain(claims, ids[i]);
          forall id ensures id in chain <==> IsVersion(claims, ids[i], id) { AllVersions(claims, ids[i], chain, id); }
          versions := versions + set id | id in chain;
          if chain == [] {
            publications := publications + {ids[i]};
          } else {
            removed := removed + {place.value};
          }
        }
      }
      assert ids[..|ids|] == ids;
      var deletes, ambiguous := FilesOf(removed, versions, owners);
      r := Ok(Analysis(removed, publications, deletes, ambiguous));
      if DistinctScopes(state.scopes) {
        RemovedById(state.scopes, claims, ids);
        DeletesById(state.scopes, claims, owners, ids, r.value);
      }
    }

    /** The loop over the claim files. */
    method FilesOf(removed: KeyPairs, versions: set<int>, owners: Owners) returns (deletes: set<int>, ambiguous: set<int>)
      ensures forall id :: id in deletes <==>
                && !Survives(state.scopes, removed, id)
                && (id in versions || (id in claims && IsOwned(id, claims[id], removed, owners)))
      ensures forall id :: id in ambiguous <==>
                && id in claims && !Survives(state.scopes, removed, id) && HasWithdrawnKey(claims[id], removed)
                && id !in versions && !IsOwned(id, claims[id], removed, owners)
    {
      deletes, ambiguous := versions, {};
      var files := claims.Keys;
      while files != {}
        invariant files <= claims.Keys
        invariant forall id :: id in deletes <==>
                    id in versions || (id in claims && id !in files && IsOwned(id, claims[id], removed, owners))
        invariant forall id :: id in ambiguous <==>
                    && id in claims && id !in files && !Survives(state.scopes, removed, id) && HasWithdrawnKey(claims[id], removed)
                    && id !in versions && !IsOwned(id, claims[id], removed, owners)
        decreases files
      {
        SomeMember(files);
        var id :| id in files;
        files := files - {id};
        if id !in versions && HasWithdrawnKey(claims[id], removed) {
          if IsOwned(id, claims[id], removed, owners) {
            deletes := deletes + {id};
          } else if !Survives(state.scopes, removed, id) {
            ambiguous := ambiguous + {id};
          }
        }
      }
      deletes := set id | id in deletes && !Survives(state.scopes, removed, id);
    }

    /** `resumeWithdrawalDeletes`: one file after the other. */
    method DeleteFiles(deletes: set<int>)
      modifies this`claims
      ensures claims == old(claims) - deletes
    {
      var rest := deletes;
      while rest != {}
        invariant rest <= deletes && claims == old(claims) - (deletes - rest)
        decreases rest
      {
        SomeMember(rest);
        var id :| id in rest;
        rest := rest - {id};
        claims := claims - {id};
      }
    }

    /** `withdrawClaims`: the new snapshots are written, then the state, which commits, then the registry, and then files
        are deleted. A reader that comes in between, or after a stop in between, sees the state before or the state after. */
    method WithdrawClaims(ids: seq<int>, pending: set<int>, owners: Owners, name: Naming) returns (r: Result<KeyPairs, Error>)
      requires Valid() && FreshNames(state.scopes, snapshots, name)
      modifies this
      ensures Valid() && old(log) <= log
      // refused, for an id that no scope lists and nobody is to publish
      ensures r.Err? <==> ids == [] || exists i :: 0 <= i < |ids| && !Listed(old(state.scopes), ids[i]) && ids[i] !in pending
      ensures r.Err? ==> state == old(state) && snapshots == old(snapshots) && claims == old(claims)
      ensures r.Err? ==> AllBefore(log, |old(log)|, old(Now()))
      // what readers get, claim by claim: until one write what they got, and from then on what stays
      ensures r.Ok? ==> WithdrawnFrom(log, |old(log)|, old(Now()), old(claims), ids)
      ensures r.Ok? ==> NoNewScopes(old(state.scopes), state.scopes) && RegistryNames(registry, state.scopes)
      ensures r.Ok? ==> AllFollowOn(old(state.scopes), old(claims), ids, state.scopes, snapshots)
      // which files are deleted, and which publications are withdrawn
      ensures r.Ok? ==> forall id :: id in claims <==> id in old(claims) && !FileGoes(old(state.scopes), old(claims), owners, ids, id)
      ensures forall id | id in claims :: id in old(claims) && claims[id] == old(claims)[id]
      ensures ShownHaveFiles(old(state.scopes), old(claims)) ==> ShownHaveFiles(state.scopes, claims)
      ensures r.Ok? ==> forall id :: id in state.withdrawnPublications <==>
                || id in old(state.withdrawnPublications)
                || (id in ids && (!Listed(old(state.scopes), id) || id !in old(claims)))
      // the state that is written, by pairs of keys
      ensures r.Ok? ==> RemovesById(old(state.scopes), old(claims), ids, r.value)
      ensures r.Ok? ==> state.scopes == NewScopes(old(state.scopes), r.value, name) && state.tombstones == old(state.tombstones) + r.value
      ensures NamesOnly(old(snapshots), snapshots, name)
      ensures r.Ok? ==> SnapshotsReady(old(state.scopes), r.value, name, old(snapshots), snapshots)
      ensures r.Ok? ==> BeforeThenAfter(log, |old(log)|, old(Now()), r.value)
    {
      ghost var first := log;
      ConsistentIsDistinct(state, snapshots);
      SynchronizeRegistry();
      ghost var before := Now();
      var a := Analyse(ids, pending, owners);
      if a.Err? { return Err(a.error); }
      ghost var synchronized := log;
      PerformWithdrawal(a.value, name);
      EarlierStart(first, synchronized, log, old(Now()), before, a.value.removed);
      ThenForClaims(log, |first|, old(Now()), a.value.removed, old(claims), ids);
      FilesLeft(before.state.scopes, old(claims), owners, ids, a.value, name);
      ScopesStay(before.state.scopes, a.value.removed, name);
      ScopesFollowOn(before.state.scopes, old(claims), ids, a.value.removed, name, before.snapshots, snapshots);
      r := Ok(a.value.removed);
    }

    /** The writes of a withdrawal that has been decided. */
    method PerformWithdrawal(a: Analysis, name: Naming)
      requires Valid() && FreshNames(state.scopes, snapshots, name)
      modifies this
      ensures Valid() && old(log) <= log && registry == RegistryOf(state)
      ensures state == Withdrawn(old(state), a.removed, name, a.publications) && claims == old(claims) - a.deletes
      ensures NamesOnly(old(snapshots), snapshots, name)
      ensures SnapshotsReady(old(state.scopes), a.removed, name, old(snapshots), snapshots)
      ensures BeforeThenAfter(log, |old(log)|, old(Now()), a.removed)
    {
      ghost var before := Now();
      var scopes := WriteSnapshots(a.removed, name);
      ghost var written := log;
      CommitState(scopes, a.removed, name, a.publications, before);
      ThenAfter(written, log, |old(log)|, before, a.removed);
      DeleteFiles(a.deletes);
    }

    /** `synchronizeRegistry`. */
    method SynchronizeRegistry()
      requires Valid()
      modifies this`registry, this`log
      ensures Valid() && registry == RegistryOf(state) && log == old(log) + [Now()]
      ensures AllBefore(log, |old(log)|, old(Now()))
    {
      registry := RegistryOf(state);
      log := log + [Now()];
      BeforeReads(old(Now()), Now());
    }

    /** The state is written, which commits, and then the registry. */
    method CommitState(scopes: seq<ScopeEntry>, removed: KeyPairs, name: Naming, publications: set<int>, ghost before: Disk)
      requires log != [] && log[|log| - 1] == Now() && state == before.state && Consistent(before.state, before.snapshots)
      requires FreshNames(before.state.scopes, before.snapshots, name) && scopes == NewScopes(before.state.scopes, removed, name)
      requires SnapshotsReady(before.state.scopes, removed, name, before.snapshots, snapshots)
      modifies this`state, this`registry, this`log
      ensures Valid() && registry == RegistryOf(state) && old(log) < log
      ensures state == Withdrawn(before.state, removed, name, publications)
      ensures log == old(log) + [Disk(state, snapshots, old(registry)), Now()]
      ensures AllAfter(log, |old(log)|, before, removed)
    {
      WithdrawnIsConsistent(state, before.snapshots, removed, name, publications, snapshots);
      state := State(scopes, state.tombstones + removed, state.withdrawnPublications + publications);
      log := log + [Now()];
      AfterReads(before, removed, name, publications, Now());
      registry := RegistryOf(state);
      log := log + [Now()];
      AfterReads(before, removed, name, publications, Now());
    }

    method WriteSnapshot(s: Snapshot, ghost before: Disk, ghost start: nat)
      requires Valid() && s.snapshotId !in before.snapshots && state == before.state
      requires Consistent(before.state, before.snapshots) && start <= |log| && AllBefore(log, start, before)
      requires forall id | id in before.snapshots :: id in snapshots && snapshots[id] == before.snapshots[id]
      modifies this`snapshots, this`log
      ensures Valid() && snapshots == old(snapshots)[s.snapshotId := s] && log == old(log) + [Now()] && AllBefore(log, start, before)
    {
      snapshots := snapshots[s.snapshotId := s];
      StillConsistent(state, before.snapshots, snapshots);
      log := log + [Now()];
      BeforeReads(before, Now());
    }

    /** The loop over the scopes: every scope that keeps something gets its new snapshot. */
    method WriteSnapshots(removed: KeyPairs, name: Naming) returns (scopes: seq<ScopeEntry>)
      requires Valid() && FreshNames(state.scopes, snapshots, name)
      modifies this`snapshots, this`log
      ensures Valid() && old(log) <= log
      ensures scopes == NewScopes(state.scopes, removed, name)
      ensures SnapshotsReady(state.scopes, removed, name, old(snapshots), snapshots)
      ensures NamesOnly(old(snapshots), snapshots, name)
      ensures AllBefore(log, |old(log)|, old(Now()))
    {
      scopes := [];
      for i := 0 to |state.scopes|
        invariant Valid() && |old(log)| <= |log| && old(log) <= log
        invariant scopes + NewScopes(state.scopes[i..], removed, name) == NewScopes(state.scopes, removed, name)
        invariant SnapshotsReady(state.scopes[..i], removed, name, old(snapshots), snapshots)
        invariant NamesOnly(old(snapshots), snapshots, name)
        invariant AllBefore(log, |old(log)|, old(Now()))
      {
        var e := state.scopes[i];
        var remaining := Remaining(e.index, e.scopeKey, removed);
        OneMoreSnapshot(state.scopes, i, removed, name, old(snapshots), snapshots);
        OneMoreScope(state.scopes, i, removed, name, scopes);
        if Affected(e, removed) && remaining != [] && HasRefs(remaining) {
          WriteSnapshot(NewSnapshot(e, remaining, name(e.scopeKey)), old(Now()), |old(log)|);
        }
        var next := NewScope(e, removed, name(e.scopeKey));
        scopes := scopes + if next.Some? then [next.value] else [];
      }
      assert state.scopes[..|state.scopes|] == state.scopes;
    }
  }

  /** Every claim a scope lists has its file. */
  ghost predicate ShownHaveFiles(scopes: seq<ScopeEntry>, claims: map<int, StoredClaim>) {
    forall x, i | x in scopes && 0 <= i < |x.index| :: x.index[i].claimId in claims
  }

  lemma FilesLeft(scopes: seq<ScopeEntry>, claims: map<int, StoredClaim>, owners: Owners, ids: seq<int>, a: Analysis, name: Naming)
    requires Deletes(scopes, claims, owners, ids, a)
    ensures ShownHaveFiles(scopes, claims) ==> ShownHaveFiles(NewScopes(scopes, a.removed, name), claims - a.deletes)
  {
    if ShownHaveFiles(scopes, claims) {
      forall x, i | x in NewScopes(scopes, a.removed, name) && 0 <= i < |x.index| ensures x.index[i].claimId in claims - a.deletes {
        ShownKeepFiles(scopes, claims, owners, ids, a, name, x, i);
        ShownBefore(scopes, a.removed, name, x, i);
      }
    }
  }

  lemma ShownBefore(scopes: seq<ScopeEntry>, removed: KeyPairs, name: Naming, x: ScopeEntry, i: nat)
    requires x in NewScopes(scopes, removed, name) && i < |x.index|
    ensures exists e, j :: e in scopes && 0 <= j < |e.index| && e.index[j] == x.index[i]
  {
    NewScopesFrom(scopes, removed, name, x);
    var k :| 0 <= k < |scopes| && NewScope(scopes[k], removed, name(scopes[k].scopeKey)) == Some(x);
    RemainingEntries(scopes[k].index, scopes[k].scopeKey, removed);
    assert x.index[i] in x.index;
    if Affected(scopes[k], removed) { assert x.index[i] in Remaining(scopes[k].index, scopes[k].scopeKey, removed); }
    var j :| 0 <= j < |scopes[k].index| && scopes[k].index[j] == x.index[i];
  }

  /** New snapshots have new names. */
  ghost predicate NamesOnly(before: map<nat, Snapshot>, after: map<nat, Snapshot>, name: Naming) {
    forall id | id in after :: id in before || exists key :: name(key) == id
  }

  lemma OneMoreScope(all: seq<ScopeEntry>, i: nat, removed: KeyPairs, name: Naming, scopes: seq<ScopeEntry>)
    requires i < |all| && scopes + NewScopes(all[i..], removed, name) == NewScopes(all, removed, name)
    ensures var next := NewScope(all[i], removed, name(all[i].scopeKey));
            scopes + (if next.Some? then [next.value] else []) + NewScopes(all[i + 1..], removed, name) == NewScopes(all, removed, name)
  {
    var next := NewScope(all[i], removed, name(all[i].scopeKey));
    var head, tail := if next.Some? then [next.value] else [], NewScopes(all[i + 1..], removed, name);
    assert all[i..][1..] == all[i + 1..];
    assert NewScopes(all[i..], removed, name) == head + tail;
    assert scopes + (head + tail) == scopes + head + tail;
  }

  ghost predicate AllBefore(log: seq<Disk>, start: nat, before: Disk) {
    forall k | start <= k < |log| :: ReadsBefore(before, log[k])
  }

  ghost predicate AllAfter(log: seq<Disk>, start: nat, before: Disk, removed: KeyPairs) {
    forall k | start <= k < |log| :: ReadsAfter(before, removed, log[k])
  }

  /** From one write on, and for good, the withdrawn claims are gone; until then nothing has changed. */
  ghost predicate BeforeThenAfter(log: seq<Disk>, start: nat, before: Disk, removed: KeyPairs) {
    exists commit: nat | start <= commit < |log| ::
      AllBefore(log[..commit], start, before) && AllAfter(log, commit, before, removed)
  }

  /** Synchronising the registry first changes nothing for readers. */
  lemma EarlierStart(first: seq<Disk>, synchronized: seq<Disk>, log: seq<Disk>, before: Disk, middle: Disk, removed: KeyPairs)
    requires first <= synchronized <= log && before.state == middle.state
    requires AllBefore(synchronized, |first|, before) && BeforeThenAfter(log, |synchronized|, middle, removed)
    ensures BeforeThenAfter(log, |first|, before, removed)
  {
    var commit: nat :| |synchronized| <= commit < |log| &&
                       AllBefore(log[..commit], |synchronized|, middle) && AllAfter(log, commit, middle, removed);
    forall k | |first| <= k < commit ensures ReadsBefore(before, log[..commit][k]) {
      if k < |synchronized| {
        assert log[k] == synchronized[k];
      } else {
        assert ReadsBefore(middle, log[..commit][k]);
      }
    }
    forall k | commit <= k < |log| ensures ReadsAfter(before, removed, log[k]) {
      assert ReadsAfter(middle, removed, log[k]);
    }
    assert AllBefore(log[..commit], |first|, before) && AllAfter(log, commit, before, removed);
  }

  lemma ThenAfter(written: seq<Disk>, log: seq<Disk>, start: nat, before: Disk, removed: KeyPairs)
    requires start <= |written| && written < log
    requires AllBefore(written, start, before) && AllAfter(log, |written|, before, removed)
    ensures BeforeThenAfter(log, start, before, removed)
  {
    assert log[..|written|] == written;
  }

  /** Every scope reads as its index said before. */
  ghost predicate ReadsBefore(before: Disk, d: Disk) {
    forall k | 0 <= k < |before.state.scopes| ::
      ReadSnapshot(d, Registered(before.state.scopes[k])) == IndexRead(before.state.scopes[k].index)
  }

  /** Every scope that keeps its rest reads as its index without the withdrawn keys, through the old registry entry and
      through the new one. */
  ghost predicate ReadsAfter(before: Disk, removed: KeyPairs, d: Disk) {
    forall k | 0 <= k < |before.state.scopes| :: ScopeReadsAfter(before.state.scopes[k], removed, d)
  }

  ghost predicate ScopeReadsAfter(e: ScopeEntry, removed: KeyPairs, d: Disk) {
    var stale, now := ReadSnapshot(d, Registered(e)), FindScope(d.state.scopes, e.scopeKey);
    && (now.Some? ==> ReadSnapshot(d, Registered(now.value)) == stale)
    && (if HasRefs(e.index) then
          && (stale == Some(Shown(e, removed)) <==> KeepsRest(e, removed))
          && (now == None ==> stale == Some([]))
          && (!KeepsRest(e, removed) ==> now == None)
        else stale == None)
  }

  lemma BeforeReads(before: Disk, d: Disk)
    requires Consistent(before.state, before.snapshots) && d.state == before.state
    requires forall id | id in before.snapshots :: id in d.snapshots && d.snapshots[id] == before.snapshots[id]
    ensures ReadsBefore(before, d)
  {
    forall k | 0 <= k < |before.state.scopes|
      ensures ReadSnapshot(d, Registered(before.state.scopes[k])) == IndexRead(before.state.scopes[k].index) {
      StillConsistent(before.state, before.snapshots, d.snapshots);
      ShowsIndex(d, k);
    }
  }

  lemma StillConsistent(state: State, before: map<nat, Snapshot>, after: map<nat, Snapshot>)
    requires Consistent(state, before) && forall id | id in before :: id in after && after[id] == before[id]
    ensures Consistent(state, after)
  {
    forall i | 0 <= i < |state.scopes| ensures ScopeOk(state.scopes[i], after, state.tombstones) {
      assert ScopeOk(state.scopes[i], before, state.tombstones);
    }
  }

  lemma AfterReads(before: Disk, removed: KeyPairs, name: Naming, publications: set<int>, d: Disk)
    requires Consistent(before.state, before.snapshots) && FreshNames(before.state.scopes, before.snapshots, name)
    requires d.state == Withdrawn(before.state, removed, name, publications)
    requires SnapshotsReady(before.state.scopes, removed, name, before.snapshots, d.snapshots)
    ensures ReadsAfter(before, removed, d)
  {
    forall k | 0 <= k < |before.state.scopes| ensures ScopeReadsAfter(before.state.scopes[k], removed, d) {
      StaleAndFreshAgree(before, removed, name, publications, d, k);
      FindNewScope(before.state.scopes, removed, name, k);
    }
  }

  lemma OneMoreSnapshot(scopes: seq<ScopeEntry>, i: nat, removed: KeyPairs, name: Naming,
                        before: map<nat, Snapshot>, now: map<nat, Snapshot>)
    requires i < |scopes| && FreshNames(scopes, before, name) && SnapshotsReady(scopes[..i], removed, name, before, now)
    ensures var e := scopes[i];
            var id := name(e.scopeKey);
            var next := if Affected(e, removed) && NewScope(e, removed, id).Some? then
                          now[id := NewSnapshot(e, Remaining(e.index, e.scopeKey, removed), id)] else now;
            SnapshotsReady(scopes[..i + 1], removed, name, before, next)
  {
    assert forall j | 0 <= j < i :: scopes[..i + 1][j] == scopes[..i][j];
  }

  // ---- what readers see, claim by claim ----

  ghost predicate StrictlyAscending(ids: seq<int>) {
    forall i, j | 0 <= i < j < |ids| :: ids[i] < ids[j]
  }

  lemma {:induction false} InsertIsStrict(id: int, ids: seq<int>)
    requires StrictlyAscending(ids) && id !in ids
    ensures StrictlyAscending(Insert(id, ids))
  {
    if ids != [] && id > ids[0] {
      assert ids == [ids[0]] + ids[1..];
      InsertIsStrict(id, ids[1..]);
      InsertIsSorted(id, ids[1..]);
      var rest := Insert(id, ids[1..]);
      forall j | 0 <= j < |rest| ensures ids[0] < rest[j] { assert rest[j] in rest; }
    }
  }

  lemma {:induction false} SortedIsStrict(ids: seq<int>)
    requires forall i, j | 0 <= i < j < |ids| :: ids[i] != ids[j]
    ensures StrictlyAscending(Sorted(ids))
  {
    if ids != [] {
      SortedIsStrict(ids[1..]);
      KeepSorted(ids[1..], {});
      InsertIsStrict(ids[0], Sorted(ids[1..]));
    }
  }

  /** The ids of the entries that remain, each once and in order. */
  lemma ShownIds(e: ScopeEntry, removed: KeyPairs)
    requires DistinctEntries(e.index)
    ensures StrictlyAscending(Shown(e, removed))
    ensures forall id :: id in Shown(e, removed) <==>
              exists i :: 0 <= i < |e.index| && e.index[i].claimId == id && (e.scopeKey, e.index[i].claimKey) !in removed
  {
    var remaining := Remaining(e.index, e.scopeKey, removed);
    RemainingEntries(e.index, e.scopeKey, removed);
    SortedIsStrict(Ids(remaining));
    KeepSorted(Ids(remaining), {});
    forall id ensures id in Ids(remaining) <==>
                        exists i :: 0 <= i < |e.index| && e.index[i].claimId == id && (e.scopeKey, e.index[i].claimKey) !in removed {
      RemainingId(e, removed, remaining, id);
    }
  }

  lemma RemainingId(e: ScopeEntry, removed: KeyPairs, remaining: seq<IndexEntry>, id: int)
    requires forall x :: x in remaining <==> x in e.index && (e.scopeKey, x.claimKey) !in removed
    ensures id in Ids(remaining) <==>
              exists i :: 0 <= i < |e.index| && e.index[i].claimId == id && (e.scopeKey, e.index[i].claimKey) !in removed
  {
    if id in Ids(remaining) {
      var j :| 0 <= j < |remaining| && Ids(remaining)[j] == id;
      assert remaining[j] in remaining;
      var i :| 0 <= i < |e.index| && e.index[i] == remaining[j];
    }
    if i :| 0 <= i < |e.index| && e.index[i].claimId == id && (e.scopeKey, e.index[i].claimKey) !in removed {
      assert e.index[i] in remaining;
      var j :| 0 <= j < |remaining| && remaining[j] == e.index[i];
      assert Ids(remaining)[j] == id;
    }
  }

  /** A reader of scope k gets the claims that stay in it, each once and in order; and none at all when no claim that
      stays has a canonical reference. */
  ghost predicate ShowsWhatStays(shown: Option<seq<int>>, scopes: seq<ScopeEntry>, claims: map<int, StoredClaim>, ids: seq<int>, k: nat)
    requires k < |scopes|
  {
    var seen := if shown.Some? then shown.value else [];
    && StrictlyAscending(seen)
    && forall id :: id in seen <==> StaysIn(scopes, claims, ids, k, id) && RefStays(scopes, claims, ids, k)
  }

  /** Through the old registry entry of every scope, and through the new one if the scope is kept. */
  ghost predicate WithdrawnFor(scopes: seq<ScopeEntry>, claims: map<int, StoredClaim>, ids: seq<int>, d: Disk) {
    forall k | 0 <= k < |scopes| :: ScopeWithdrawnFor(scopes, claims, ids, k, d)
  }

  ghost predicate ScopeWithdrawnFor(scopes: seq<ScopeEntry>, claims: map<int, StoredClaim>, ids: seq<int>, k: nat, d: Disk)
    requires k < |scopes|
  {
    && ShowsWhatStays(ReadSnapshot(d, Registered(scopes[k])), scopes, claims, ids, k)
    && var now := FindScope(d.state.scopes, scopes[k].scopeKey);
       now.Some? ==> ShowsWhatStays(ReadSnapshot(d, Registered(now.value)), scopes, claims, ids, k)
  }

  lemma HasRefsMeaning(index: seq<IndexEntry>)
    ensures HasRefs(index) <==> exists x :: x in index && x.canonicalRefs != {}
  {
    if HasRefs(index) {
      var ref :| ref in RefsOf(index);
      var j :| 0 <= j < |index| && ref in index[j].canonicalRefs;
      assert index[j] in index;
    }
    if x :| x in index && x.canonicalRefs != {} {
      var j :| 0 <= j < |index| && index[j] == x;
      var ref :| ref in index[j].canonicalRefs;
      assert ref in RefsOf(index);
    }
  }

  lemma RefStaysMeaning(scopes: seq<ScopeEntry>, claims: map<int, StoredClaim>, ids: seq<int>, removed: KeyPairs, k: nat)
    requires RemovesById(scopes, claims, ids, removed) && k < |scopes|
    ensures RefStays(scopes, claims, ids, k) <==> HasRefs(Remaining(scopes[k].index, scopes[k].scopeKey, removed))
  {
    var e := scopes[k];
    var remaining := Remaining(e.index, e.scopeKey, removed);
    RemainingEntries(e.index, e.scopeKey, removed);
    HasRefsMeaning(remaining);
    if HasRefs(remaining) {
      var x :| x in remaining && x.canonicalRefs != {};
      var i :| 0 <= i < |e.index| && e.index[i] == x;
      assert StaysIn(scopes, claims, ids, k, e.index[i].claimId);
    }
    if RefStays(scopes, claims, ids, k) {
      var i :| && 0 <= i < |e.index| && e.index[i].canonicalRefs != {} && StaysIn(scopes, claims, ids, k, e.index[i].claimId);
      assert e.index[i] in remaining;
    }
  }

  lemma StayingIds(scopes: seq<ScopeEntry>, claims: map<int, StoredClaim>, ids: seq<int>, removed: KeyPairs, k: nat)
    requires RemovesById(scopes, claims, ids, removed) && DistinctScopes(scopes) && k < |scopes|
    ensures StrictlyAscending(Shown(scopes[k], removed))
    ensures forall id :: id in Shown(scopes[k], removed) <==> StaysIn(scopes, claims, ids, k, id)
  {
    var e := scopes[k];
    ShownIds(e, removed);
    forall id ensures id in Shown(e, removed) <==> StaysIn(scopes, claims, ids, k, id) {
      if StaysIn(scopes, claims, ids, k, id) {
        var i :| 0 <= i < |e.index| && e.index[i].claimId == id;
        assert (e.scopeKey, e.index[i].claimKey) !in removed;
      }
    }
  }

  /** What the scopes read after the state is written, in terms of the claims asked for. */
  lemma ReadsForClaims(before: Disk, claims: map<int, StoredClaim>, ids: seq<int>, removed: KeyPairs, d: Disk)
    requires DistinctScopes(before.state.scopes) && RemovesById(before.state.scopes, claims, ids, removed)
    requires ReadsAfter(before, removed, d)
    ensures WithdrawnFor(before.state.scopes, claims, ids, d)
  {
    forall k | 0 <= k < |before.state.scopes| ensures ScopeWithdrawnFor(before.state.scopes, claims, ids, k, d) {
      assert ScopeReadsAfter(before.state.scopes[k], removed, d);
      ReadForClaims(before.state.scopes, claims, ids, removed, k, d);
    }
  }

  lemma ReadForClaims(scopes: seq<ScopeEntry>, claims: map<int, StoredClaim>, ids: seq<int>, removed: KeyPairs, k: nat, d: Disk)
    requires DistinctScopes(scopes) && RemovesById(scopes, claims, ids, removed) && k < |scopes|
    requires ScopeReadsAfter(scopes[k], removed, d)
    ensures ScopeWithdrawnFor(scopes, claims, ids, k, d)
  {
    var e := scopes[k];
    RefStaysMeaning(scopes, claims, ids, removed, k);
    StayingIds(scopes, claims, ids, removed, k);
    RemainingRefs(e.index, e.scopeKey, removed);
    var remaining := Remaining(e.index, e.scopeKey, removed);
    ShownEmpty(remaining);
    if !Affected(e, removed) { NoneRemoved(e.index, e.scopeKey, removed); }
  }

  /** No other scope than k lists the claim. */
  ghost predicate OnlyIn(scopes: seq<ScopeEntry>, id: int) {
    forall k, l | 0 <= k < l < |scopes| :: !(Lists(scopes[k], id) && Lists(scopes[l], id))
  }

  ghost predicate NotRead(d: Disk, r: RegistryEntry, id: int) {
    var read := ReadSnapshot(d, r);
    read.Some? ==> id !in read.value
  }

  lemma GoneFromScope(scopes: seq<ScopeEntry>, claims: map<int, StoredClaim>, ids: seq<int>, d: Disk, id: int, k: nat)
    requires k < |scopes| && ScopeWithdrawnFor(scopes, claims, ids, k, d)
    requires id in ids && id in claims && OnlyIn(scopes, id)
    ensures NotRead(d, Registered(scopes[k]), id)
    ensures var now := FindScope(d.state.scopes, scopes[k].scopeKey); now.Some? ==> NotRead(d, Registered(now.value), id)
  {
    if Lists(scopes[k], id) { assert Leaves(scopes, claims, ids, k, id); }
    assert !StaysIn(scopes, claims, ids, k, id);
  }

  /** A withdrawn claim that one scope listed is in nothing that a registry entry leads to, old or new. */
  lemma WithdrawnIsGone(before: Disk, claims: map<int, StoredClaim>, ids: seq<int>, d: Disk, id: int, r: RegistryEntry)
    requires WithdrawnFor(before.state.scopes, claims, ids, d) && Consistent(d.state, d.snapshots)
    requires NoNewScopes(before.state.scopes, d.state.scopes)
    requires id in ids && id in claims && OnlyIn(before.state.scopes, id)
    requires r in RegistryOf(before.state) + RegistryOf(d.state)
    ensures NotRead(d, r, id)
  {
    var scopes := before.state.scopes;
    if r in RegistryOf(before.state) {
      var k :| 0 <= k < |scopes| && RegistryOf(before.state)[k] == r;
      assert ScopeWithdrawnFor(scopes, claims, ids, k, d);
      GoneFromScope(scopes, claims, ids, d, id, k);
    } else {
      var n :| 0 <= n < |d.state.scopes| && RegistryOf(d.state)[n] == r;
      assert HasScope(scopes, d.state.scopes[n].scopeKey);
      var k :| 0 <= k < |scopes| && scopes[k].scopeKey == d.state.scopes[n].scopeKey;
      assert ScopeWithdrawnFor(scopes, claims, ids, k, d);
      GoneFromScope(scopes, claims, ids, d, id, k);
      FindNewScope(d.state.scopes, {}, _ => 0, n);
    }
  }

  ghost predicate HasScope(scopes: seq<ScopeEntry>, scopeKey: string) {
    exists k :: 0 <= k < |scopes| && scopes[k].scopeKey == scopeKey
  }

  /** A withdrawal adds no scope. */
  ghost predicate NoNewScopes(before: seq<ScopeEntry>, after: seq<ScopeEntry>) {
    forall n | 0 <= n < |after| :: HasScope(before, after[n].scopeKey)
  }

  /** From one write on every reader gets what stays; until then what it got before. */
  ghost predicate WithdrawnFrom(log: seq<Disk>, start: nat, before: Disk, claims: map<int, StoredClaim>, ids: seq<int>) {
    exists commit: nat | start <= commit < |log| ::
      AllBefore(log[..commit], start, before) && AllWithdrawn(log, commit, before, claims, ids)
  }

  ghost predicate AllWithdrawn(log: seq<Disk>, start: nat, before: Disk, claims: map<int, StoredClaim>, ids: seq<int>) {
    forall k | start <= k < |log| :: WithdrawnFor(before.state.scopes, claims, ids, log[k])
  }

  lemma ThenForClaims(log: seq<Disk>, start: nat, before: Disk, removed: KeyPairs, claims: map<int, StoredClaim>, ids: seq<int>)
    requires BeforeThenAfter(log, start, before, removed)
    requires DistinctScopes(before.state.scopes) && RemovesById(before.state.scopes, claims, ids, removed)
    ensures WithdrawnFrom(log, start, before, claims, ids)
  {
    var commit: nat :| start <= commit < |log| && AllBefore(log[..commit], start, before) && AllAfter(log, commit, before, removed);
    forall k | commit <= k < |log| ensures WithdrawnFor(before.state.scopes, claims, ids, log[k]) {
      assert ReadsAfter(before, removed, log[k]);
      ReadsForClaims(before, claims, ids, removed, log[k]);
    }
    assert AllWithdrawn(log, commit, before, claims, ids);
  }

  lemma ConsistentIsDistinct(state: State, snapshots: map<nat, Snapshot>)
    requires Consistent(state, snapshots)
    ensures DistinctScopes(state.scopes)
  {
    forall k | 0 <= k < |state.scopes| ensures DistinctEntries(state.scopes[k].index) {
      assert ScopeOk(state.scopes[k], snapshots, state.tombstones);
    }
  }

  lemma ScopesStay(scopes: seq<ScopeEntry>, removed: KeyPairs, name: Naming)
    ensures NoNewScopes(scopes, NewScopes(scopes, removed, name))
  {
    var later := NewScopes(scopes, removed, name);
    forall n | 0 <= n < |later| ensures HasScope(scopes, later[n].scopeKey) {
      NewScopesFrom(scopes, removed, name, later[n]);
      var k :| 0 <= k < |scopes| && NewScope(scopes[k], removed, name(scopes[k].scopeKey)) == Some(later[n]);
      assert scopes[k].scopeKey == later[n].scopeKey;
    }
  }

  /** Some claim leaves the scope. */
  ghost predicate LosesAny(scopes: seq<ScopeEntry>, claims: map<int, StoredClaim>, ids: seq<int>, k: nat)
    requires k < |scopes|
  {
    exists i :: 0 <= i < |scopes[k].index| && Leaves(scopes, claims, ids, k, scopes[k].index[i].claimId)
  }

  /** The scope that replaces another one holds the entries that stay, under the next version of its snapshot. */
  ghost predicate Succeeds(scopes: seq<ScopeEntry>, claims: map<int, StoredClaim>, ids: seq<int>, k: nat, x: ScopeEntry,
                           snapshots: map<nat, Snapshot>)
    requires k < |scopes|
  {
    && x.scopeKey == scopes[k].scopeKey && x.version == scopes[k].version + 1 && x.snapshotId in snapshots
    && snapshots[x.snapshotId].baseHash == Some(scopes[k].snapshotHash) && snapshots[x.snapshotId].scopeKey == x.scopeKey
    && forall y :: y in x.index <==> y in scopes[k].index && !Leaves(scopes, claims, ids, k, y.claimId)
  }

  /** A scope that loses nothing stays as it is; one that loses claims is replaced, or leaves when no claim that stays has a
      canonical reference. */
  ghost predicate FollowsOn(scopes: seq<ScopeEntry>, claims: map<int, StoredClaim>, ids: seq<int>, k: nat, after: seq<ScopeEntry>,
                            snapshots: map<nat, Snapshot>)
    requires k < |scopes|
  {
    match FindScope(after, scopes[k].scopeKey)
    case None => LosesAny(scopes, claims, ids, k) && !RefStays(scopes, claims, ids, k)
    case Some(x) =>
      if LosesAny(scopes, claims, ids, k) then RefStays(scopes, claims, ids, k) && Succeeds(scopes, claims, ids, k, x, snapshots)
      else x == scopes[k]
  }

  ghost predicate AllFollowOn(scopes: seq<ScopeEntry>, claims: map<int, StoredClaim>, ids: seq<int>, after: seq<ScopeEntry>,
                              snapshots: map<nat, Snapshot>)
  {
    forall k | 0 <= k < |scopes| :: FollowsOn(scopes, claims, ids, k, after, snapshots)
  }

  lemma ScopesFollowOn(scopes: seq<ScopeEntry>, claims: map<int, StoredClaim>, ids: seq<int>, removed: KeyPairs, name: Naming,
                       before: map<nat, Snapshot>, after: map<nat, Snapshot>)
    requires DistinctScopes(scopes) && RemovesById(scopes, claims, ids, removed)
    requires SnapshotsReady(scopes, removed, name, before, after)
    ensures AllFollowOn(scopes, claims, ids, NewScopes(scopes, removed, name), after)
  {
    forall k | 0 <= k < |scopes| ensures FollowsOn(scopes, claims, ids, k, NewScopes(scopes, removed, name), after) {
      FindNewScope(scopes, removed, name, k);
      ScopeFollowsOn(scopes, claims, ids, removed, k, name(scopes[k].scopeKey), after, NewScopes(scopes, removed, name));
    }
  }

  lemma ScopeFollowsOn(scopes: seq<ScopeEntry>, claims: map<int, StoredClaim>, ids: seq<int>, removed: KeyPairs, k: nat, id: nat,
                       snapshots: map<nat, Snapshot>, after: seq<ScopeEntry>)
    requires k < |scopes| && RemovesById(scopes, claims, ids, removed)
    requires FindScope(after, scopes[k].scopeKey) == NewScope(scopes[k], removed, id)
    requires Affected(scopes[k], removed) && NewScope(scopes[k], removed, id).Some? ==>
               id in snapshots && snapshots[id] == NewSnapshot(scopes[k], Remaining(scopes[k].index, scopes[k].scopeKey, removed), id)
    ensures FollowsOn(scopes, claims, ids, k, after, snapshots)
  {
    var e := scopes[k];
    var remaining := Remaining(e.index, e.scopeKey, removed);
    RefStaysMeaning(scopes, claims, ids, removed, k);
    LosesMeaning(scopes, claims, ids, removed, k);
    StayingEntries(scopes, claims, ids, removed, k);
    if remaining == [] { assert RefsOf(remaining) == {}; }
  }

  lemma LosesMeaning(scopes: seq<ScopeEntry>, claims: map<int, StoredClaim>, ids: seq<int>, removed: KeyPairs, k: nat)
    requires k < |scopes| && RemovesById(scopes, claims, ids, removed)
    ensures Affected(scopes[k], removed) <==> LosesAny(scopes, claims, ids, k)
  {
    var e := scopes[k];
    if i :| 0 <= i < |e.index| && (e.scopeKey, e.index[i].claimKey) in removed {
      assert Leaves(scopes, claims, ids, k, e.index[i].claimId);
    }
    if i :| 0 <= i < |e.index| && Leaves(scopes, claims, ids, k, e.index[i].claimId) {
      assert (e.scopeKey, e.index[i].claimKey) in removed;
    }
  }

  lemma StayingEntries(scopes: seq<ScopeEntry>, claims: map<int, StoredClaim>, ids: seq<int>, removed: KeyPairs, k: nat)
    requires k < |scopes| && RemovesById(scopes, claims, ids, removed)
    ensures forall y :: y in Remaining(scopes[k].index, scopes[k].scopeKey, removed) <==>
                          y in scopes[k].index && !Leaves(scopes, claims, ids, k, y.claimId)
  {
    var e := scopes[k];
    RemainingEntries(e.index, e.scopeKey, removed);
    forall y | y in e.index ensures (e.scopeKey, y.claimKey) in removed <==> Leaves(scopes, claims, ids, k, y.claimId) {
      var i :| 0 <= i < |e.index| && e.index[i] == y;
      assert (e.scopeKey, e.index[i].claimKey) in removed <==> Leaves(scopes, claims, ids, k, e.index[i].claimId);
    }
  }

  // ---- any number of withdrawals ----

  /** The entry was once the entry of its scope: its snapshot is still there, and of its claims the scope now holds those
      that have not been withdrawn since, or is gone. */
  ghost predicate Issued(e: ScopeEntry, d: Disk) {
    && ScopeOk(e, d.snapshots, {})
    && var now := FindScope(d.state.scopes, e.scopeKey);
       now.Some? ==> now.value.index == Remaining(e.index, e.scopeKey, d.state.tombstones)
  }

  lemma {:induction false} FoundScope(scopes: seq<ScopeEntry>, scopeKey: string)
    ensures match FindScope(scopes, scopeKey)
            case None => forall i | 0 <= i < |scopes| :: scopes[i].scopeKey != scopeKey
            case Some(e) => exists i :: 0 <= i < |scopes| && scopes[i] == e && e.scopeKey == scopeKey
  {
    if scopes != [] && scopes[0].scopeKey != scopeKey {
      FoundScope(scopes[1..], scopeKey);
      assert forall i | 1 <= i < |scopes| :: scopes[i] == scopes[1..][i - 1];
    }
  }

  lemma {:induction false} RemainingTwice(index: seq<IndexEntry>, scopeKey: string, a: KeyPairs, b: KeyPairs)
    ensures Remaining(Remaining(index, scopeKey, a), scopeKey, b) == Remaining(index, scopeKey, a + b)
  {
    if index != [] {
      var rest := Remaining(index[1..], scopeKey, a);
      RemainingTwice(index[1..], scopeKey, a, b);
      if (scopeKey, index[0].claimKey) in a {
        assert [] + rest == rest;
      } else {
        assert ([index[0]] + rest)[1..] == rest;
      }
    }
  }

  lemma {:induction false} NoneRemoved(index: seq<IndexEntry>, scopeKey: string, removed: KeyPairs)
    requires forall i | 0 <= i < |index| :: (scopeKey, index[i].claimKey) !in removed
    ensures Remaining(index, scopeKey, removed) == index
  {
    if index != [] { NoneRemoved(index[1..], scopeKey, removed); }
  }

  lemma CurrentIsIssued(d: Disk, k: nat)
    requires Consistent(d.state, d.snapshots) && k < |d.state.scopes|
    ensures Issued(d.state.scopes[k], d)
  {
    var e := d.state.scopes[k];
    assert ScopeOk(e, d.snapshots, d.state.tombstones);
    FindNewScope(d.state.scopes, {}, _ => 0, k);
    NoneRemoved(e.index, e.scopeKey, d.state.tombstones);
  }

  /** A withdrawal keeps what is said of earlier entries. */
  lemma StaysIssued(e: ScopeEntry, d: Disk, removed: KeyPairs, name: Naming, after: Disk)
    requires Issued(e, d) && Consistent(d.state, d.snapshots)
    requires after.state.scopes == NewScopes(d.state.scopes, removed, name)
    requires after.state.tombstones == d.state.tombstones + removed
    requires SnapshotsReady(d.state.scopes, removed, name, d.snapshots, after.snapshots)
    ensures Issued(e, after)
  {
    FoundScope(d.state.scopes, e.scopeKey);
    var now := FindScope(d.state.scopes, e.scopeKey);
    if now == None {
      NotFound(d.state.scopes, removed, name, e.scopeKey);
    } else {
      var k :| 0 <= k < |d.state.scopes| && d.state.scopes[k] == now.value;
      FindNewScope(d.state.scopes, removed, name, k);
      RemainingTwice(e.index, e.scopeKey, d.state.tombstones, removed);
      if !Affected(now.value, removed) { NoneRemoved(now.value.index, e.scopeKey, removed); }
    }
  }

  /** However old the registry entry a reader holds: it sees the claims the entry listed without all that has been
      withdrawn since, or nothing when the scope is gone. */
  lemma IssuedReads(e: ScopeEntry, d: Disk)
    requires Issued(e, d) && Consistent(d.state, d.snapshots) && HasRefs(e.index)
    ensures ReadSnapshot(d, Registered(e))
         == Some(if FindScope(d.state.scopes, e.scopeKey) == None then [] else Shown(e, d.state.tombstones))
  {
    var allowed := Allowed(d.state, e.scopeKey);
    var now := FindScope(d.state.scopes, e.scopeKey);
    FoundScope(d.state.scopes, e.scopeKey);
    KeepSorted(Ids(e.index), allowed);
    if now == None {
      KeepNone(Ids(e.index));
    } else {
      RemainingEntries(e.index, e.scopeKey, d.state.tombstones);
      forall x | x in e.index ensures x.claimId in allowed <==> (e.scopeKey, x.claimKey) !in d.state.tombstones {
        VisibleExactly(e, now.value, {}, d.state.tombstones, x);
        assert {} + d.state.tombstones == d.state.tombstones;
      }
      KeepRemaining(e.index, e.scopeKey, d.state.tombstones, allowed);
    }
  }

  /** Random ids: never one that is in use, and never one twice. */
  ghost predicate FreshIds(uuid: (nat, string) -> nat, snapshots: map<nat, Snapshot>) {
    && (forall i: nat, key :: uuid(i, key) !in snapshots)
    && (forall i: nat, key, j: nat, other :: uuid(i, key) == uuid(j, other) ==> i == j && key == other)
  }

  ghost predicate UsedBefore(uuid: (nat, string) -> nat, n: nat, first: map<nat, Snapshot>, snapshots: map<nat, Snapshot>) {
    forall id | id in snapshots :: id in first || exists i: nat, key :: i < n && uuid(i, key) == id
  }

  lemma NextIdsFresh(uuid: (nat, string) -> nat, n: nat, first: map<nat, Snapshot>, d: Disk)
    requires FreshIds(uuid, first) && UsedBefore(uuid, n, first, d.snapshots) && Consistent(d.state, d.snapshots)
    ensures FreshNames(d.state.scopes, d.snapshots, (key: string) => uuid(n, key))
  {
  }

  /** What every earlier state registered reads on this disk. */
  ghost predicate AllIssued(history: seq<Disk>, d: Disk) {
    forall h, k | 0 <= h < |history| && 0 <= k < |history[h].state.scopes| :: Issued(history[h].state.scopes[k], d)
  }

  lemma HistoryStaysIssued(history: seq<Disk>, d: Disk, removed: KeyPairs, name: Naming, after: Disk)
    requires AllIssued(history, d) && Consistent(d.state, d.snapshots)
    requires after.state.scopes == NewScopes(d.state.scopes, removed, name)
    requires after.state.tombstones == d.state.tombstones + removed
    requires SnapshotsReady(d.state.scopes, removed, name, d.snapshots, after.snapshots)
    requires Consistent(after.state, after.snapshots)
    ensures AllIssued(history + [after], after)
  {
    forall h, k | 0 <= h <= |history| && 0 <= k < |(history + [after])[h].state.scopes|
      ensures Issued((history + [after])[h].state.scopes[k], after) {
      if h < |history| {
        StaysIssued(history[h].state.scopes[k], d, removed, name, after);
      } else {
        CurrentIsIssued(after, k);
      }
    }
  }

  lemma RefusedStaysIssued(history: seq<Disk>, d: Disk, after: Disk)
    requires AllIssued(history, d) && after.state == d.state && after.snapshots == d.snapshots
    ensures AllIssued(history, after)
  {
    forall h, k | 0 <= h < |history| && 0 <= k < |history[h].state.scopes| ensures Issued(history[h].state.scopes[k], after) {
      assert Issued(history[h].state.scopes[k], d);
    }
  }

  /** Any number of withdrawals, refused ones included: at the end a reader sees the same through every registry entry
      that there ever was for a scope, without all that has been withdrawn since it was issued. */
  method WithdrawAll(d: Disk, claims: map<int, StoredClaim>, requests: seq<seq<int>>, pending: set<int>, owners: Owners,
                     uuid: (nat, string) -> nat)
    returns (store: ClaimStore, ghost history: seq<Disk>)
    requires Consistent(d.state, d.snapshots) && FreshIds(uuid, d.snapshots)
    ensures fresh(store) && store.Valid() && history != [] && history[0] == d && history[|history| - 1].state == store.state
    ensures forall h, k | 0 <= h < |history| && 0 <= k < |history[h].state.scopes| && HasRefs(history[h].state.scopes[k].index) ::
              var e := history[h].state.scopes[k];
              ReadSnapshot(store.Now(), Registered(e))
                == Some(if FindScope(store.state.scopes, e.scopeKey) == None then [] else Shown(e, store.state.tombstones))
  {
    store := new ClaimStore(d, claims);
    history := [d];
    forall k | 0 <= k < |d.state.scopes| ensures Issued(d.state.scopes[k], d) { CurrentIsIssued(d, k); }
    for i := 0 to |requests|
      invariant fresh(store) && store.Valid() && history != [] && history[0] == d && history[|history| - 1].state == store.state
      invariant AllIssued(history, store.Now()) && UsedBefore(uuid, i, d.snapshots, store.snapshots)
    {
      NextIdsFresh(uuid, i, d.snapshots, store.Now());
      history := WithdrawNext(store, requests[i], pending, owners, uuid, i, d.snapshots, history);
    }
    forall h, k | 0 <= h < |history| && 0 <= k < |history[h].state.scopes| && HasRefs(history[h].state.scopes[k].index)
      ensures var e := history[h].state.scopes[k];
              ReadSnapshot(store.Now(), Registered(e))
                == Some(if FindScope(store.state.scopes, e.scopeKey) == None then [] else Shown(e, store.state.tombstones)) {
      IssuedReads(history[h].state.scopes[k], store.Now());
    }
  }

  method WithdrawNext(store: ClaimStore, ids: seq<int>, pending: set<int>, owners: Owners, uuid: (nat, string) -> nat, i: nat,
                      ghost first: map<nat, Snapshot>, ghost history: seq<Disk>)
    returns (ghost longer: seq<Disk>)
    requires store.Valid() && AllIssued(history, store.Now()) && UsedBefore(uuid, i, first, store.snapshots)
    requires FreshNames(store.state.scopes, store.snapshots, (key: string) => uuid(i, key))
    requires history != [] && history[|history| - 1].state == store.state
    modifies store
    ensures store.Valid() && history <= longer && longer[|longer| - 1].state == store.state
    ensures AllIssued(longer, store.Now()) && UsedBefore(uuid, i + 1, first, store.snapshots)
  {
    ghost var before := store.Now();
    var name := (key: string) => uuid(i, key);
    var r := store.WithdrawClaims(ids, pending, owners, name);
    longer := history;
    if r.Ok? {
      HistoryStaysIssued(history, before, r.value, name, store.Now());
      longer := history + [store.Now()];
    } else {
      RefusedStaysIssued(history, before, store.Now());
    }
  }

  // ---- an input that fails ----

  /** Two claims, of which only the withdrawn one has a canonical reference: the other one is no longer shown either. */
  lemma LastReferenceExample(snapshotId: nat, hash: Hash, version: nat, id: nat)
    ensures var e := ScopeEntry("s", snapshotId, hash, version, [IndexEntry("a", 1, {"ref"}), IndexEntry("b", 2, {})]);
            var removed := {("s", "a")};
            HasRefs(e.index) && Shown(e, removed) == [2] && NewScope(e, removed, id) == None && !KeepsRest(e, removed)
  {
    var index := [IndexEntry("a", 1, {"ref"}), IndexEntry("b", 2, {})];
    var e, removed := ScopeEntry("s", snapshotId, hash, version, index), {("s", "a")};
    assert "ref" in RefsOf(index) by { assert "ref" in index[0].canonicalRefs; }
    assert index[1..] == [index[1]] && index[1..][1..] == [];
    assert Remaining(index, "s", removed) == [index[1]];
    assert RefsOf([index[1]]) == {};
    assert Ids([index[1]]) == [2] && [2][1..] == [];
    assert (e.scopeKey, e.index[0].claimKey) in removed;
  }
}
