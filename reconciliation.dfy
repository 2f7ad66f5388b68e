/**
 * The SyncList part of the configuration form: the cache of saved flags keyed by
 * `Folder_ObjectID`, and the SyncList rebuilt from the variables found below
 * each configured root, with each object's saved flags carried over.
 */
module Reconciliation {
  import opened Optional
  import opened PhpValues
  import opened CacheKeys
  import opened Hierarchy
  import opened SymconHost
  import opened Concat

  datatype Flags = Flags(active: bool, action: bool, delete: bool)

  const NoFlags := Flags(false, false, false)

  /** One decoded row of the saved SyncList; None is a missing or null key. */
  datatype SavedRow = SavedRow(
    folder: Option<string>, objectID: Option<int>, name: Option<string>,
    active: Option<bool>, action: Option<bool>, delete: Option<bool>)

  /** One decoded row of the Roots list. */
  datatype Root = Root(localRootID: Option<int>, targetFolder: Option<string>)

  /** One row of the rebuilt SyncList. */
  datatype SyncRecord = SyncRecord(
    folder: string, objectID: int, name: string, active: bool, action: bool, delete: bool)

  // ----- State cache -----

  /** `isset($item['Folder'], $item['ObjectID'])` */
  predicate Complete(row: SavedRow) {
    row.folder.Some? && row.objectID.Some?
  }

  predicate Matches(row: SavedRow, folder: string, objectID: int) {
    row.folder == Some(folder) && row.objectID == Some(objectID)
  }

  function RowKey(row: SavedRow): string
    requires Complete(row)
  {
    CacheKey(row.folder.value, row.objectID.value)
  }

  /** The flags a saved row contributes; a missing or null flag reads as false. */
  function RowFlags(row: SavedRow): (f: Flags)
    ensures f.active == (row.active == Some(true))
    ensures f.action == (row.action == Some(true))
    ensures f.delete == (row.delete == Some(true))
  {
    Flags(row.active.GetOr(false), row.action.GetOr(false), row.delete.GetOr(false))
  }

  /** The cache after the rows of `saved` have been stored in order. */
  function StateCache(saved: seq<SavedRow>): map<string, Flags>
    decreases |saved|
  {
    if saved == [] then map[]
    else
      var cache := StateCache(saved[..|saved| - 1]);
      var row := saved[|saved| - 1];
      if Complete(row) then cache[RowKey(row) := RowFlags(row)] else cache
  }

  /** Models the `foreach ($savedSync as $item)` loop that fills `$stateCache`. */
  method BuildStateCache(saved: seq<SavedRow>) returns (cache: map<string, Flags>)
    ensures cache == StateCache(saved)
  {
    cache := map[];
    for i := 0 to |saved|
      invariant cache == StateCache(saved[..i])
    {
      var item := saved[i];
      assert saved[..i + 1][..i] == saved[..i];
      if item.folder.Some? && item.objectID.Some? {
        var key := CacheKey(item.folder.value, item.objectID.value);
        cache := cache[key := Flags(item.active.GetOr(false), item.action.GetOr(false), item.delete.GetOr(false))];
      }
    }
    assert saved[..|saved|] == saved;
  }

  /** `row` is complete and its key is `key`. */
  predicate StoresKey(row: SavedRow, key: string) {
    Complete(row) && RowKey(row) == key
  }

  /** A row stores the key of (folder, objectID) exactly when it names that pair. */
  lemma StoresKeyMatches(row: SavedRow, folder: string, objectID: int)
    ensures StoresKey(row, CacheKey(folder, objectID)) <==> Matches(row, folder, objectID)
  {
    if StoresKey(row, CacheKey(folder, objectID)) {
      CacheKeyInjective(row.folder.value, row.objectID.value, folder, objectID);
    }
  }

  lemma StateCacheSnoc(saved: seq<SavedRow>, key: string)
    requires saved != []
    ensures key in StateCache(saved) <==>
              key in StateCache(saved[..|saved| - 1]) || StoresKey(saved[|saved| - 1], key)
  {
  }

  /** Every cache entry comes from a complete saved row. */
  lemma {:induction false} StateCacheKeysSound(saved: seq<SavedRow>, key: string)
    requires key in StateCache(saved)
    ensures exists i :: 0 <= i < |saved| && StoresKey(saved[i], key)
    decreases |saved|
  {
    var n := |saved| - 1;
    var prefix := saved[..n];
    StateCacheSnoc(saved, key);
    if key in StateCache(prefix) {
      StateCacheKeysSound(prefix, key);
      var i :| 0 <= i < |prefix| && StoresKey(prefix[i], key);
      assert saved[i] == prefix[i];
    } else {
      assert StoresKey(saved[n], key);
    }
  }

  /** Every complete saved row leaves an entry under its key. */
  lemma {:induction false} StateCacheKeysComplete(saved: seq<SavedRow>, key: string, i: nat)
    requires i < |saved| && StoresKey(saved[i], key)
    ensures key in StateCache(saved)
    decreases |saved|
  {
    var n := |saved| - 1;
    var prefix := saved[..n];
    StateCacheSnoc(saved, key);
    if i < n {
      assert prefix[i] == saved[i];
      StateCacheKeysComplete(prefix, key, i);
    }
  }

  /** The cache's keys are exactly the keys of the complete saved rows. */
  lemma StateCacheKeys(saved: seq<SavedRow>, key: string)
    ensures key in StateCache(saved) <==> exists i :: 0 <= i < |saved| && StoresKey(saved[i], key)
  {
    if key in StateCache(saved) {
      StateCacheKeysSound(saved, key);
    }
    if exists i :: 0 <= i < |saved| && StoresKey(saved[i], key) {
      var i :| 0 <= i < |saved| && StoresKey(saved[i], key);
      StateCacheKeysComplete(saved, key, i);
    }
  }

  /** Row `i` is the last saved row that names (folder, objectID). */
  ghost predicate IsLastMatch(saved: seq<SavedRow>, folder: string, objectID: int, i: int) {
    && 0 <= i < |saved|
    && Matches(saved[i], folder, objectID)
    && forall j :: i < j < |saved| ==> !Matches(saved[j], folder, objectID)
  }

  /** The key of (folder, objectID) is cached exactly when some saved row names that pair. */
  lemma StateCacheHas(saved: seq<SavedRow>, folder: string, objectID: int)
    ensures CacheKey(folder, objectID) in StateCache(saved) <==>
              exists i :: 0 <= i < |saved| && Matches(saved[i], folder, objectID)
  {
    var key := CacheKey(folder, objectID);
    StateCacheKeys(saved, key);
    if key in StateCache(saved) {
      var i :| 0 <= i < |saved| && StoresKey(saved[i], key);
      StoresKeyMatches(saved[i], folder, objectID);
    }
    if exists i :: 0 <= i < |saved| && Matches(saved[i], folder, objectID) {
      var i :| 0 <= i < |saved| && Matches(saved[i], folder, objectID);
      StoresKeyMatches(saved[i], folder, objectID);
    }
  }

  /** The last saved row that names (folder, objectID) decides its cached flags. */
  lemma {:induction false} StateCacheLookup(saved: seq<SavedRow>, folder: string, objectID: int, i: int)
    requires IsLastMatch(saved, folder, objectID, i)
    ensures CacheKey(folder, objectID) in StateCache(saved)
    ensures StateCache(saved)[CacheKey(folder, objectID)] == RowFlags(saved[i])
    decreases |saved|
  {
    var key := CacheKey(folder, objectID);
    var n := |saved| - 1;
    var prefix := saved[..n];
    var row := saved[n];
    if i < n {
      assert !Matches(row, folder, objectID);
      assert IsLastMatch(prefix, folder, objectID, i) by {
        forall j | i < j < n ensures !Matches(prefix[j], folder, objectID) {
          assert prefix[j] == saved[j];
        }
      }
      StateCacheLookup(prefix, folder, objectID, i);
      StoresKeyMatches(row, folder, objectID);
    }
  }

  /** If every saved row naming (folder, objectID) carries the same flags, the cache holds them. */
  lemma {:induction false} StateCacheUniform(saved: seq<SavedRow>, folder: string, objectID: int, flags: Flags)
    requires exists i :: 0 <= i < |saved| && Matches(saved[i], folder, objectID)
    requires forall i :: 0 <= i < |saved| && Matches(saved[i], folder, objectID) ==> RowFlags(saved[i]) == flags
    ensures CacheKey(folder, objectID) in StateCache(saved)
    ensures StateCache(saved)[CacheKey(folder, objectID)] == flags
  {
    var i :| 0 <= i < |saved| && Matches(saved[i], folder, objectID);
    LastMatch(saved, folder, objectID, i);
    var k :| IsLastMatch(saved, folder, objectID, k);
    StateCacheLookup(saved, folder, objectID, k);
  }

  /** Some matching row is the last one. */
  lemma {:induction false} LastMatch(saved: seq<SavedRow>, folder: string, objectID: int, i: nat)
    requires i < |saved| && Matches(saved[i], folder, objectID)
    ensures exists k :: i <= k && IsLastMatch(saved, folder, objectID, k)
    decreases |saved| - i
  {
    if exists j :: i < j < |saved| && Matches(saved[j], folder, objectID) {
      var j :| i < j < |saved| && Matches(saved[j], folder, objectID);
      LastMatch(saved, folder, objectID, j);
    } else {
      assert IsLastMatch(saved, folder, objectID, i);
    }
  }

  // ----- Reconciliation -----

  /** `$root['LocalRootID'] ?? 0` */
  function RootID(root: Root): int {
    root.localRootID.GetOr(0)
  }

  /** `$root['TargetFolder'] ?? ''` */
  function RootFolder(root: Root): string {
    root.targetFolder.GetOr("")
  }

  /** The guard a root must pass before its variables are listed. */
  predicate IsValidRoot(root: Root, host: Host) {
    RootID(root) > 0 && host.objectExists(RootID(root)) && !IsEmptyString(RootFolder(root))
  }

  /** The variables `GetRecursiveVariables` finds below a root. */
  function Found(root: Root, host: Host): seq<int> {
    Variables(host.objectAt(RootID(root)))
  }

  /** The flags cached for (folder, objectID), or all false when there are none. */
  function FlagsFor(cache: map<string, Flags>, folder: string, objectID: int): Flags {
    var key := CacheKey(folder, objectID);
    if key in cache then cache[key] else NoFlags
  }

  /** The SyncList row for one found variable: its live name, its cached or default flags. */
  function MakeRecord(folder: string, objectID: int, cache: map<string, Flags>, host: Host): SyncRecord {
    var flags := FlagsFor(cache, folder, objectID);
    SyncRecord(folder, objectID, host.nameOf(objectID), flags.active, flags.action, flags.delete)
  }

  /** One row per ID, in order. */
  function RecordsFor(folder: string, ids: seq<int>, cache: map<string, Flags>, host: Host): (r: seq<SyncRecord>)
    ensures |r| == |ids|
    ensures forall k :: 0 <= k < |ids| ==> r[k] == MakeRecord(folder, ids[k], cache, host)
    decreases |ids|
  {
    if ids == [] then []
    else RecordsFor(folder, ids[..|ids| - 1], cache, host) + [MakeRecord(folder, ids[|ids| - 1], cache, host)]
  }

  /** The rows one root contributes: none unless it passes the guard. */
  function RootRecords(root: Root, cache: map<string, Flags>, host: Host): seq<SyncRecord> {
    if IsValidRoot(root, host) then RecordsFor(RootFolder(root), Found(root, host), cache, host) else []
  }

  function RowsOf(cache: map<string, Flags>, host: Host): Root -> seq<SyncRecord> {
    root => RootRecords(root, cache, host)
  }

  /** The SyncList rebuilt from `roots`: each root's rows, in roots order. */
  function Reconcile(roots: seq<Root>, cache: map<string, Flags>, host: Host): seq<SyncRecord> {
    FlatMap(roots, RowsOf(cache, host))
  }

  lemma ReconcileSnoc(roots: seq<Root>, i: nat, cache: map<string, Flags>, host: Host)
    requires i < |roots|
    ensures Reconcile(roots[..i + 1], cache, host) == Reconcile(roots[..i], cache, host) + RootRecords(roots[i], cache, host)
  {
    FlatMapSnoc(roots, i, RowsOf(cache, host));
  }

  lemma RecordsForSnoc(folder: string, ids: seq<int>, j: nat, cache: map<string, Flags>, host: Host)
    requires j < |ids|
    ensures RecordsFor(folder, ids[..j + 1], cache, host)
              == RecordsFor(folder, ids[..j], cache, host) + [MakeRecord(folder, ids[j], cache, host)]
  {
    assert ids[..j + 1][..j] == ids[..j];
  }

  /** Models the `foreach ($roots as $root)` loop that fills `$syncValues`. */
  method BuildSyncValues(roots: seq<Root>, cache: map<string, Flags>, host: Host) returns (syncValues: seq<SyncRecord>)
    ensures syncValues == Reconcile(roots, cache, host)
  {
    syncValues := [];
    for i := 0 to |roots|
      invariant syncValues == Reconcile(roots[..i], cache, host)
    {
      ReconcileSnoc(roots, i, cache, host);
      syncValues := AppendRootRecords(syncValues, roots[i], cache, host);
    }
    assert roots[..|roots|] == roots;
  }

  /** One pass of the roots loop: the guard, the walk, and the rows for what it found. */
  method AppendRootRecords(syncValues: seq<SyncRecord>, root: Root, cache: map<string, Flags>, host: Host)
    returns (r: seq<SyncRecord>)
    ensures r == syncValues + RootRecords(root, cache, host)
  {
    r := syncValues;
    var rootID := root.localRootID.GetOr(0);
    var folderName := root.targetFolder.GetOr("");
    if rootID > 0 && host.objectExists(rootID) && !IsEmptyString(folderName) {
      var foundVars := GetRecursiveVariables(host.objectAt(rootID), []);
      assert foundVars == Found(root, host);
      r := AppendRecords(r, folderName, foundVars, cache, host);
    }
  }

  /** Models the inner `foreach ($foundVars as $vID)` loop: one row per found variable. */
  method AppendRecords(syncValues: seq<SyncRecord>, folderName: string, foundVars: seq<int>,
                       cache: map<string, Flags>, host: Host) returns (r: seq<SyncRecord>)
    ensures r == syncValues + RecordsFor(folderName, foundVars, cache, host)
  {
    r := syncValues;
    for j := 0 to |foundVars|
      invariant r == syncValues + RecordsFor(folderName, foundVars[..j], cache, host)
    {
      var vID := foundVars[j];
      RecordsForSnoc(folderName, foundVars, j, cache, host);
      r := r + [MakeRecord(folderName, vID, cache, host)];
    }
    assert foundVars[..|foundVars|] == foundVars;
  }
}
