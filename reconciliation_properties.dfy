/**
 * What the rebuilt SyncList promises: roots order then discovery order, one
 * row per found variable of a valid root and no other, saved flags carried
 * over by (folder, object), and a fixed point once the list is saved back.
 */
module ReconciliationProperties {
  import opened Optional
  import opened Hierarchy
  import opened SymconHost
  import opened Reconciliation
  import opened Concat

  /** (folder, objectID) is found below some valid root bound to `folder`. */
  ghost predicate Discovered(roots: seq<Root>, host: Host, folder: string, objectID: int) {
    exists i :: 0 <= i < |roots| && IsValidRoot(roots[i], host) && RootFolder(roots[i]) == folder
      && objectID in Found(roots[i], host)
  }

  /** Number of variables found below the valid roots. */
  function TotalFound(roots: seq<Root>, host: Host): nat
    decreases |roots|
  {
    if roots == [] then 0
    else
      var last := roots[|roots| - 1];
      TotalFound(roots[..|roots| - 1], host) + (if IsValidRoot(last, host) then |Found(last, host)| else 0)
  }

  /** Rows of consecutive root lists are concatenated: the output follows roots order. */
  lemma ReconcileAppend(a: seq<Root>, b: seq<Root>, cache: map<string, Flags>, host: Host)
    ensures Reconcile(a + b, cache, host) == Reconcile(a, cache, host) + Reconcile(b, cache, host)
  {
    FlatMapAppend(a, b, RowsOf(cache, host));
  }

  lemma ReconcileLast(roots: seq<Root>, cache: map<string, Flags>, host: Host)
    requires roots != []
    ensures Reconcile(roots, cache, host)
              == Reconcile(roots[..|roots| - 1], cache, host) + RootRecords(roots[|roots| - 1], cache, host)
  {
  }

  lemma ReconcileSingle(root: Root, cache: map<string, Flags>, host: Host)
    ensures Reconcile([root], cache, host) == RootRecords(root, cache, host)
  {
    ReconcileLast([root], cache, host);
    assert [root][..0] == [];
  }

  /** A root that fails the guard contributes nothing, wherever it stands. */
  lemma InvalidRootIgnored(a: seq<Root>, root: Root, b: seq<Root>, cache: map<string, Flags>, host: Host)
    requires !IsValidRoot(root, host)
    ensures Reconcile(a + [root] + b, cache, host) == Reconcile(a + b, cache, host)
  {
    ReconcileAppend(a + [root], b, cache, host);
    ReconcileAppend(a, [root], cache, host);
    ReconcileAppend(a, b, cache, host);
    ReconcileSingle(root, cache, host);
  }

  /** One row per variable found below each valid root. */
  lemma {:induction false} ReconcileLength(roots: seq<Root>, cache: map<string, Flags>, host: Host)
    ensures |Reconcile(roots, cache, host)| == TotalFound(roots, host)
    decreases |roots|
  {
    if roots != [] {
      ReconcileLength(roots[..|roots| - 1], cache, host);
      ReconcileLast(roots, cache, host);
    }
  }

  /**
   * The row for the `j`-th variable found below root `i` sits right after the
   * rows of all earlier roots: roots order, then discovery order.
   */
  lemma ReconcileAt(roots: seq<Root>, cache: map<string, Flags>, host: Host, i: nat, j: nat)
    requires i < |roots| && IsValidRoot(roots[i], host) && j < |Found(roots[i], host)|
    ensures TotalFound(roots[..i], host) + j < |Reconcile(roots, cache, host)|
    ensures Reconcile(roots, cache, host)[TotalFound(roots[..i], host) + j]
              == MakeRecord(RootFolder(roots[i]), Found(roots[i], host)[j], cache, host)
  {
    var pre, root, rest := roots[..i], roots[i], roots[i + 1..];
    var mine := RootRecords(root, cache, host);
    assert roots == pre + [root] + rest;
    ReconcileAppend(pre + [root], rest, cache, host);
    ReconcileAppend(pre, [root], cache, host);
    ReconcileSingle(root, cache, host);
    ReconcileLength(pre, cache, host);
    var before := Reconcile(pre, cache, host);
    assert Reconcile(roots, cache, host) == before + mine + Reconcile(rest, cache, host);
    assert |before| == TotalFound(pre, host);
    assert mine[j] == MakeRecord(RootFolder(root), Found(root, host)[j], cache, host);
  }

  lemma RecordsForMembers(folder: string, ids: seq<int>, cache: map<string, Flags>, host: Host, rec: SyncRecord)
    ensures rec in RecordsFor(folder, ids, cache, host) <==>
              rec.folder == folder && rec.objectID in ids && rec == MakeRecord(folder, rec.objectID, cache, host)
  {
    var rs := RecordsFor(folder, ids, cache, host);
    if rec in rs {
      var k :| 0 <= k < |rs| && rs[k] == rec;
      assert rec.objectID == ids[k];
    }
    if rec.folder == folder && rec.objectID in ids && rec == MakeRecord(folder, rec.objectID, cache, host) {
      var k :| 0 <= k < |ids| && ids[k] == rec.objectID;
      assert rs[k] == rec;
    }
  }

  lemma DiscoveredSnoc(roots: seq<Root>, host: Host, folder: string, objectID: int)
    requires roots != []
    ensures Discovered(roots, host, folder, objectID) <==>
      || Discovered(roots[..|roots| - 1], host, folder, objectID)
      || (var last := roots[|roots| - 1];
          IsValidRoot(last, host) && RootFolder(last) == folder && objectID in Found(last, host))
  {
    var n := |roots| - 1;
    var prefix := roots[..n];
    if Discovered(roots, host, folder, objectID) {
      var i :| 0 <= i < |roots| && IsValidRoot(roots[i], host) && RootFolder(roots[i]) == folder
        && objectID in Found(roots[i], host);
      if i < n {
        assert prefix[i] == roots[i];
      }
    }
    if Discovered(prefix, host, folder, objectID) {
      var i :| 0 <= i < |prefix| && IsValidRoot(prefix[i], host) && RootFolder(prefix[i]) == folder
        && objectID in Found(prefix[i], host);
      assert roots[i] == prefix[i];
    }
  }

  /**
   * A row is in the SyncList exactly when its (folder, object) is discovered
   * and the row carries that object's live name and cached-or-false flags.
   * So saved rows whose objects are not rediscovered do not reappear.
   */
  lemma {:induction false} ReconcileMembers(roots: seq<Root>, cache: map<string, Flags>, host: Host, rec: SyncRecord)
    ensures rec in Reconcile(roots, cache, host) <==>
              Discovered(roots, host, rec.folder, rec.objectID) && rec == MakeRecord(rec.folder, rec.objectID, cache, host)
    decreases |roots|
  {
    if roots != [] {
      var prefix, last := roots[..|roots| - 1], roots[|roots| - 1];
      ReconcileLast(roots, cache, host);
      ReconcileMembers(prefix, cache, host, rec);
      DiscoveredSnoc(roots, host, rec.folder, rec.objectID);
      if IsValidRoot(last, host) {
        RecordsForMembers(RootFolder(last), Found(last, host), cache, host, rec);
      }
    }
  }

  /** A saved (folder, object) pair that is not rediscovered yields no row. */
  lemma UndiscoveredDropped(roots: seq<Root>, cache: map<string, Flags>, host: Host, folder: string, objectID: int)
    requires !Discovered(roots, host, folder, objectID)
    ensures forall rec :: rec in Reconcile(roots, cache, host) ==> rec.folder != folder || rec.objectID != objectID
  {
    forall rec | rec in Reconcile(roots, cache, host)
      ensures rec.folder != folder || rec.objectID != objectID
    {
      ReconcileMembers(roots, cache, host, rec);
    }
  }

  /**
   * Each row's name is the live name, and its flags are those of the last
   * saved row for the same folder and object, or all false if there is none.
   */
  lemma FlagsPreserved(saved: seq<SavedRow>, roots: seq<Root>, host: Host, rec: SyncRecord)
    requires rec in Reconcile(roots, StateCache(saved), host)
    ensures rec.name == host.nameOf(rec.objectID)
    ensures (forall i :: 0 <= i < |saved| ==> !Matches(saved[i], rec.folder, rec.objectID))
              ==> !rec.active && !rec.action && !rec.delete
    ensures forall i :: IsLastMatch(saved, rec.folder, rec.objectID, i)
              ==> Flags(rec.active, rec.action, rec.delete) == RowFlags(saved[i])
  {
    ReconcileMembers(roots, StateCache(saved), host, rec);
    StateCacheHas(saved, rec.folder, rec.objectID);
    forall i | IsLastMatch(saved, rec.folder, rec.objectID, i)
      ensures Flags(rec.active, rec.action, rec.delete) == RowFlags(saved[i])
    {
      StateCacheLookup(saved, rec.folder, rec.objectID, i);
    }
  }

  /** The output depends on the cache only at the discovered pairs. */
  lemma {:induction false} ReconcileCongruent(roots: seq<Root>, c1: map<string, Flags>, c2: map<string, Flags>, host: Host)
    requires forall f, id :: Discovered(roots, host, f, id) ==> FlagsFor(c1, f, id) == FlagsFor(c2, f, id)
    ensures Reconcile(roots, c1, host) == Reconcile(roots, c2, host)
    decreases |roots|
  {
    if roots != [] {
      var prefix, last := roots[..|roots| - 1], roots[|roots| - 1];
      forall f, id | Discovered(prefix, host, f, id)
        ensures FlagsFor(c1, f, id) == FlagsFor(c2, f, id)
      {
        DiscoveredSnoc(roots, host, f, id);
      }
      ReconcileCongruent(prefix, c1, c2, host);
      ReconcileLast(roots, c1, host);
      ReconcileLast(roots, c2, host);
      if IsValidRoot(last, host) {
        var folder, ids := RootFolder(last), Found(last, host);
        forall k | 0 <= k < |ids|
          ensures MakeRecord(folder, ids[k], c1, host) == MakeRecord(folder, ids[k], c2, host)
        {
          DiscoveredSnoc(roots, host, folder, ids[k]);
        }
        assert RecordsFor(folder, ids, c1, host) == RecordsFor(folder, ids, c2, host);
      }
    }
  }

  /** The SyncList rows as they read back once the form has saved them. */
  function SavedRowOf(rec: SyncRecord): SavedRow {
    SavedRow(Some(rec.folder), Some(rec.objectID), Some(rec.name), Some(rec.active), Some(rec.action), Some(rec.delete))
  }

  function AsSaved(records: seq<SyncRecord>): seq<SavedRow> {
    seq(|records|, k requires 0 <= k < |records| => SavedRowOf(records[k]))
  }

  /**
   * Saving the rebuilt SyncList and rebuilding it again with the same roots
   * and hierarchy gives the same list: no flag is lost or changed.
   */
  lemma ReconcileReload(saved: seq<SavedRow>, roots: seq<Root>, host: Host)
    ensures var out := Reconcile(roots, StateCache(saved), host);
            Reconcile(roots, StateCache(AsSaved(out)), host) == out
  {
    var c1 := StateCache(saved);
    var out := Reconcile(roots, c1, host);
    var rows := AsSaved(out);
    var c2 := StateCache(rows);
    forall f, id | Discovered(roots, host, f, id)
      ensures FlagsFor(c1, f, id) == FlagsFor(c2, f, id)
    {
      var rec := MakeRecord(f, id, c1, host);
      ReconcileMembers(roots, c1, host, rec);
      var k :| 0 <= k < |out| && out[k] == rec;
      assert Matches(rows[k], f, id);
      var flags := FlagsFor(c1, f, id);
      forall i | 0 <= i < |rows| && Matches(rows[i], f, id)
        ensures RowFlags(rows[i]) == flags
      {
        ReconcileMembers(roots, c1, host, out[i]);
      }
      StateCacheUniform(rows, f, id, flags);
    }
    ReconcileCongruent(roots, c1, c2, host);
  }
}
