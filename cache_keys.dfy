/**
 * The string key `Folder . '_' . ObjectID` under which the configuration form
 * caches the saved flags of one object, and the proof that it identifies the
 * (folder, object) pair: the decimal text of an integer has no '_', so the key
 * splits back uniquely at its last underscore.
 */
module CacheKeys {
  import opened Optional
  import opened Decimal

  function CacheKey(folder: string, objectID: int): string {
    folder + "_" + IntToString(objectID)
  }

  /** Position of the last occurrence of `c` in `s`. */
  function LastIndexOf(s: string, c: char): (r: Option<nat>)
    ensures r.Some? ==> r.value < |s| && s[r.value] == c
    ensures r.Some? ==> forall j :: r.value < j < |s| ==> s[j] != c
    ensures r.None? ==> forall j :: 0 <= j < |s| ==> s[j] != c
    decreases |s|
  {
    if s == [] then None
    else if s[|s| - 1] == c then Some(|s| - 1)
    else LastIndexOf(s[..|s| - 1], c)
  }

  /** Reads a cache key back as its folder and object ID. */
  function SplitKey(key: string): Option<(string, int)> {
    match LastIndexOf(key, '_')
    case None => None
    case Some(i) =>
      match ParseInt(key[i + 1..])
      case None => None
      case Some(id) => Some((key[..i], id))
  }

  lemma SplitCacheKey(folder: string, objectID: int)
    ensures SplitKey(CacheKey(folder, objectID)) == Some((folder, objectID))
  {
    var key := CacheKey(folder, objectID);
    var digits := IntToString(objectID);
    assert key[|folder|] == '_';
    assert key[..|folder|] == folder;
    assert key[|folder| + 1..] == digits;
    var r := LastIndexOf(key, '_');
    assert forall j :: |folder| < j < |key| ==> key[j] == digits[j - |folder| - 1];
    assert r == Some(|folder|);
    ParseIntToString(objectID);
  }

  /** Two rows share a cache key only if they name the same folder and object. */
  lemma CacheKeyInjective(folder1: string, id1: int, folder2: string, id2: int)
    requires CacheKey(folder1, id1) == CacheKey(folder2, id2)
    ensures folder1 == folder2 && id1 == id2
  {
    SplitCacheKey(folder1, id1);
    SplitCacheKey(folder2, id2);
  }
}
