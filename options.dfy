/**
 * The two dropdown option lists of the configuration form: the secret keys
 * offered for a target's RemoteKey column, and the folder names offered for a
 * root's TargetFolder column.
 */
module DropdownOptions {
  import opened Optional
  import opened PhpValues
  import opened SymconHost
  import opened Concat

  /** One dropdown entry, `["caption" => …, "value" => …]`. */
  datatype Choice = Choice(caption: string, value: string)

  /** The entry every key list starts with. */
  const Sentinel := Choice("Please select...", "")

  /** A row of the Targets property; `name` is None when `Name` is missing or null. */
  datatype Target = Target(name: Option<string>)

  // ---------------------------------------------------------------- keys

  /** The secrets-manager instance is usable and reported a key array. */
  predicate KeysAvailable(secID: int, host: Host) {
    secID > 0 && host.instanceExists(secID) && host.secretKeys(secID).Some?
  }

  function KeyRow(k: Json): seq<Choice> {
    [Choice(ToPhpString(k), ToPhpString(k))]
  }

  /** One entry per key, caption and value both the key cast to a string. */
  function KeyChoices(keys: seq<Json>): seq<Choice> {
    FlatMap(keys, KeyRow)
  }

  /** The RemoteKey options: the sentinel, then the keys when they could be fetched. */
  function KeyOptions(secID: int, host: Host): seq<Choice> {
    [Sentinel] + (if KeysAvailable(secID, host) then KeyChoices(host.secretKeys(secID).value) else [])
  }

  method BuildKeyOptions(secID: int, host: Host) returns (serverOptions: seq<Choice>)
    ensures serverOptions == KeyOptions(secID, host)
  {
    serverOptions := [Sentinel];
    if secID > 0 && host.instanceExists(secID) {
      var keys := host.secretKeys(secID);
      if keys.Some? {
        for i := 0 to |keys.value|
          invariant serverOptions == [Sentinel] + KeyChoices(keys.value[..i])
        {
          FlatMapSnoc(keys.value, i, KeyRow);
          var k := keys.value[i];
          serverOptions := serverOptions + [Choice(ToPhpString(k), ToPhpString(k))];
        }
        assert keys.value[..|keys.value|] == keys.value;
      }
    }
  }

  lemma {:induction false} KeyChoicesAt(keys: seq<Json>)
    ensures |KeyChoices(keys)| == |keys|
    ensures forall k :: 0 <= k < |keys| ==>
              KeyChoices(keys)[k] == Choice(ToPhpString(keys[k]), ToPhpString(keys[k]))
    decreases |keys|
  {
    if keys != [] {
      var front := keys[..|keys| - 1];
      KeyChoicesAt(front);
      assert KeyChoices(keys) == KeyChoices(front) + KeyRow(keys[|keys| - 1]);
      forall k | 0 <= k < |keys| - 1
        ensures KeyChoices(keys)[k] == Choice(ToPhpString(keys[k]), ToPhpString(keys[k]))
      {
        assert front[k] == keys[k];
      }
    }
  }

  /**
   * The sentinel comes first; after it, entry k+1 carries key k in both its
   * caption and its value, and there are keys only when they were available.
   */
  lemma KeyOptionsShape(secID: int, host: Host)
    ensures |KeyOptions(secID, host)| >= 1 && KeyOptions(secID, host)[0] == Sentinel
    ensures !KeysAvailable(secID, host) ==> KeyOptions(secID, host) == [Sentinel]
    ensures KeysAvailable(secID, host) ==>
              var keys := host.secretKeys(secID).value;
              |KeyOptions(secID, host)| == |keys| + 1 &&
              forall k :: 0 <= k < |keys| ==>
                KeyOptions(secID, host)[k + 1] == Choice(ToPhpString(keys[k]), ToPhpString(keys[k]))
  {
    if KeysAvailable(secID, host) {
      KeyChoicesAt(host.secretKeys(secID).value);
    }
  }

  /** Only the sentinel is offered exactly when no keys could be fetched or none exist. */
  lemma KeyOptionsSentinelOnly(secID: int, host: Host)
    ensures KeyOptions(secID, host) == [Sentinel] <==>
              !KeysAvailable(secID, host) || host.secretKeys(secID).value == []
  {
    KeyOptionsShape(secID, host);
  }

  // ------------------------------------------------------------- folders

  /** `!empty($t['Name'])`: a name that is present and neither "" nor "0". */
  predicate Named(t: Target) {
    t.name.Some? && !IsEmptyString(t.name.value)
  }

  function FolderRow(t: Target): seq<Choice> {
    if Named(t) then [Choice(t.name.value, t.name.value)] else []
  }

  /** The TargetFolder options: one entry per named target, in targets order. */
  function FolderOptions(targets: seq<Target>): seq<Choice> {
    FlatMap(targets, FolderRow)
  }

  method BuildFolderOptions(targets: seq<Target>) returns (folderOptions: seq<Choice>)
    ensures folderOptions == FolderOptions(targets)
  {
    folderOptions := [];
    for i := 0 to |targets|
      invariant folderOptions == FolderOptions(targets[..i])
    {
      FlatMapSnoc(targets, i, FolderRow);
      var t := targets[i];
      if t.name.Some? && !IsEmptyString(t.name.value) {
        folderOptions := folderOptions + [Choice(t.name.value, t.name.value)];
      }
    }
    assert targets[..|targets|] == targets;
  }

  /** An entry is offered exactly when some target is named by it, caption and value alike. */
  lemma FolderOptionsMembers(targets: seq<Target>, c: Choice)
    ensures c in FolderOptions(targets) <==>
              exists i :: 0 <= i < |targets| && Named(targets[i]) && c == Choice(targets[i].name.value, targets[i].name.value)
  {
    FlatMapIn(targets, FolderRow, c);
    if c in FolderOptions(targets) {
      var i :| 0 <= i < |targets| && c in FolderRow(targets[i]);
      assert Named(targets[i]);
    }
  }

  /** Options of consecutive target lists are concatenated, so target order is kept. */
  lemma FolderOptionsAppend(a: seq<Target>, b: seq<Target>)
    ensures FolderOptions(a + b) == FolderOptions(a) + FolderOptions(b)
  {
    FlatMapAppend(a, b, FolderRow);
  }

  /** No folder is offered exactly when no target carries a non-empty name. */
  lemma FolderOptionsNone(targets: seq<Target>)
    ensures FolderOptions(targets) == [] <==> forall i :: 0 <= i < |targets| ==> !Named(targets[i])
  {
    var opts := FolderOptions(targets);
    if opts != [] {
      FolderOptionsMembers(targets, opts[0]);
    }
    if exists i :: 0 <= i < |targets| && Named(targets[i]) {
      var i :| 0 <= i < |targets| && Named(targets[i]);
      FolderOptionsMembers(targets, Choice(targets[i].name.value, targets[i].name.value));
    }
  }

  /** "0", "" and a missing name are all dropped, while "00" passes through. */
  lemma EmptyNamesDropped()
    ensures FolderOptions([Target(Some("0")), Target(Some("")), Target(None), Target(Some("00"))]) == [Choice("00", "00")]
  {
    var ts := [Target(Some("0")), Target(Some("")), Target(None), Target(Some("00"))];
    FlatMapSnoc(ts, 0, FolderRow);
    assert FolderOptions(ts[..1]) == [];
    FlatMapSnoc(ts, 1, FolderRow);
    assert FolderOptions(ts[..2]) == [];
    FlatMapSnoc(ts, 2, FolderRow);
    assert FolderOptions(ts[..3]) == [];
    FlatMapSnoc(ts, 3, FolderRow);
    assert ts[..4] == ts;
  }
}
