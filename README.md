# RemoteSyncManager configuration form — a Dafny model

RemoteSyncManager is a Symcon module. Its `GetConfigurationForm` builds the
settings form from four things:

- the module's stored properties (`LocalPasswordModuleID`, `Targets`,
  `Roots`, `SyncList`);
- the keys of the secrets-manager instance named by `LocalPasswordModuleID`
  (`IPS_InstanceExists` and `SEC_GetKeys`);
- the host's object tree;
- the static `form.json`.

It does three jobs:

- It prepares two dropdowns. One lists the keys of a secrets-manager instance,
  always led by a "Please select..." entry. The other lists the folder names of
  the targets whose name is not empty under PHP `empty()`.
- It rebuilds the SyncList. Each valid root has its variables collected
  recursively by `GetRecursiveVariables`. Each found variable becomes one row,
  which carries the object's live name. The row's Active/Action/Delete flags
  come from the saved row with the same `Folder_ObjectID` key, or are false.
- It writes the two option lists and the SyncList into `form.json`. Nothing
  else in the form changes.

The model follows the code's own shape:

- Each loop is a Dafny method with a loop. Each method is proved equal to a
  specification function: `BuildKeyOptions`, `BuildFolderOptions`,
  `BuildStateCache`, `BuildSyncValues`, `InjectColumnOptions`, `FillOptions`,
  `FillSyncList` and `GetRecursiveVariables`.
- The by-reference `foreach (&$element)` and `foreach (&$col)` loops update a
  sequence in place at the current index.
- The by-reference accumulator of `GetRecursiveVariables` is passed in and
  handed back.
- Lemmas prove about the specification functions what the code promises.

How the inputs are represented:

- **Host calls.** `IPS_InstanceExists`, `SEC_GetKeys` + `json_decode`,
  `IPS_ObjectExists`, `IPS_GetObject`/`IPS_GetChildrenIDs` and `IPS_GetName`
  are the fields of a `Host` value passed in as a parameter. The object tree is
  a finite `Obj` datatype.
- **Decoded JSON.** A key that is missing or `null` is `None` of an `Option`
  field. PHP `??` becomes `GetOr`, and `isset` becomes `Some?`.
- **Cache keys.** The key `Folder . '_' . ObjectID` is built from the decimal
  text of the integer ID. It is proved injective: the decimal text has no `_`,
  so the key splits back at its last underscore and the digits parse back to
  the ID. A key always contains `_`, so PHP never turns it into an integer
  array key.

Two facts about the SyncList:

- It is one flat list in roots order, not grouped per folder.
- Roots are not filtered by the Targets table.

The module has no draft cache, edit handlers or commit.

Modules:

- `Optional`
- `Concat`: ordered concatenation of per-element results.
- `Decimal`: PHP's integer-to-string conversion and its parse-back.
- `PhpValues`: `empty()` on strings and the `(string)` cast.
- `CacheKeys`
- `Hierarchy`: the tree walk.
- `SymconHost`
- `Reconciliation`: the state cache and the SyncList loop.
- `ReconciliationProperties`
- `DropdownOptions`
- `FormInjection`
- `RemoteSyncManager`: the whole `GetConfigurationForm`.

## Model

| member | source | states |
|---|---|---|
| Decimal.IntToString | RemoteSyncManager/module.php:76 | the decimal text of an integer is non-empty, contains no `_`, starts with `-` exactly for negative numbers, and has no leading zero (so never "007" or "-0") |
| Decimal.ParseIntToString | RemoteSyncManager/module.php:76 | the decimal text of every integer parses back to that integer |
| Decimal.IntToStringInjective | RemoteSyncManager/module.php:94 | distinct integers have distinct decimal texts |
| PhpValues.ToPhpString | RemoteSyncManager/module.php:40 | `(string)` keeps a string; gives an integer its canonical decimal text (no leading zero, no "-0"), which parses back to it; turns null and false into "", true into "1" and an array into "Array" |
| CacheKeys.SplitCacheKey | RemoteSyncManager/module.php:76 | splitting a cache key at its last underscore gives back exactly the folder and object ID it was built from, for any folder, including one that contains `_` |
| CacheKeys.CacheKeyInjective | RemoteSyncManager/module.php:94 | two (folder, ID) pairs share a cache key only if they are equal |
| Hierarchy.GetRecursiveVariables | RemoteSyncManager/module.php:117-124 | the accumulator comes back as its old contents, unchanged, followed by everything the walk of the start object collects |
| Hierarchy.CollectedPrefix | RemoteSyncManager/module.php:118-122 | what the walk has collected after m children is a prefix of what it has after n ≥ m children |
| Hierarchy.CollectedSound | RemoteSyncManager/module.php:119-121 | every collected ID belongs to a variable reached by a path of child links that descends only through HasChildren nodes |
| Hierarchy.CollectedComplete | RemoteSyncManager/module.php:119-121 | every variable at the end of such a path has its ID collected |
| Hierarchy.WalkPathBelow | RemoteSyncManager/module.php:121 | every node on such a path lies strictly below the start, so it is never the start itself |
| Hierarchy.VariablesReachable | RemoteSyncManager/module.php:117-124 | an ID is collected if and only if some HasChildren-only path from the start reaches a variable (ObjectType 2) with that ID; no such path ends at the start |
| Hierarchy.VariablesBlock | RemoteSyncManager/module.php:117-124 | pre-order: the earlier siblings' IDs, then child k's own ID, then its descendants' IDs form a prefix of the walk's output |
| Reconciliation.RowFlags | RemoteSyncManager/module.php:78-80 | a saved flag counts as set only when it is present and true; missing or null reads as false |
| Reconciliation.BuildStateCache | RemoteSyncManager/module.php:72-83 | the loop over the saved rows yields the state-cache map defined row by row, with later rows overriding earlier ones |
| Reconciliation.StoresKeyMatches | RemoteSyncManager/module.php:75-76 | a saved row stores the key of (folder, ID) exactly when it is complete and names that folder and ID |
| Reconciliation.StateCacheKeysSound | RemoteSyncManager/module.php:74-76 | every cache entry comes from a saved row that has both Folder and ObjectID |
| Reconciliation.StateCacheKeysComplete | RemoteSyncManager/module.php:74-76 | every saved row with both Folder and ObjectID leaves an entry under its key |
| Reconciliation.StateCacheKeys | RemoteSyncManager/module.php:74-77 | the cache's keys are exactly the keys of the complete saved rows |
| Reconciliation.StateCacheHas | RemoteSyncManager/module.php:74-77 | the key of (folder, ID) is cached if and only if some saved row names that folder and ID |
| Reconciliation.StateCacheLookup | RemoteSyncManager/module.php:74-83 | the flags cached for (folder, ID) are those of the last saved row naming that pair: the last duplicate wins |
| Reconciliation.StateCacheUniform | RemoteSyncManager/module.php:74-83 | if all saved rows naming a pair carry the same flags, those flags are cached for it |
| Reconciliation.LastMatch | RemoteSyncManager/module.php:74-83 | among the rows naming a pair there is a last one, at or after any given one |
| Reconciliation.RecordsFor | RemoteSyncManager/module.php:92-102 | one row per found ID, in order, each with that ID's live name and its cached-or-false flags |
| Reconciliation.BuildSyncValues | RemoteSyncManager/module.php:85-105 | the loop over the roots yields the rows of each root, concatenated in roots order |
| Reconciliation.AppendRootRecords | RemoteSyncManager/module.php:86-104 | one pass appends nothing for a root whose ID is not positive, whose object does not exist or whose folder is empty; otherwise it appends the rows for the variables the walk finds |
| Reconciliation.AppendRecords | RemoteSyncManager/module.php:92-102 | the inner loop appends one row per found variable, in discovery order |
| ReconciliationProperties.ReconcileAppend | RemoteSyncManager/module.php:85-105 | the rows for two consecutive root lists are the rows of the first followed by the rows of the second |
| ReconciliationProperties.InvalidRootIgnored | RemoteSyncManager/module.php:89 | inserting a root that fails the guard anywhere in the roots list leaves the SyncList unchanged |
| ReconciliationProperties.ReconcileLength | RemoteSyncManager/module.php:85-105 | the SyncList has as many rows as the valid roots have found variables in total |
| ReconciliationProperties.ReconcileAt | RemoteSyncManager/module.php:85-102 | the row for the j-th variable found below valid root i sits right after the rows of all earlier roots, and it carries that variable's ID, the root's folder, the live name and the cached-or-false flags |
| ReconciliationProperties.RecordsForMembers | RemoteSyncManager/module.php:92-102 | a row belongs to one root's rows exactly when its ID was found there and it carries that ID's name and flags |
| ReconciliationProperties.ReconcileMembers | RemoteSyncManager/module.php:85-105 | a row is in the SyncList if and only if its (folder, ID) is found below a valid root bound to that folder, and it carries the live name and the cached-or-false flags |
| ReconciliationProperties.UndiscoveredDropped | RemoteSyncManager/module.php:85-105 | a saved (folder, ID) pair that is not rediscovered has no row in the new SyncList |
| ReconciliationProperties.FlagsPreserved | RemoteSyncManager/module.php:72-102 | each row's name is the live name; its flags are those of the last saved row for the same folder and ID, or all false when no saved row names it |
| ReconciliationProperties.ReconcileCongruent | RemoteSyncManager/module.php:93-101 | two caches that agree on every discovered pair give the same SyncList |
| ReconciliationProperties.ReconcileReload | RemoteSyncManager/module.php:72-105 | saving the rebuilt SyncList and rebuilding it with the same roots and hierarchy gives the same list: no flag is lost or changed |
| DropdownOptions.BuildKeyOptions | RemoteSyncManager/module.php:33-43 | the loop yields the sentinel followed, when the instance is valid and the keys decoded to an array, by one entry per key |
| DropdownOptions.KeyChoicesAt | RemoteSyncManager/module.php:38-41 | one entry per key, in key order, with caption and value both the key cast to a string |
| DropdownOptions.KeyOptionsShape | RemoteSyncManager/module.php:33-43 | entry 0 is always "Please select..." with value ""; there is nothing else unless the ID is positive, the instance exists and the keys form an array; then entry k+1 is key k |
| DropdownOptions.KeyOptionsSentinelOnly | RemoteSyncManager/module.php:33-43 | only the sentinel is offered if and only if the keys are unavailable or empty |
| DropdownOptions.BuildFolderOptions | RemoteSyncManager/module.php:46-51 | the loop over the targets yields one entry per target whose name is present and neither "" nor "0" |
| DropdownOptions.FolderOptionsMembers | RemoteSyncManager/module.php:46-51 | an entry is offered if and only if some target has a non-empty name equal to both its caption and its value |
| DropdownOptions.FolderOptionsAppend | RemoteSyncManager/module.php:47-51 | the options of two consecutive target lists are concatenated, so target order is kept |
| DropdownOptions.FolderOptionsNone | RemoteSyncManager/module.php:46-51 | no folder is offered if and only if no target has a non-empty name |
| DropdownOptions.EmptyNamesDropped | RemoteSyncManager/module.php:48 | names "0" and "", and a missing name, are dropped while "00" is kept |
| FormInjection.FillColumns | RemoteSyncManager/module.php:57-60 | every column with the given name gets the options, keeping its other `edit` keys and creating `edit` when it is missing; every other column is unchanged |
| FormInjection.InjectColumnOptions | RemoteSyncManager/module.php:58-60 | the by-reference column loop leaves the columns as FillColumns describes |
| FormInjection.FillColumnsIdempotent | RemoteSyncManager/module.php:57-66 | injecting the same options twice gives the same columns as injecting them once |
| FormInjection.InjectOptions | RemoteSyncManager/module.php:54-69 | only the columns of the Targets list (RemoteKey) and the Roots list (TargetFolder) change; names, values and other keys of every element, and every other element, are unchanged |
| FormInjection.FillOptions | RemoteSyncManager/module.php:54-69 | the by-reference element loop, which skips unnamed elements, leaves the elements as InjectOptions describes |
| FormInjection.InjectOptionsIdempotent | RemoteSyncManager/module.php:54-69 | injecting the option lists a second time changes nothing |
| FormInjection.InjectSyncValues | RemoteSyncManager/module.php:108-112 | every SyncList element shows the rebuilt rows; every other element and every other key stays as it was |
| FormInjection.FillSyncList | RemoteSyncManager/module.php:108-112 | the second element loop leaves the elements as InjectSyncValues describes |
| FormInjection.InjectSyncValuesOverwrite | RemoteSyncManager/module.php:108-112 | writing the SyncList values again replaces the earlier write |
| FormInjection.InjectionsCommute | RemoteSyncManager/module.php:54-112 | the option injection and the SyncList injection touch disjoint elements, so their order does not matter |
| RemoteSyncManager.GetConfigurationForm | RemoteSyncManager/module.php:22-115 | the whole method yields the form with the key options, folder options and rebuilt SyncList injected |
| RemoteSyncManager.ConfigurationFormChanges | RemoteSyncManager/module.php:54-112 | only three things change: RemoteKey options in Targets, TargetFolder options in Roots, values of SyncList; every other element, column and key is passed through |
| RemoteSyncManager.ConfigurationFormIdempotent | RemoteSyncManager/module.php:22-115 | feeding the generated form back in with the same properties and host gives the same form |
| RemoteSyncManager.ConfigurationFormReload | RemoteSyncManager/module.php:72-112 | after saving the SyncList the form showed, with roots and hierarchy unchanged, the form is the same |

## Left out

- Reading `form.json`, and `json_decode`/`json_encode` of the form and the properties: I/O and JSON text are outside the model. The form and the four properties arrive already decoded.
- Invalid JSON in a property, which makes `json_decode` return null, is not modelled. So is a form without an `elements` list. In PHP both only warn inside `foreach`.
- The host calls `IPS_InstanceExists`, `@SEC_GetKeys`, `IPS_ObjectExists`, `IPS_GetChildrenIDs`, `IPS_GetObject` and `IPS_GetName` are parameters of type `Host` and are not modelled.
- Cyclic object graphs: the hierarchy is a finite tree, so the walk always ends. The PHP walk has no visited-set guard, and no claim is made about its behaviour on a cycle.
- Values of the wrong JSON type are not modelled: a non-string `Name`, `Folder` or `TargetFolder`, a non-integer `LocalRootID` or `ObjectID`, or a non-boolean flag. A non-string element or column name is modelled as absent, which gives the same result under `===`.
- `SEC_GetKeys` is taken to return a string. A reply that does not decode to an array is modelled as `None`, which leaves only the sentinel. A non-string reply (such as `false` or `null` from a failed call) makes `json_decode` throw a TypeError under `strict_types`, and an exception thrown by `SEC_GetKeys` itself passes through `@`. Either way PHP aborts the whole form; the model does not capture that path.
- Float keys in the `SEC_GetKeys` reply: `Json` has no floats, so their `(string)` form is not modelled.
- PHP integers are 64-bit; the model's IDs are unbounded integers.
- A by-reference `foreach` over a Targets or Roots element that has no `columns` key creates that key as null. The model leaves such an element unchanged.
- `Create`, `ApplyChanges`, `UpdateUI`/`ReloadForm` and the property registration and reading calls are framework lifecycle, not part of this model.
