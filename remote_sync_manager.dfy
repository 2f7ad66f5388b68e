/**
 * RemoteSyncManager's configuration form: the stored properties and the host
 * state go in, form.json comes out with its three dynamic parts filled in.
 */
module RemoteSyncManager {
  import opened Optional
  import opened SymconHost
  import opened DropdownOptions
  import opened Reconciliation
  import opened ReconciliationProperties
  import opened FormInjection

  /** The four instance properties, as decoded from their stored JSON. */
  datatype Properties = Properties(
    localPasswordModuleID: int,
    targets: seq<Target>,
    roots: seq<Root>,
    syncList: seq<SavedRow>
  )

  /** The SyncList the form shows: the roots' variables with their saved flags. */
  function SyncListOf(props: Properties, host: Host): seq<SyncRecord> {
    Reconcile(props.roots, StateCache(props.syncList), host)
  }

  /** The form GetConfigurationForm returns, before JSON encoding. */
  function ConfigurationFormOf(form: Form, props: Properties, host: Host): Form {
    var serverOptions := KeyOptions(props.localPasswordModuleID, host);
    var folderOptions := FolderOptions(props.targets);
    form.(elements := InjectSyncValues(InjectOptions(form.elements, serverOptions, folderOptions), SyncListOf(props, host)))
  }

  method GetConfigurationForm(form: Form, props: Properties, host: Host) returns (out: Form)
    ensures out == ConfigurationFormOf(form, props, host)
  {
    var secID := props.localPasswordModuleID;
    var serverOptions := BuildKeyOptions(secID, host);
    var folderOptions := BuildFolderOptions(props.targets);
    var elements := FillOptions(form.elements, serverOptions, folderOptions);
    var stateCache := BuildStateCache(props.syncList);
    var syncValues := BuildSyncValues(props.roots, stateCache, host);
    elements := FillSyncList(elements, syncValues);
    out := form.(elements := elements);
  }

  /**
   * Only three things change: the RemoteKey options of the Targets list, the
   * TargetFolder options of the Roots list and the values of the SyncList.
   * Every other element, key and column is passed through.
   */
  lemma ConfigurationFormChanges(form: Form, props: Properties, host: Host)
    ensures var out := ConfigurationFormOf(form, props, host);
            out.rest == form.rest && |out.elements| == |form.elements|
    ensures var out := ConfigurationFormOf(form, props, host);
            forall k :: 0 <= k < |form.elements| ==>
              out.elements[k].name == form.elements[k].name && out.elements[k].rest == form.elements[k].rest
    ensures var out := ConfigurationFormOf(form, props, host);
            forall k :: 0 <= k < |form.elements| && form.elements[k].name !in {Some("Targets"), Some("Roots"), Some("SyncList")} ==>
              out.elements[k] == form.elements[k]
    ensures var out := ConfigurationFormOf(form, props, host);
            forall k :: 0 <= k < |form.elements| && form.elements[k].name == Some("Targets") && form.elements[k].columns.Some? ==>
              out.elements[k].columns
                == Some(FillColumns(form.elements[k].columns.value, "RemoteKey", KeyOptions(props.localPasswordModuleID, host)))
    ensures var out := ConfigurationFormOf(form, props, host);
            forall k :: 0 <= k < |form.elements| && form.elements[k].name == Some("Roots") && form.elements[k].columns.Some? ==>
              out.elements[k].columns == Some(FillColumns(form.elements[k].columns.value, "TargetFolder", FolderOptions(props.targets)))
    ensures var out := ConfigurationFormOf(form, props, host);
            forall k :: 0 <= k < |form.elements| && form.elements[k].name == Some("SyncList") ==>
              out.elements[k].values == Some(Injected(SyncListOf(props, host))) && out.elements[k].columns == form.elements[k].columns
    ensures var out := ConfigurationFormOf(form, props, host);
            forall k :: 0 <= k < |form.elements| && form.elements[k].name != Some("SyncList") ==>
              out.elements[k].values == form.elements[k].values
  {
  }

  /** Feeding the generated form back in with the same properties and host changes nothing. */
  lemma ConfigurationFormIdempotent(form: Form, props: Properties, host: Host)
    ensures ConfigurationFormOf(ConfigurationFormOf(form, props, host), props, host) == ConfigurationFormOf(form, props, host)
  {
    var so, fo := KeyOptions(props.localPasswordModuleID, host), FolderOptions(props.targets);
    var sync := SyncListOf(props, host);
    var once := InjectOptions(form.elements, so, fo);
    InjectionsCommute(once, so, fo, sync);
    InjectOptionsIdempotent(form.elements, so, fo);
    InjectSyncValuesOverwrite(once, sync, sync);
  }

  /**
   * Saving the SyncList the form showed and opening the form again, with the
   * roots and the hierarchy unchanged, shows the same form.
   */
  lemma ConfigurationFormReload(form: Form, props: Properties, host: Host)
    ensures var saved := props.(syncList := AsSaved(SyncListOf(props, host)));
            ConfigurationFormOf(form, saved, host) == ConfigurationFormOf(form, props, host)
  {
    ReconcileReload(props.syncList, props.roots, host);
  }
}
