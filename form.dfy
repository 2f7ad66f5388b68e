/**
 * The decoded form.json and the three places the configuration form writes
 * into it: the RemoteKey column options of the Targets list, the TargetFolder
 * column options of the Roots list, and the values of the SyncList list.
 */
module FormInjection {
  import opened Optional
  import opened PhpValues
  import opened DropdownOptions
  import opened Reconciliation

  /** A slot that holds either what form.json had or what the form generated. */
  datatype Slot<T> = Raw(json: Json) | Injected(v: T)

  /** A column's `edit` object; `rest` holds its keys other than `options`. */
  datatype Edit = Edit(options: Option<Slot<seq<Choice>>>, rest: map<string, Json>)

  /** A list column; `name` is None when missing or not a string. */
  datatype Column = Column(name: Option<string>, edit: Option<Edit>, rest: map<string, Json>)

  /** A form element; `name` is None when missing, null or not a string. */
  datatype Element = Element(
    name: Option<string>,
    columns: Option<seq<Column>>,
    values: Option<Slot<seq<SyncRecord>>>,
    rest: map<string, Json>
  )

  /** The decoded form: its `elements` list and its other top-level keys. */
  datatype Form = Form(elements: seq<Element>, rest: map<string, Json>)

  // ------------------------------------------------------------- columns

  /** `$col['edit']['options'] = $opts`, which creates `edit` when it is missing. */
  function WithOptions(col: Column, opts: seq<Choice>): Column {
    col.(edit := Some(Edit(Some(Injected(opts)), if col.edit.Some? then col.edit.value.rest else map[])))
  }

  function FillColumn(col: Column, target: string, opts: seq<Choice>): Column {
    if col.name == Some(target) then WithOptions(col, opts) else col
  }

  /** Every column named `target` offers `opts`; nothing else in the columns changes. */
  function FillColumns(cols: seq<Column>, target: string, opts: seq<Choice>): (r: seq<Column>)
    ensures |r| == |cols|
    ensures forall k :: 0 <= k < |cols| ==> r[k].name == cols[k].name && r[k].rest == cols[k].rest
    ensures forall k :: 0 <= k < |cols| && cols[k].name == Some(target) ==>
              r[k].edit.Some? && r[k].edit.value.options == Some(Injected(opts)) &&
              (cols[k].edit.Some? ==> r[k].edit.value.rest == cols[k].edit.value.rest) &&
              (cols[k].edit.None? ==> r[k].edit.value.rest == map[])
    ensures forall k :: 0 <= k < |cols| && cols[k].name != Some(target) ==> r[k] == cols[k]
  {
    seq(|cols|, k requires 0 <= k < |cols| => FillColumn(cols[k], target, opts))
  }

  /** The by-reference loop over the columns of one list. */
  method InjectColumnOptions(cols: seq<Column>, target: string, opts: seq<Choice>) returns (r: seq<Column>)
    ensures r == FillColumns(cols, target, opts)
  {
    r := cols;
    for i := 0 to |cols|
      invariant |r| == |cols|
      invariant forall k :: 0 <= k < i ==> r[k] == FillColumn(cols[k], target, opts)
      invariant forall k :: i <= k < |cols| ==> r[k] == cols[k]
    {
      if r[i].name == Some(target) {
        r := r[i := WithOptions(r[i], opts)];
      }
    }
  }

  /** Filling a second time with the same options changes nothing. */
  lemma FillColumnsIdempotent(cols: seq<Column>, target: string, opts: seq<Choice>)
    ensures FillColumns(FillColumns(cols, target, opts), target, opts) == FillColumns(cols, target, opts)
  {
    var once := FillColumns(cols, target, opts);
    var twice := FillColumns(once, target, opts);
    forall k | 0 <= k < |cols|
      ensures twice[k] == once[k]
    {
      if cols[k].name == Some(target) {
        assert once[k].edit.Some?;
      }
    }
  }

  // ------------------------------------------------------------ elements

  /** The option injection for one element: the Targets and Roots lists get their dropdowns. */
  function InjectElement(e: Element, serverOptions: seq<Choice>, folderOptions: seq<Choice>): Element {
    if e.name == Some("Targets") && e.columns.Some? then
      e.(columns := Some(FillColumns(e.columns.value, "RemoteKey", serverOptions)))
    else if e.name == Some("Roots") && e.columns.Some? then
      e.(columns := Some(FillColumns(e.columns.value, "TargetFolder", folderOptions)))
    else e
  }

  /**
   * The option injection over the form: only the columns of the Targets and Roots lists
   * change, and only as FillColumns says; every other element is unchanged.
   */
  function InjectOptions(elements: seq<Element>, serverOptions: seq<Choice>, folderOptions: seq<Choice>): (r: seq<Element>)
    ensures |r| == |elements|
    ensures forall k :: 0 <= k < |elements| ==>
              r[k].name == elements[k].name && r[k].values == elements[k].values &&
              r[k].rest == elements[k].rest && r[k].columns.Some? == elements[k].columns.Some?
    ensures forall k :: 0 <= k < |elements| && elements[k].name == Some("Targets") && elements[k].columns.Some? ==>
              r[k].columns == Some(FillColumns(elements[k].columns.value, "RemoteKey", serverOptions))
    ensures forall k :: 0 <= k < |elements| && elements[k].name == Some("Roots") && elements[k].columns.Some? ==>
              r[k].columns == Some(FillColumns(elements[k].columns.value, "TargetFolder", folderOptions))
    ensures forall k :: 0 <= k < |elements| && elements[k].name != Some("Targets") && elements[k].name != Some("Roots") ==>
              r[k] == elements[k]
  {
    seq(|elements|, k requires 0 <= k < |elements| => InjectElement(elements[k], serverOptions, folderOptions))
  }

  /** The first by-reference loop over the form's elements. */
  method FillOptions(elements: seq<Element>, serverOptions: seq<Choice>, folderOptions: seq<Choice>) returns (r: seq<Element>)
    ensures r == InjectOptions(elements, serverOptions, folderOptions)
  {
    r := elements;
    for i := 0 to |elements|
      invariant |r| == |elements|
      invariant forall k :: 0 <= k < i ==> r[k] == InjectElement(elements[k], serverOptions, folderOptions)
      invariant forall k :: i <= k < |elements| ==> r[k] == elements[k]
    {
      var element := r[i];
      if element.name.None? {
        continue;
      }
      if element.name == Some("Targets") && element.columns.Some? {
        var cols := InjectColumnOptions(element.columns.value, "RemoteKey", serverOptions);
        element := element.(columns := Some(cols));
      }
      if element.name == Some("Roots") && element.columns.Some? {
        var cols := InjectColumnOptions(element.columns.value, "TargetFolder", folderOptions);
        element := element.(columns := Some(cols));
      }
      r := r[i := element];
    }
  }

  lemma InjectOptionsIdempotent(elements: seq<Element>, serverOptions: seq<Choice>, folderOptions: seq<Choice>)
    ensures InjectOptions(InjectOptions(elements, serverOptions, folderOptions), serverOptions, folderOptions)
              == InjectOptions(elements, serverOptions, folderOptions)
  {
    var once := InjectOptions(elements, serverOptions, folderOptions);
    var twice := InjectOptions(once, serverOptions, folderOptions);
    forall k | 0 <= k < |elements|
      ensures twice[k] == once[k]
    {
      var e := elements[k];
      if e.name == Some("Targets") && e.columns.Some? {
        FillColumnsIdempotent(e.columns.value, "RemoteKey", serverOptions);
      } else if e.name == Some("Roots") && e.columns.Some? {
        FillColumnsIdempotent(e.columns.value, "TargetFolder", folderOptions);
      }
    }
  }

  // ------------------------------------------------------------ SyncList

  function InjectSyncElement(e: Element, syncValues: seq<SyncRecord>): Element {
    if e.name == Some("SyncList") then e.(values := Some(Injected(syncValues))) else e
  }

  /** The SyncList injection: every SyncList element shows `syncValues`; nothing else changes. */
  function InjectSyncValues(elements: seq<Element>, syncValues: seq<SyncRecord>): (r: seq<Element>)
    ensures |r| == |elements|
    ensures forall k :: 0 <= k < |elements| ==>
              r[k].name == elements[k].name && r[k].columns == elements[k].columns && r[k].rest == elements[k].rest
    ensures forall k :: 0 <= k < |elements| && elements[k].name == Some("SyncList") ==>
              r[k].values == Some(Injected(syncValues))
    ensures forall k :: 0 <= k < |elements| && elements[k].name != Some("SyncList") ==> r[k] == elements[k]
  {
    seq(|elements|, k requires 0 <= k < |elements| => InjectSyncElement(elements[k], syncValues))
  }

  /** The second by-reference loop over the form's elements. */
  method FillSyncList(elements: seq<Element>, syncValues: seq<SyncRecord>) returns (r: seq<Element>)
    ensures r == InjectSyncValues(elements, syncValues)
  {
    r := elements;
    for i := 0 to |elements|
      invariant |r| == |elements|
      invariant forall k :: 0 <= k < i ==> r[k] == InjectSyncElement(elements[k], syncValues)
      invariant forall k :: i <= k < |elements| ==> r[k] == elements[k]
    {
      if r[i].name.Some? && r[i].name.value == "SyncList" {
        r := r[i := r[i].(values := Some(Injected(syncValues)))];
      }
    }
  }

  /** Writing the SyncList again replaces the earlier write. */
  lemma InjectSyncValuesOverwrite(elements: seq<Element>, v1: seq<SyncRecord>, v2: seq<SyncRecord>)
    ensures InjectSyncValues(InjectSyncValues(elements, v1), v2) == InjectSyncValues(elements, v2)
  {
    var a := InjectSyncValues(InjectSyncValues(elements, v1), v2);
    var b := InjectSyncValues(elements, v2);
    assert forall k :: 0 <= k < |elements| ==> a[k] == b[k];
  }

  /** The option injection and the SyncList injection touch disjoint elements, so their order does not matter. */
  lemma InjectionsCommute(elements: seq<Element>, serverOptions: seq<Choice>, folderOptions: seq<Choice>,
                          syncValues: seq<SyncRecord>)
    ensures InjectSyncValues(InjectOptions(elements, serverOptions, folderOptions), syncValues)
              == InjectOptions(InjectSyncValues(elements, syncValues), serverOptions, folderOptions)
  {
    var a := InjectSyncValues(InjectOptions(elements, serverOptions, folderOptions), syncValues);
    var b := InjectOptions(InjectSyncValues(elements, syncValues), serverOptions, folderOptions);
    assert forall k :: 0 <= k < |elements| ==> a[k] == b[k];
  }
}
