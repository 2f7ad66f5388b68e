/**
 * The calls into the Symcon host that the configuration form makes. They are
 * outside this model, so they appear as given functions of an object ID.
 */
module SymconHost {
  import opened Optional
  import opened PhpValues
  import opened Hierarchy

  datatype Host = Host(
    /** `IPS_InstanceExists(id)` */
    instanceExists: int -> bool,
    /**
     * `json_decode(@SEC_GetKeys(id), true)` when it is an array, None when the
     * returned string decodes to anything else; the reply is taken to be a string
     */
    secretKeys: int -> Option<seq<Json>>,
    /** `IPS_ObjectExists(id)` */
    objectExists: int -> bool,
    /** the object `id` with its subtree, as `IPS_GetChildrenIDs` and `IPS_GetObject` report it */
    objectAt: int -> Obj,
    /** `IPS_GetName(id)` */
    nameOf: int -> string
  )
}
