/**
 * The VXLAN ASIC capability provider as the reconciler sees it: a set of
 * optional operations, the calls it records, the faults that end a pass,
 * and the cached lookup of the provider itself.
 */
module Asic {
  import opened Common

  /** Which of the five operations the registered provider implements. */
  datatype Provider = Provider(
    setLogicalSwitch: bool,
    bindPortOnVlan: bool,
    unbindPortOnVlan: bool,
    bindAllPortsOnVlan: bool,
    unbindAllPortsOnVlan: bool)

  datatype AsicOp =
    | SetLogicalSwitchOp
    | BindPortOnVlanOp
    | UnbindPortOnVlanOp
    | BindAllPortsOnVlanOp
    | UnbindAllPortsOnVlanOp

  predicate Implements(p: Provider, op: AsicOp) {
    match op
    case SetLogicalSwitchOp => p.setLogicalSwitch
    case BindPortOnVlanOp => p.bindPortOnVlan
    case UnbindPortOnVlanOp => p.unbindPortOnVlan
    case BindAllPortsOnVlanOp => p.bindAllPortsOnVlan
    case UnbindAllPortsOnVlanOp => p.unbindAllPortsOnVlan
  }

  datatype LsAction = LsAdd | LsDel | LsMod

  /** The `logical_switch_node` payload handed to `set_logical_switch`. */
  datatype LsNode = LsNode(name: Option<string>, description: Option<string>, tunnelKey: int)

  /** One call recorded by the provider, in the order it was received. */
  datatype HwCall =
    | LsCall(action: LsAction, node: LsNode)
    | BindPortOnVlan(tunnelKey: nat, vlanId: int, port: string)
    | UnbindPortOnVlan(tunnelKey: nat, vlanId: int, port: string)
    | BindAllPortsOnVlan(tunnelKey: nat, vlanId: int)
    | UnbindAllPortsOnVlan(tunnelKey: nat, vlanId: int)

  /**
   * What ends the process: a failed `assert(0)` or a `NULL` dereference
   * (undefined behaviour in the source, reported here as a fault).
   */
  datatype Fault =
    | AsicPluginNotFound
    | MissingPdFunction(op: AsicOp)
    | NullStrcmpArgument
    | NullStrdupArgument
    | StaleLogicalSwitchRow(id: nat)
    | NullVlanTag(port: string)
    | NullVlanName(port: string)
    | UntrackedPortDeleted(port: string)

  /**
   * `get_asic_plugin`: the cached provider if there is one, otherwise the
   * registry's answer, which is then cached; an empty registry is fatal.
   * The result pairs the provider with the new cache.
   */
  function GetAsicPlugin(cache: Option<Provider>, registry: Option<Provider>)
    : (r: Result<(Provider, Option<Provider>), Fault>)
    ensures r.Err? <==> cache.None? && registry.None?
    ensures r.Err? ==> r.error == AsicPluginNotFound
    ensures r.Ok? ==> r.value.1 == Some(r.value.0)
    ensures cache.Some? ==> r.Ok? && r.value.0 == cache.value
    ensures cache.None? && registry.Some? ==> r.Ok? && r.value.0 == registry.value
  {
    if cache.Some? then Ok((cache.value, cache))
    else if registry.Some? then Ok((registry.value, registry))
    else Err(AsicPluginNotFound)
  }

  /**
   * Once a lookup has succeeded, every later lookup returns the same
   * provider and leaves the cache alone, whatever the registry holds then.
   */
  lemma GetAsicPluginIsCached(cache: Option<Provider>, registry: Option<Provider>, later: Option<Provider>)
    requires GetAsicPlugin(cache, registry).Ok?
    ensures var first := GetAsicPlugin(cache, registry).value;
            GetAsicPlugin(first.1, later) == Ok(first)
  {
  }
}
