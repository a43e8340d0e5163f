/**
 * The port tracker of vxlan-switchd-plugin/src/vxlan_plugin.c: per port
 * name, the access VLAN the port was last bound on. Port callbacks bind a
 * port on its VLAN's tunnel key, rebind it when its VLAN tag changes, and
 * unbind it when the port goes away.
 */
module PortTracker {
  import opened Common
  import opened Asic
  import opened VlanTracker

  /** A `struct port_node`: the VLAN id the port is bound on (0: none) and that VLAN's name (`NULL` until the first rebind). */
  datatype PortNode = PortNode(vlanId: VlanId, vlanName: Option<string>)

  /** The `ports` map, keyed by port name. */
  type PortMap = map<string, PortNode>

  /** The VLAN row a port's `vlan_tag` references. */
  datatype VlanTag = VlanTag(id: VlanId, name: string)

  /** A port row of the bridge: name, `vlan_mode` (`NULL` allowed), `vlan_tag` (`NULL` allowed), change flags. */
  datatype PortRow = PortRow(name: string, vlanMode: Option<string>, vlanTag: Option<VlanTag>, inserted: bool, modified: bool)

  /** The names of the rows inserted or modified since the last pass. */
  function ChangedNames(rows: seq<PortRow>): set<string> {
    set row | row in rows && (row.inserted || row.modified) :: row.name
  }

  /**
   * `vxlan_port_add_cb`: every inserted or modified row whose name is not
   * yet tracked gets a node with VLAN 0 and no VLAN name; a tracked name
   * keeps its node.
   */
  function PortAdd(ports: PortMap, rows: seq<PortRow>): (r: PortMap)
    ensures r.Keys == ports.Keys + ChangedNames(rows)
    ensures forall n :: n in ports ==> r[n] == ports[n]
    ensures forall n :: n in r && n !in ports ==> r[n] == PortNode(0, None)
    decreases |rows|
  {
    if |rows| == 0 then ports
    else
      var row := rows[0];
      var next := if (row.inserted || row.modified) && row.name !in ports then ports[row.name := PortNode(0, None)] else ports;
      ChangedNamesCons(rows);
      PortAdd(next, rows[1..])
  }

  lemma ChangedNamesCons(rows: seq<PortRow>)
    requires |rows| > 0
    ensures ChangedNames(rows) == (if rows[0].inserted || rows[0].modified then {rows[0].name} else {}) + ChangedNames(rows[1..])
  {
    assert forall x :: x in rows <==> x == rows[0] || x in rows[1..] by {
      assert rows == [rows[0]] + rows[1..];
    }
  }

  /** The tracked VLAN `vlanName` is bound to a logical switch. */
  predicate BoundVlan(vlans: VlanMap, vlanName: string) {
    vlanName in vlans && vlans[vlanName].tunnelKey != 0
  }

  /** What binding `port` on the tracked VLAN `vlanName` sends: one bind on the VLAN's key and id if the VLAN is bound, nothing otherwise. */
  function BindCall(vlans: VlanMap, vlanName: string, port: string): seq<HwCall> {
    if BoundVlan(vlans, vlanName) then [BindPortOnVlan(vlans[vlanName].tunnelKey, vlans[vlanName].vlanId, port)] else []
  }

  /** What unbinding `port` from the tracked VLAN `vlanName` sends, as for binding. */
  function UnbindCall(vlans: VlanMap, vlanName: string, port: string): seq<HwCall> {
    if BoundVlan(vlans, vlanName) then [UnbindPortOnVlan(vlans[vlanName].tunnelKey, vlans[vlanName].vlanId, port)] else []
  }

  /**
   * `vxlan_bind_port_vlan`: an untracked or unbound VLAN sends nothing;
   * otherwise the port is bound on the VLAN's key and id, and a provider
   * without the operation is fatal.
   */
  function BindPortVlan(plugin: Provider, vlans: VlanMap, vlanName: string, port: string): (r: Result<seq<HwCall>, Fault>)
    ensures r.Err? <==> BoundVlan(vlans, vlanName) && !plugin.bindPortOnVlan
    ensures r.Err? ==> r.error == MissingPdFunction(BindPortOnVlanOp)
    ensures r.Ok? && !BoundVlan(vlans, vlanName) ==> r.value == []
    ensures r.Ok? && BoundVlan(vlans, vlanName) ==>
              r.value == [BindPortOnVlan(vlans[vlanName].tunnelKey, vlans[vlanName].vlanId, port)]
    ensures r.Ok? ==> r.value == BindCall(vlans, vlanName, port)
  {
    if vlanName !in vlans then Ok([])
    else
      var node := vlans[vlanName];
      if node.tunnelKey == 0 then Ok([])
      else Require(plugin, BindPortOnVlanOp, BindPortOnVlan(node.tunnelKey, node.vlanId, port))
  }

  /**
   * `vxlan_unbind_port_vlan`: as binding, with the opposite call; the
   * VLAN name is the port node's, and looking up a `NULL` name is fatal.
   */
  function UnbindPortVlan(plugin: Provider, vlans: VlanMap, vlanName: Option<string>, port: string): (r: Result<seq<HwCall>, Fault>)
    ensures vlanName.None? ==> r == Err(NullVlanName(port))
    ensures vlanName.Some? ==> (r.Err? <==> BoundVlan(vlans, vlanName.value) && !plugin.unbindPortOnVlan)
    ensures vlanName.Some? && r.Err? ==> r.error == MissingPdFunction(UnbindPortOnVlanOp)
    ensures r.Ok? && !BoundVlan(vlans, vlanName.value) ==> r.value == []
    ensures r.Ok? && BoundVlan(vlans, vlanName.value) ==>
              r.value == [UnbindPortOnVlan(vlans[vlanName.value].tunnelKey, vlans[vlanName.value].vlanId, port)]
    ensures r.Ok? ==> r.value == UnbindCall(vlans, vlanName.value, port)
  {
    if vlanName.None? then Err(NullVlanName(port))
    else if vlanName.value !in vlans then Ok([])
    else
      var node := vlans[vlanName.value];
      if node.tunnelKey == 0 then Ok([])
      else Require(plugin, UnbindPortOnVlanOp, UnbindPortOnVlan(node.tunnelKey, node.vlanId, port))
  }

  /**
   * Binding and unbinding are mirror images: for a bound VLAN and a
   * provider with both operations, they name the same key, VLAN id and port.
   */
  lemma BindUnbindMirror(plugin: Provider, vlans: VlanMap, vlanName: string, port: string)
    requires BoundVlan(vlans, vlanName)
    requires plugin.bindPortOnVlan && plugin.unbindPortOnVlan
    ensures var b := BindPortVlan(plugin, vlans, vlanName, port);
            var u := UnbindPortVlan(plugin, vlans, Some(vlanName), port);
            && b.Ok? && u.Ok? && |b.value| == 1 && |u.value| == 1
            && b.value[0].BindPortOnVlan? && u.value[0].UnbindPortOnVlan?
            && b.value[0].tunnelKey == u.value[0].tunnelKey
            && b.value[0].vlanId == u.value[0].vlanId
            && b.value[0].port == u.value[0].port == port
  {
  }

  /** Only access ports are handled: a row without `vlan_mode`, or with mode "access". */
  predicate IsAccess(row: PortRow) {
    row.vlanMode.None? || row.vlanMode.value == "access"
  }

  /** The VLAN id the row asks for: its tag's id, or 0 without a tag. */
  function TaggedVlan(row: PortRow): VlanId {
    if row.vlanTag.Some? then row.vlanTag.value.id else 0
  }

  /** The update leaves the tracker alone: not an access port, an untracked port, or an unchanged VLAN. */
  predicate UpdateSkips(ports: PortMap, row: PortRow) {
    !IsAccess(row) || row.name !in ports || ports[row.name].vlanId == TaggedVlan(row)
  }

  /**
   * The calls of an update that goes through: the unbind from the tracked
   * VLAN if the port was on one, then the bind on the tagged VLAN if the
   * tag names one.
   */
  function UpdateCalls(vlans: VlanMap, node: PortNode, row: PortRow): seq<HwCall> {
    (if node.vlanId != 0 && node.vlanName.Some? then UnbindCall(vlans, node.vlanName.value, row.name) else [])
    + (if row.vlanTag.Some? && row.vlanTag.value.id != 0 then BindCall(vlans, row.vlanTag.value.name, row.name) else [])
  }

  /**
   * Moving the port from `node`'s VLAN to the row's is fatal: the port was
   * on a VLAN whose name is `NULL`, or whose key is bound while the provider
   * cannot unbind; the tag names a bound VLAN and the provider cannot bind;
   * or the tag is gone, so recording its name dereferences `NULL`.
   */
  predicate MoveFaults(plugin: Provider, vlans: VlanMap, node: PortNode, row: PortRow) {
    || (node.vlanId != 0 && (node.vlanName.None? || (BoundVlan(vlans, node.vlanName.value) && !plugin.unbindPortOnVlan)))
    || (row.vlanTag.Some? && row.vlanTag.value.id != 0 && BoundVlan(vlans, row.vlanTag.value.name) && !plugin.bindPortOnVlan)
    || row.vlanTag.None?
  }

  /**
   * `vxlan_port_update_cb` for one port: if the tracked VLAN id differs
   * from the tag's, unbind from the old VLAN (if any, by the node's VLAN
   * name), bind on the new one (if any, by the tag's name), and record the
   * new id and the tag's name. Recording dereferences the tag, so moving a
   * port off its VLAN (tag removed) is fatal.
   */
  function PortUpdate(plugin: Provider, vlans: VlanMap, ports: PortMap, row: PortRow): (r: Result<(PortMap, seq<HwCall>), Fault>)
    ensures UpdateSkips(ports, row) ==> r == Ok((ports, []))
    ensures r.Ok? ==> r.value.0.Keys == ports.Keys
    ensures r.Ok? ==> forall n :: n in ports && n != row.name ==> r.value.0[n] == ports[n]
    ensures r.Ok? && !UpdateSkips(ports, row) ==>
              row.vlanTag.Some? && r.value.0[row.name] == PortNode(row.vlanTag.value.id, Some(row.vlanTag.value.name))
    ensures r.Ok? ==> forall c :: c in r.value.1 ==> (c.BindPortOnVlan? || c.UnbindPortOnVlan?) && c.port == row.name
    ensures !UpdateSkips(ports, row) && row.vlanTag.None? ==> r.Err?
    ensures r.Err? <==> !UpdateSkips(ports, row) && MoveFaults(plugin, vlans, ports[row.name], row)
    ensures r.Ok? && !UpdateSkips(ports, row) ==> r.value.1 == UpdateCalls(vlans, ports[row.name], row)
  {
    if UpdateSkips(ports, row) then Ok((ports, []))
    else
      var node := ports[row.name];
      var newVlan := TaggedVlan(row);
      var unbind :- if node.vlanId != 0 then UnbindPortVlan(plugin, vlans, node.vlanName, row.name) else Ok([]);
      var bind :- if newVlan != 0 then BindPortVlan(plugin, vlans, row.vlanTag.value.name, row.name) else Ok([]);
      if row.vlanTag.None? then Err(NullVlanTag(row.name))
      else Ok((ports[row.name := PortNode(newVlan, Some(row.vlanTag.value.name))], unbind + bind))
  }

  /** Idempotence: a second update with the same row does nothing. */
  lemma PortUpdateIdempotent(plugin: Provider, vlans: VlanMap, ports: PortMap, row: PortRow)
    requires PortUpdate(plugin, vlans, ports, row).Ok?
    ensures var after := PortUpdate(plugin, vlans, ports, row).value.0;
            PortUpdate(plugin, vlans, after, row) == Ok((after, []))
  {
  }

  /**
   * Moving an access port from one bound VLAN to another unbinds it from
   * the old VLAN's key, then binds it on the new VLAN's key.
   */
  lemma PortUpdateRebinds(plugin: Provider, vlans: VlanMap, ports: PortMap, row: PortRow, oldName: string)
    requires plugin.bindPortOnVlan && plugin.unbindPortOnVlan
    requires IsAccess(row) && row.vlanTag.Some?
    requires row.name in ports && ports[row.name] == PortNode(ports[row.name].vlanId, Some(oldName))
    requires ports[row.name].vlanId != 0 && row.vlanTag.value.id != 0 && ports[row.name].vlanId != row.vlanTag.value.id
    requires BoundVlan(vlans, oldName) && BoundVlan(vlans, row.vlanTag.value.name)
    ensures var newName := row.vlanTag.value.name;
            PortUpdate(plugin, vlans, ports, row)
            == Ok((ports[row.name := PortNode(row.vlanTag.value.id, Some(newName))],
                   [UnbindPortOnVlan(vlans[oldName].tunnelKey, vlans[oldName].vlanId, row.name),
                    BindPortOnVlan(vlans[newName].tunnelKey, vlans[newName].vlanId, row.name)]))
  {
    var newName := row.vlanTag.value.name;
    var u := UnbindPortOnVlan(vlans[oldName].tunnelKey, vlans[oldName].vlanId, row.name);
    var b := BindPortOnVlan(vlans[newName].tunnelKey, vlans[newName].vlanId, row.name);
    assert UnbindPortVlan(plugin, vlans, Some(oldName), row.name) == Ok([u]);
    assert BindPortVlan(plugin, vlans, newName, row.name) == Ok([b]);
    assert [u] + [b] == [u, b];
  }

  /**
   * The first move of a port onto a VLAN (from VLAN 0): no unbind, one bind
   * on the tagged VLAN's key when that VLAN is bound, and the node records
   * the tag's id and name.
   */
  lemma PortUpdateFirstBind(plugin: Provider, vlans: VlanMap, ports: PortMap, row: PortRow)
    requires plugin.bindPortOnVlan
    requires IsAccess(row) && row.vlanTag.Some? && row.vlanTag.value.id != 0
    requires row.name in ports && ports[row.name].vlanId == 0
    ensures var tag := row.vlanTag.value;
            PortUpdate(plugin, vlans, ports, row)
            == Ok((ports[row.name := PortNode(tag.id, Some(tag.name))],
                   if BoundVlan(vlans, tag.name) then [BindPortOnVlan(vlans[tag.name].tunnelKey, vlans[tag.name].vlanId, row.name)] else []))
  {
    var none: seq<HwCall> := [];
    assert none + BindCall(vlans, row.vlanTag.value.name, row.name) == BindCall(vlans, row.vlanTag.value.name, row.name);
  }

  /**
   * Removing the VLAN tag of a port bound on a VLAN: when the unbind goes
   * through, recording the new VLAN name dereferences the missing tag.
   */
  lemma PortUpdateTagRemovalFaults(plugin: Provider, vlans: VlanMap, ports: PortMap, row: PortRow)
    requires IsAccess(row) && row.vlanTag.None?
    requires row.name in ports && ports[row.name].vlanId != 0 && ports[row.name].vlanName.Some?
    requires plugin.unbindPortOnVlan
    ensures PortUpdate(plugin, vlans, ports, row) == Err(NullVlanTag(row.name))
  {
  }

  /** The names of the live ports that are no longer wanted. */
  function Gone(live: seq<string>, wanted: set<string>): set<string> {
    set n | n in live && n !in wanted
  }

  /**
   * Deleting port `n` is fatal: it is untracked, it was never bound (its
   * VLAN name is `NULL`), or its VLAN is bound and the provider cannot unbind.
   */
  ghost predicate DeleteFaults(plugin: Provider, vlans: VlanMap, ports: PortMap, n: string) {
    || n !in ports
    || ports[n].vlanName.None?
    || (BoundVlan(vlans, ports[n].vlanName.value) && !plugin.unbindPortOnVlan)
  }

  /**
   * `vxlan_port_delete_cb`: every live port that is not wanted any more,
   * in the bridge's order, is unbound from its VLAN and dropped from the
   * tracker; a deleted port the tracker does not know is fatal.
   */
  function PortDelete(plugin: Provider, vlans: VlanMap, ports: PortMap, live: seq<string>, wanted: set<string>)
    : (r: Result<(PortMap, seq<HwCall>), Fault>)
    ensures r.Ok? ==> Gone(live, wanted) <= ports.Keys
    ensures r.Ok? ==> r.value.0.Keys == ports.Keys - Gone(live, wanted)
    ensures r.Ok? ==> forall n :: n in r.value.0 ==> r.value.0[n] == ports[n]
    ensures r.Ok? ==> forall c :: c in r.value.1 ==> c.UnbindPortOnVlan? && c.port in Gone(live, wanted)
    ensures r.Ok? ==> r.value.1 == DeleteCalls(vlans, ports, live, wanted)
    decreases |live|
  {
    if |live| == 0 then Ok((ports, []))
    else
      var n := live[0];
      GoneCons(live, wanted);
      if n in wanted then PortDelete(plugin, vlans, ports, live[1..], wanted)
      else if n !in ports then Err(UntrackedPortDeleted(n))
      else
        var unbind :- UnbindPortVlan(plugin, vlans, ports[n].vlanName, n);
        var rest :- PortDelete(plugin, vlans, ports - {n}, live[1..], wanted);
        DeleteCallsWithout(vlans, ports, live[1..], wanted, n);
        Ok((rest.0, unbind + rest.1))
  }

  /**
   * The calls of a delete pass that goes through: for each live port no
   * longer wanted, in the bridge's order, the unbind from the VLAN the
   * tracker recorded for it.
   */
  function DeleteCalls(vlans: VlanMap, ports: PortMap, live: seq<string>, wanted: set<string>): seq<HwCall> {
    if |live| == 0 then []
    else
      var n := live[0];
      (if n !in wanted && n in ports && ports[n].vlanName.Some? then UnbindCall(vlans, ports[n].vlanName.value, n) else [])
      + DeleteCalls(vlans, ports, live[1..], wanted)
  }

  /** Forgetting a port that is not among the unwanted ones does not change the calls. */
  lemma {:induction false} DeleteCallsWithout(vlans: VlanMap, ports: PortMap, live: seq<string>, wanted: set<string>, n: string)
    requires n !in Gone(live, wanted)
    ensures DeleteCalls(vlans, ports - {n}, live, wanted) == DeleteCalls(vlans, ports, live, wanted)
    decreases |live|
  {
    if |live| > 0 {
      GoneCons(live, wanted);
      DeleteCallsWithout(vlans, ports, live[1..], wanted, n);
    }
  }

  lemma GoneCons(live: seq<string>, wanted: set<string>)
    requires |live| > 0
    ensures Gone(live, wanted) == (if live[0] in wanted then {} else {live[0]}) + Gone(live[1..], wanted)
  {
    assert forall x :: x in live <==> x == live[0] || x in live[1..] by {
      assert live == [live[0]] + live[1..];
    }
  }

  /** No port name appears twice among the live ports. */
  ghost predicate DistinctPorts(live: seq<string>) {
    forall i, j :: 0 <= i < j < |live| ==> live[i] != live[j]
  }

  /**
   * Over distinct live ports, the delete pass is fatal exactly when one of
   * the unwanted ports is: a port the tracker never bound (added by the
   * add callback and never moved onto a VLAN) cannot be deleted.
   */
  lemma {:induction false} PortDeleteFaults(plugin: Provider, vlans: VlanMap, ports: PortMap, live: seq<string>, wanted: set<string>)
    requires DistinctPorts(live)
    ensures PortDelete(plugin, vlans, ports, live, wanted).Err?
            <==> exists n :: n in Gone(live, wanted) && DeleteFaults(plugin, vlans, ports, n)
    decreases |live|
  {
    if |live| > 0 {
      var n := live[0];
      GoneCons(live, wanted);
      assert DistinctPorts(live[1..]) by {
        forall i, j | 0 <= i < j < |live[1..]| ensures live[1..][i] != live[1..][j] {
          assert live[1..][i] == live[i + 1] && live[1..][j] == live[j + 1];
        }
      }
      assert n !in live[1..] by {
        forall j | 0 <= j < |live[1..]| ensures live[1..][j] != n {
          assert live[1..][j] == live[j + 1];
        }
      }
      assert n !in Gone(live[1..], wanted);
      if n in wanted {
        PortDeleteFaults(plugin, vlans, ports, live[1..], wanted);
      } else if n in ports && !DeleteFaults(plugin, vlans, ports, n) {
        PortDeleteFaults(plugin, vlans, ports - {n}, live[1..], wanted);
        forall m | m in Gone(live[1..], wanted)
          ensures DeleteFaults(plugin, vlans, ports - {n}, m) == DeleteFaults(plugin, vlans, ports, m)
        {
        }
      } else {
        assert n in Gone(live, wanted);
      }
    }
  }

  /**
   * The add callback's nodes are never bound, so deleting a port right
   * after adding it is fatal (the unbind looks up a `NULL` VLAN name).
   */
  lemma AddThenDeleteFaults(plugin: Provider, vlans: VlanMap, ports: PortMap, row: PortRow)
    requires row.inserted && row.name !in ports
    ensures PortDelete(plugin, vlans, PortAdd(ports, [row]), [row.name], {}) == Err(NullVlanName(row.name))
  {
    assert [row.name][1..] == [];
  }
}
