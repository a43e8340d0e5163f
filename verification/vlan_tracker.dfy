/**
 * The VLAN binding tracker of vxlan-switchd-plugin/src/vxlan_plugin.c:
 * `vxlan_check_vlan_state_change` keeps, per VLAN name, the VLAN id and
 * the tunnel key the VLAN was last bound to, and tells the provider to
 * unbind all ports from the old key and bind them to the new one whenever
 * the VLAN's logical switch changes.
 */
module VlanTracker {
  import opened Common
  import opened Asic

  /** VLAN ids are 12-bit (IEEE 802.1Q); 0 stands for "no VLAN". */
  type VlanId = v: int | 0 <= v < 0x1000

  /** A `struct vlan_node`: the VLAN's id and its current tunnel key (0 when unbound). */
  datatype VlanNode = VlanNode(vlanId: VlanId, tunnelKey: nat)

  /** The `vlans` map, keyed by VLAN name. */
  type VlanMap = map<string, VlanNode>

  /**
   * A VLAN row of the bridge: its name, id, the tunnel key of the logical
   * switch it references (`None` when the reference is `NULL`), and whether
   * it was inserted since the last pass.
   */
  datatype VlanRow = VlanRow(name: string, id: VlanId, logicalSwitchKey: Option<nat>, inserted: bool)

  /** The tunnel key the row asks for: its logical switch's key, or 0 without one. */
  function ConfiguredKey(row: VlanRow): nat {
    if row.logicalSwitchKey.Some? then row.logicalSwitchKey.value else 0
  }

  /** The map after the inserted-row step: a new name gets a node with key 0; a known name keeps its node. */
  function Seed(vlans: VlanMap, row: VlanRow): (r: VlanMap)
    ensures r.Keys == vlans.Keys + (if row.inserted then {row.name} else {})
    ensures forall n :: n in vlans ==> r[n] == vlans[n]
    ensures row.name in r && row.name !in vlans ==> r[row.name] == VlanNode(row.id, 0)
  {
    if row.inserted && row.name !in vlans then vlans[row.name := VlanNode(row.id, 0)] else vlans
  }

  /** The provider call `op`, or the fatal assertion when the provider lacks it. */
  function Require(plugin: Provider, op: AsicOp, call: HwCall): (r: Result<seq<HwCall>, Fault>)
    ensures r.Ok? <==> Implements(plugin, op)
    ensures r.Ok? ==> r.value == [call]
    ensures r.Err? ==> r.error == MissingPdFunction(op)
  {
    if Implements(plugin, op) then Ok([call]) else Err(MissingPdFunction(op))
  }

  /**
   * The calls moving a VLAN from its tracked key to `newKey`: nothing if
   * the key is unchanged, otherwise unbind all from the old key unless it
   * is 0, then bind all to the new key unless it is 0.
   */
  function RebindCalls(node: VlanNode, newKey: nat): seq<HwCall> {
    if node.tunnelKey == newKey then []
    else
      (if node.tunnelKey != 0 then [UnbindAllPortsOnVlan(node.tunnelKey, node.vlanId)] else [])
      + (if newKey != 0 then [BindAllPortsOnVlan(newKey, node.vlanId)] else [])
  }

  /** A tracked VLAN whose key must change needs an operation the provider lacks. */
  ghost predicate SyncFaults(plugin: Provider, node: VlanNode, newKey: nat) {
    && node.tunnelKey != newKey
    && ((node.tunnelKey != 0 && !plugin.unbindAllPortsOnVlan) || (newKey != 0 && !plugin.bindAllPortsOnVlan))
  }

  /**
   * One VLAN row: seed it if inserted, then, if it is tracked and its key
   * changed, unbind all ports from the old key (if any), bind all ports to
   * the new key (if any), and record the new key. Both calls carry the
   * tracked VLAN id.
   */
  function SyncVlan(plugin: Provider, vlans: VlanMap, row: VlanRow): (r: Result<(VlanMap, seq<HwCall>), Fault>)
    ensures var seeded := Seed(vlans, row);
            row.name !in seeded ==> r == Ok((vlans, []))
    ensures var seeded := Seed(vlans, row);
            row.name in seeded ==> (r.Err? <==> SyncFaults(plugin, seeded[row.name], ConfiguredKey(row)))
    ensures r.Ok? ==> r.value.0.Keys == Seed(vlans, row).Keys
    ensures r.Ok? ==> forall n :: n in vlans && n != row.name ==> r.value.0[n] == vlans[n]
    ensures r.Ok? && row.name in r.value.0 ==>
              r.value.0[row.name] == Seed(vlans, row)[row.name].(tunnelKey := ConfiguredKey(row))
    ensures r.Ok? && row.name in r.value.0 ==>
              r.value.1 == RebindCalls(Seed(vlans, row)[row.name], ConfiguredKey(row))
  {
    var seeded := Seed(vlans, row);
    if row.name !in seeded then Ok((vlans, []))
    else
      var node := seeded[row.name];
      var newKey := ConfiguredKey(row);
      if node.tunnelKey == newKey then Ok((seeded, []))
      else
        var unbind :- if node.tunnelKey != 0
          then Require(plugin, UnbindAllPortsOnVlanOp, UnbindAllPortsOnVlan(node.tunnelKey, node.vlanId))
          else Ok([]);
        var bind :- if newKey != 0
          then Require(plugin, BindAllPortsOnVlanOp, BindAllPortsOnVlan(newKey, node.vlanId))
          else Ok([]);
        Ok((seeded[row.name := node.(tunnelKey := newKey)], unbind + bind))
  }

  /** The names of the inserted rows. */
  function InsertedNames(rows: seq<VlanRow>): set<string> {
    set row | row in rows && row.inserted :: row.name
  }

  /** The names of all rows. */
  function Names(rows: seq<VlanRow>): set<string> {
    set row | row in rows :: row.name
  }

  /** No two rows share a name. */
  ghost predicate DistinctNames(rows: seq<VlanRow>) {
    forall i, j :: 0 <= i < j < |rows| ==> rows[i].name != rows[j].name
  }

  /**
   * `vxlan_check_vlan_state_change`: every VLAN row of the bridge, in
   * order. The tracker gains the inserted rows' names and never loses one;
   * VLANs without a row are left alone; a tracked VLAN's id never changes.
   */
  function CheckVlanStateChange(plugin: Provider, vlans: VlanMap, rows: seq<VlanRow>): (r: Result<(VlanMap, seq<HwCall>), Fault>)
    ensures r.Ok? ==> r.value.0.Keys == vlans.Keys + InsertedNames(rows)
    ensures r.Ok? ==> forall n :: n in vlans && n !in Names(rows) ==> r.value.0[n] == vlans[n]
    ensures r.Ok? ==> forall n :: n in vlans ==> r.value.0[n].vlanId == vlans[n].vlanId
    decreases |rows|
  {
    if |rows| == 0 then Ok((vlans, []))
    else
      var first :- SyncVlan(plugin, vlans, rows[0]);
      var rest :- CheckVlanStateChange(plugin, first.0, rows[1..]);
      NamesCons(rows);
      Ok((rest.0, first.1 + rest.1))
  }

  lemma NamesCons(rows: seq<VlanRow>)
    requires |rows| > 0
    ensures Names(rows) == {rows[0].name} + Names(rows[1..])
    ensures InsertedNames(rows) == (if rows[0].inserted then {rows[0].name} else {}) + InsertedNames(rows[1..])
  {
    assert forall x :: x in rows <==> x == rows[0] || x in rows[1..] by {
      assert rows == [rows[0]] + rows[1..];
    }
  }

  /** Every tracked VLAN that has a row is bound to the key its row asks for. */
  ghost predicate InSync(vlans: VlanMap, rows: seq<VlanRow>) {
    forall row :: row in rows && row.name in vlans ==> vlans[row.name].tunnelKey == ConfiguredKey(row)
  }

  /**
   * After a pass over rows with distinct names, every tracked VLAN with a
   * row is bound to its row's key.
   */
  lemma {:induction false} CheckVlanStateChangeSyncs(plugin: Provider, vlans: VlanMap, rows: seq<VlanRow>)
    requires DistinctNames(rows)
    requires CheckVlanStateChange(plugin, vlans, rows).Ok?
    ensures InSync(CheckVlanStateChange(plugin, vlans, rows).value.0, rows)
    decreases |rows|
  {
    if |rows| > 0 {
      var first := SyncVlan(plugin, vlans, rows[0]).value;
      var rest := CheckVlanStateChange(plugin, first.0, rows[1..]).value;
      assert DistinctNames(rows[1..]) by {
        forall i, j | 0 <= i < j < |rows[1..]| ensures rows[1..][i].name != rows[1..][j].name {
          assert rows[1..][i] == rows[i + 1] && rows[1..][j] == rows[j + 1];
        }
      }
      CheckVlanStateChangeSyncs(plugin, first.0, rows[1..]);
      assert rows[0].name !in Names(rows[1..]) by {
        forall x | x in rows[1..] ensures x.name != rows[0].name {
          var j :| 0 <= j < |rows[1..]| && rows[1..][j] == x;
          assert rows[j + 1] == x;
        }
      }
      var n0 := rows[0].name;
      assert n0 !in InsertedNames(rows[1..]);
      if n0 in rest.0 {
        assert n0 in first.0;
        assert rest.0[n0] == first.0[n0];
      }
      assert forall x :: x in rows ==> x == rows[0] || x in rows[1..] by {
        assert rows == [rows[0]] + rows[1..];
      }
    }
  }

  /** A pass over rows that are already in sync, and whose inserted names are all tracked, does nothing. */
  lemma {:induction false} CheckVlanStateChangeOfSynced(plugin: Provider, vlans: VlanMap, rows: seq<VlanRow>)
    requires InSync(vlans, rows)
    requires InsertedNames(rows) <= vlans.Keys
    ensures CheckVlanStateChange(plugin, vlans, rows) == Ok((vlans, []))
    decreases |rows|
  {
    if |rows| > 0 {
      assert rows[0] in rows;
      assert Seed(vlans, rows[0]) == vlans;
      assert SyncVlan(plugin, vlans, rows[0]) == Ok((vlans, []));
      assert forall x :: x in rows[1..] ==> x in rows;
      CheckVlanStateChangeOfSynced(plugin, vlans, rows[1..]);
      var none: seq<HwCall> := [];
      assert none + none == none;
    }
  }

  /**
   * Idempotence: over rows with distinct names, a second pass on the
   * tracker the first one left sends nothing and changes nothing.
   */
  lemma CheckVlanStateChangeIdempotent(plugin: Provider, vlans: VlanMap, rows: seq<VlanRow>)
    requires DistinctNames(rows)
    requires CheckVlanStateChange(plugin, vlans, rows).Ok?
    ensures var after := CheckVlanStateChange(plugin, vlans, rows).value.0;
            CheckVlanStateChange(plugin, after, rows) == Ok((after, []))
  {
    CheckVlanStateChangeSyncs(plugin, vlans, rows);
    CheckVlanStateChangeOfSynced(plugin, CheckVlanStateChange(plugin, vlans, rows).value.0, rows);
  }

  /** The row's VLAN is tracked once the row is seeded, and moving it to the row's key needs an operation the provider lacks. */
  ghost predicate RowFaults(plugin: Provider, vlans: VlanMap, row: VlanRow) {
    var seeded := Seed(vlans, row);
    row.name in seeded && SyncFaults(plugin, seeded[row.name], ConfiguredKey(row))
  }

  /** Some row of the pass faults against the tracker as it was before the pass. */
  ghost predicate PassFaults(plugin: Provider, vlans: VlanMap, rows: seq<VlanRow>) {
    exists row :: row in rows && RowFaults(plugin, vlans, row)
  }

  /**
   * The calls of a pass over rows that touch distinct VLANs: each row's
   * rebind, in order, computed against the tracker as it was before the
   * pass (a row not yet tracked, and not inserted, contributes nothing).
   */
  function PassCalls(vlans: VlanMap, rows: seq<VlanRow>): seq<HwCall> {
    if |rows| == 0 then []
    else
      var seeded := Seed(vlans, rows[0]);
      (if rows[0].name in seeded then RebindCalls(seeded[rows[0].name], ConfiguredKey(rows[0])) else [])
      + PassCalls(vlans, rows[1..])
  }

  /** Two trackers that agree on the names in `names`. */
  ghost predicate AgreeOn(v1: VlanMap, v2: VlanMap, names: set<string>) {
    forall n :: n in names ==> (n in v1 <==> n in v2) && (n in v1 ==> v1[n] == v2[n])
  }

  /** The calls and faults of a pass depend only on the tracked VLANs its rows name. */
  lemma {:induction false} PassFrame(plugin: Provider, v1: VlanMap, v2: VlanMap, rows: seq<VlanRow>)
    requires AgreeOn(v1, v2, Names(rows))
    ensures PassCalls(v1, rows) == PassCalls(v2, rows)
    ensures PassFaults(plugin, v1, rows) <==> PassFaults(plugin, v2, rows)
    decreases |rows|
  {
    forall row | row in rows ensures RowFaults(plugin, v1, row) == RowFaults(plugin, v2, row) {
      assert row.name in Names(rows);
    }
    if |rows| > 0 {
      NamesCons(rows);
      assert rows[0].name in Names(rows);
      PassFrame(plugin, v1, v2, rows[1..]);
    }
  }

  /**
   * Over rows with distinct names, the pass faults exactly when some row
   * needs an operation the provider lacks to move its VLAN from the key it
   * was tracked with before the pass; when it goes through, the provider
   * receives each row's rebind against that tracker, in row order.
   */
  lemma {:induction false} CheckVlanStateChangeTrace(plugin: Provider, vlans: VlanMap, rows: seq<VlanRow>)
    requires DistinctNames(rows)
    ensures CheckVlanStateChange(plugin, vlans, rows).Err? <==> PassFaults(plugin, vlans, rows)
    ensures CheckVlanStateChange(plugin, vlans, rows).Ok? ==> CheckVlanStateChange(plugin, vlans, rows).value.1 == PassCalls(vlans, rows)
    decreases |rows|
  {
    if |rows| == 0 {
      assert !PassFaults(plugin, vlans, rows);
    } else {
      var row0 := rows[0];
      var tail := rows[1..];
      assert DistinctNames(tail) by {
        forall i, j | 0 <= i < j < |tail| ensures tail[i].name != tail[j].name {
          assert tail[i] == rows[i + 1] && tail[j] == rows[j + 1];
        }
      }
      assert row0.name !in Names(tail) by {
        forall x | x in tail ensures x.name != row0.name {
          var j :| 0 <= j < |tail| && tail[j] == x;
          assert rows[j + 1] == x;
        }
      }
      assert forall x :: x in rows <==> x == row0 || x in tail by {
        assert rows == [row0] + tail;
      }
      var sync := SyncVlan(plugin, vlans, row0);
      if sync.Ok? {
        assert !RowFaults(plugin, vlans, row0);
        assert AgreeOn(sync.value.0, vlans, Names(tail));
        PassFrame(plugin, sync.value.0, vlans, tail);
        CheckVlanStateChangeTrace(plugin, sync.value.0, tail);
        assert PassFaults(plugin, vlans, rows) <==> PassFaults(plugin, vlans, tail);
      } else {
        assert RowFaults(plugin, vlans, row0);
      }
    }
  }

  /**
   * Moving a tracked VLAN to another key and back restores the tracker,
   * and the second move's calls undo the first's: unbind from the new key
   * and bind to the old one.
   */
  lemma SyncVlanRoundTrip(plugin: Provider, vlans: VlanMap, row: VlanRow)
    requires row.name in vlans
    requires plugin.unbindAllPortsOnVlan && plugin.bindAllPortsOnVlan
    ensures var node := vlans[row.name];
            var there := SyncVlan(plugin, vlans, row);
            var back := SyncVlan(plugin, there.value.0, row.(logicalSwitchKey := Some(node.tunnelKey)));
            && there == Ok((vlans[row.name := node.(tunnelKey := ConfiguredKey(row))], RebindCalls(node, ConfiguredKey(row))))
            && back == Ok((vlans, RebindCalls(node.(tunnelKey := ConfiguredKey(row)), node.tunnelKey)))
  {
    var node := vlans[row.name];
    var there := SyncVlan(plugin, vlans, row);
    var row' := row.(logicalSwitchKey := Some(node.tunnelKey));
    assert Seed(vlans, row) == vlans;
    assert Seed(there.value.0, row') == there.value.0;
    assert there.value.0[row.name := node] == vlans;
  }
}
