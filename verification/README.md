# VXLAN switchd plugin and tunnel CLI helpers — a Dafny model

This project models the reconciliation core of the OpenSwitch VXLAN
support:

- the **logical-switch reconciler** (`vxlan-switchd-plugin/src/logical_switch.c`).
  On each bridge reconfiguration it diffs the Logical_Switch table against
  the bridge's index of logical switches. It sends DEL, then ADD, then MOD
  calls to the ASIC provider through `set_logical_switch`;
- the **VLAN and port trackers** (`vxlan-switchd-plugin/src/vxlan_plugin.c`).
  They remember which tunnel key each VLAN is bound to and which VLAN each
  access port is on, and bind or unbind ports on the provider as VLANs and
  ports change. The cached provider lookup `get_asic_plugin` is here too;
- the **tunnel CLI helpers** (`src/cli/tunnel/tunnel_vty.c`). These edit the
  space-separated `vni_list` option, set one interface option with
  skip-if-unchanged, and map a transaction's outcome to a command status.

Every callback is a pure function. It takes the tracker state and the
database rows the callback reads. It returns either the new state together
with the provider calls in the order they are made, or the `Fault` that
stops the process. Faults stand for a failed `assert(0)`, for a `NULL`
dereference or a `NULL` handed to `strcmp` or `xstrdup`, and for a read
through a stored `cfg` pointer whose row has left the table
(`StaleLogicalSwitchRow`, logical_switch.c:288-293). The last three are
undefined behaviour in C. The `vni_list` removal reports its undefined
cases separately, as a `VniListFault`. The provider is a record
saying which of its five operations it implements.

Modules:

- `Common`: `Option` and `Result`.
- `Asic`: the provider, the calls, the faults, and `GetAsicPlugin`.
- `LogicalSwitch`: the reconciler and its passes.
- `LogicalSwitchProps`: properties that span several passes or several providers.
- `LogicalSwitchScenarios`: concrete passes.
- `VlanTracker`: `vxlan_check_vlan_state_change`.
- `PortTracker`: the port callbacks.
- `VniList`: the `vni_list` string edits.
- `TunnelCli`: `txn_status_and_log` and `set_intf_option`.

Behaviours of the source worth knowing, each modelled as the code is written:

- **No bridge filter when adding.** The add loop walks the rows of every
  bridge (logical_switch.c:273-276). A row of another bridge is therefore
  indexed and sent as an ADD, and the next delete pass removes it again.
  See `ForeignRowChurns`. Idempotence is proved for tables whose rows all
  belong to the bridge.
- **The ADD name is the description.** The ADD payload's name is
  overwritten by the description whenever the row has one
  (logical_switch.c:116-120). See `AddPayloadCarriesDescriptionAsName`.
- **`strcmp` on a missing string is a fault.** `logical_switch_update`
  compares nullable strings with `strcmp` (logical_switch.c:174-175).
  Setting a description on a switch created without one is therefore a
  fault, and no MOD is sent. See `SegAFirstDescriptionFaults`.
- **Removing a port's VLAN tag is a fault.** Recording the new VLAN name
  dereferences the port's `vlan_tag`, which is `NULL` once the tag is
  removed (vxlan_plugin.c:369).
- **Deleting a never-bound port is a fault.** A port that was never moved
  onto a VLAN has a `NULL` VLAN name, and the unbind looks that name up
  (vxlan_plugin.c:398).
- **`vni_list` removal is asymmetric.** When the head of the list is the
  VNI, only the head is dropped and later duplicates stay. When the head
  is another VNI, every occurrence is dropped (tunnel_vty.c:798-816).
- **Adding to an empty `vni_list` does nothing.** A list that is present
  but holds no token is returned unchanged (tunnel_vty.c:746-760).

## Model

| member | source | states |
|---|---|---|
| `Asic.GetAsicPlugin` | vxlan-switchd-plugin/src/vxlan_plugin.c:126-150 | A cached provider is returned as it is. Otherwise the registry's provider is returned and becomes the cache. An empty cache with an empty registry is the `assert(0)` fault, and it is the only failure. |
| `Asic.GetAsicPluginIsCached` | vxlan-switchd-plugin/src/vxlan_plugin.c:131-132 | After one successful lookup, every later lookup returns the same provider and leaves the cache alone, whatever the registry then holds. |
| `LogicalSwitch.SetLogicalSwitch` | vxlan-switchd-plugin/src/logical_switch.c:321-340 | The call reaches the provider, and is recorded, exactly when a provider is present and implements the operation. Otherwise the result is EOPNOTSUPP and nothing is sent. |
| `LogicalSwitch.LookupInIndex` | vxlan-switchd-plugin/src/logical_switch.c:370-386 | An entry is found exactly when the key is indexed under that bridge name. The entry found carries that bridge and key. |
| `LogicalSwitch.RowById` | vxlan-switchd-plugin/src/logical_switch.c:288-294 | The row an entry's `cfg` designates is found if it is still in the table. When it is absent, no row has that identity. |
| `LogicalSwitch.Snapshot` | vxlan-switchd-plugin/src/logical_switch.c:236-248 | The snapshot's keys are exactly the tunnel keys of the rows on this bridge. Each key maps to a row of the bridge that carries that key. |
| `LogicalSwitch.SnapshotFirstWins` | vxlan-switchd-plugin/src/logical_switch.c:242-246 | When a key is repeated on the bridge, the snapshot keeps the first row with that key, as `shash_add_once` does. |
| `LogicalSwitch.LogicalSwitchDelete` | vxlan-switchd-plugin/src/logical_switch.c:130-153 | One DEL carrying the entry's stored name, description and key is sent when the provider supports it. Nothing is sent otherwise. |
| `LogicalSwitch.DeletePass` | vxlan-switchd-plugin/src/logical_switch.c:250-267 | An entry stays exactly when its key is in the snapshot. Each removed entry gets one DEL with its stored copies, and every DEL is for a removed entry. Kept plus removed entries account for the whole index. With an empty snapshot the whole index is torn down. |
| `LogicalSwitch.LogicalSwitchCreate` | vxlan-switchd-plugin/src/logical_switch.c:85-125 | The new entry is appended to the index whether or not the provider accepts the call. The ADD is sent only when the provider supports it. |
| `LogicalSwitch.AddPass` | vxlan-switchd-plugin/src/logical_switch.c:269-283 | Only ADDs are sent, and the index only grows at its end. Afterwards the keys under the bridge are the earlier keys plus every row's key. New entries come from rows whose key was not yet indexed, and they carry distinct keys. The k-th ADD is the k-th new entry's row. |
| `LogicalSwitch.StrcmpDiffers` | vxlan-switchd-plugin/src/logical_switch.c:174-175 | The comparison is defined exactly when both strings are present, and then it says whether they differ. |
| `LogicalSwitch.Strdup` | vxlan-switchd-plugin/src/logical_switch.c:182-183 | The copy is defined exactly when the string is present, and then it is that string. |
| `LogicalSwitch.LogicalSwitchUpdate` | vxlan-switchd-plugin/src/logical_switch.c:158-192 | It faults exactly on the inputs where `strcmp` or `xstrdup` is handed a missing string. Otherwise both stored strings become the row's. One MOD with the row's key and strings is sent exactly when the name or description differed and the provider supports it. |
| `LogicalSwitch.UpdateEntry` | vxlan-switchd-plugin/src/logical_switch.c:288-295 | An entry whose row has left the table is a fault. A row that is modified and was not inserted is compared. Any other entry is left alone. The step faults exactly when the row is gone or the comparison faults. |
| `LogicalSwitch.UpdatePass` | vxlan-switchd-plugin/src/logical_switch.c:285-297 | Every entry keeps its place, bridge, key and row. Each entry whose row refreshes takes the row's strings. With a supporting provider, the k-th MOD carries the row of the k-th entry (in index order) whose row refreshes and differs, and there are no other calls. The pass faults exactly when some entry's row has left the table or its comparison faults. |
| `LogicalSwitchProps.UpdatePassModCount` | vxlan-switchd-plugin/src/logical_switch.c:285-297 | Over a well-formed index, the number of MODs equals the number of distinct entries whose row refreshes and differs. |
| `LogicalSwitch.Reconcile` | vxlan-switchd-plugin/src/logical_switch.c:205-301 | An empty table tears the index down with one DEL per entry. A table with no change flag is a no-op. Otherwise the provider sees all DELs, then all ADDs, then all MODs. |
| `LogicalSwitch.PhasesOrdered` | vxlan-switchd-plugin/src/logical_switch.c:250-297 | A trace made of DEL calls, then ADD calls, then MOD calls is ordered by action. |
| `LogicalSwitchProps.DeletePassKeepsCovered` | vxlan-switchd-plugin/src/logical_switch.c:254-265 | The delete pass removes nothing and sends nothing when every indexed key is in the snapshot. |
| `LogicalSwitchProps.AddPassKeepsIndexed` | vxlan-switchd-plugin/src/logical_switch.c:273-282 | The add pass adds nothing when every row's key is already indexed under the bridge. |
| `LogicalSwitchProps.UpdatedEntrySettles` | vxlan-switchd-plugin/src/logical_switch.c:174-176 | An entry already refreshed from its row compares equal to it, so the next update sends no MOD and faults nowhere. |
| `LogicalSwitchProps.UpdatePassSettled` | vxlan-switchd-plugin/src/logical_switch.c:288-296 | An update pass over settled entries leaves the index unchanged and sends nothing. |
| `LogicalSwitchProps.UpdatePassIdempotent` | vxlan-switchd-plugin/src/logical_switch.c:285-297 | A second update pass over the index the first one left sends nothing and changes nothing. |
| `LogicalSwitchProps.SettledKeys` | vxlan-switchd-plugin/src/logical_switch.c:250-283 | After the delete and add passes, every indexed key belongs to some row of the bridge, provided all rows are on the bridge. |
| `LogicalSwitchProps.UpdatePhaseSettles` | vxlan-switchd-plugin/src/logical_switch.c:285-297 | The update phase keeps every key in place and is idempotent. |
| `LogicalSwitchProps.DeletePhaseSettles` | vxlan-switchd-plugin/src/logical_switch.c:250-267 | After a pass, the delete phase of the same table finds nothing to delete. |
| `LogicalSwitchProps.AddPhaseSettles` | vxlan-switchd-plugin/src/logical_switch.c:269-283 | After a pass, the add phase of the same table finds nothing to add. |
| `LogicalSwitchProps.ReconcileByPhases` | vxlan-switchd-plugin/src/logical_switch.c:236-297 | A pass with changes is its three guarded phases, run in order, with their calls concatenated. |
| `LogicalSwitchProps.ReconcileOfSettled` | vxlan-switchd-plugin/src/logical_switch.c:236-297 | When all three phases find nothing to do, the pass is a no-op. |
| `LogicalSwitchProps.ReconcileIdempotent` | vxlan-switchd-plugin/src/logical_switch.c:205-301 | When all rows belong to the bridge, a second pass on the same table and the index the first left sends no call and leaves the index as it was. |
| `LogicalSwitchProps.DeletePassIgnoresProvider` | vxlan-switchd-plugin/src/logical_switch.c:146-149 | The entries the delete pass keeps do not depend on the provider, because the return code is ignored. |
| `LogicalSwitchProps.AddPassIgnoresProvider` | vxlan-switchd-plugin/src/logical_switch.c:105-124 | The entries the add pass appends do not depend on the provider. |
| `LogicalSwitchProps.UpdatePassIgnoresProvider` | vxlan-switchd-plugin/src/logical_switch.c:182-189 | Whether the update pass faults, and the index it leaves, do not depend on the provider. |
| `LogicalSwitchProps.ReconcileIgnoresProvider` | vxlan-switchd-plugin/src/logical_switch.c:205-301 | Whether a pass faults, which fault it is, and the index it leaves are the same under any two providers. |
| `LogicalSwitchProps.ReconcileWithoutProviderSendsNothing` | vxlan-switchd-plugin/src/logical_switch.c:329-335 | Without a provider implementing `set_logical_switch`, a pass records no call. |
| `LogicalSwitchProps.DeletePassTrace` | vxlan-switchd-plugin/src/logical_switch.c:254-266 | The keys kept by the delete pass are the old keys minus the keys it sent DEL for. |
| `LogicalSwitchProps.AddPassTrace` | vxlan-switchd-plugin/src/logical_switch.c:273-282 | The keys after the add pass are the old keys plus the keys it sent ADD for. |
| `LogicalSwitchProps.ReconcileTraceMatchesIndex` | vxlan-switchd-plugin/src/logical_switch.c:205-301 | With a supporting provider, the keys indexed after a pass are the keys before, minus the DEL keys, plus the ADD keys of the pass's trace. |
| `LogicalSwitchProps.AddPassAddsMissingKeysOnce` | vxlan-switchd-plugin/src/logical_switch.c:273-282 | The ADD keys are exactly the row keys not yet indexed under the bridge, and no two ADDs share a key. |
| `LogicalSwitchProps.DeletePassKeepsWellFormed` | vxlan-switchd-plugin/src/logical_switch.c:254-266 | Deleting entries keeps the index on one bridge with distinct keys. |
| `LogicalSwitchProps.AddPassKeepsWellFormed` | vxlan-switchd-plugin/src/logical_switch.c:273-282 | Adding entries keeps the index on one bridge with distinct keys. |
| `LogicalSwitchProps.UpdatePassKeepsWellFormed` | vxlan-switchd-plugin/src/logical_switch.c:288-296 | Updating entries keeps the index on one bridge with distinct keys. |
| `LogicalSwitchProps.ReconcileKeepsWellFormed` | vxlan-switchd-plugin/src/logical_switch.c:205-301 | A pass keeps the bridge's index well formed: one bridge, and no two entries share a tunnel key. |
| `LogicalSwitchScenarios.SegALifecycle` | vxlan-switchd-plugin/src/logical_switch.c:217-283 | Inserting "seg-a" sends one ADD with key 5000. Emptying the table then sends one DEL with the stored copies and empties the index. |
| `LogicalSwitchScenarios.SegADescriptionChanged` | vxlan-switchd-plugin/src/logical_switch.c:174-189 | Changing the description from "dev" to "prod" sends one MOD with the new strings and updates the stored copy. |
| `LogicalSwitchScenarios.SegAFirstDescriptionFaults` | vxlan-switchd-plugin/src/logical_switch.c:174 | Setting a description on a switch stored without one hands `NULL` to `strcmp`, so the pass faults. |
| `LogicalSwitchScenarios.ForeignRowChurns` | vxlan-switchd-plugin/src/logical_switch.c:273-276 | A row of bridge "br1" is indexed and sent as an ADD under "br0". The next delete pass of "br0" sends a DEL for it. |
| `LogicalSwitchScenarios.AddPayloadCarriesDescriptionAsName` | vxlan-switchd-plugin/src/logical_switch.c:116-121 | The ADD payload's name is the row's description when the row has one. |
| `VlanTracker.Seed` | vxlan-switchd-plugin/src/vxlan_plugin.c:164-176 | An inserted VLAN name not yet tracked gets a node with the row's id and key 0. A tracked name keeps its node, and no other node changes. |
| `VlanTracker.Require` | vxlan-switchd-plugin/src/vxlan_plugin.c:197-217 | A provider operation is called when the provider implements it. Otherwise the result is the `assert(0)` fault naming the missing operation. |
| `VlanTracker.SyncVlan` | vxlan-switchd-plugin/src/vxlan_plugin.c:160-222 | An untracked VLAN is left alone. A tracked VLAN faults exactly when its key must change and the provider lacks a needed operation. Otherwise its key becomes the row's logical-switch key and no other VLAN changes. The calls unbind all ports from the old key (if not 0), then bind all to the new key (if not 0), both with the tracked VLAN id. |
| `VlanTracker.CheckVlanStateChange` | vxlan-switchd-plugin/src/vxlan_plugin.c:153-225 | The tracker gains exactly the inserted VLAN names. VLANs without a row are unchanged, and no tracked VLAN id changes. |
| `VlanTracker.CheckVlanStateChangeSyncs` | vxlan-switchd-plugin/src/vxlan_plugin.c:183-221 | Over rows with distinct names, every tracked VLAN with a row ends bound to the key its row asks for. |
| `VlanTracker.CheckVlanStateChangeOfSynced` | vxlan-switchd-plugin/src/vxlan_plugin.c:183-192 | When every tracked VLAN already has its row's key and every inserted name is tracked, the pass sends nothing and changes nothing. |
| `VlanTracker.PassFrame` | vxlan-switchd-plugin/src/vxlan_plugin.c:183-192 | A pass's calls and faults depend only on the tracked VLANs that its rows name. |
| `VlanTracker.CheckVlanStateChangeTrace` | vxlan-switchd-plugin/src/vxlan_plugin.c:153-225 | Over rows with distinct names, the pass faults exactly when some row needs an unbind-all or bind-all that the provider lacks, judged against the tracker before the pass. When it goes through, the calls are each row's unbind-all from its old key (if any), then bind-all to its new key (if any), in row order. |
| `VlanTracker.CheckVlanStateChangeIdempotent` | vxlan-switchd-plugin/src/vxlan_plugin.c:153-225 | A second pass over the same rows on the tracker the first one left sends nothing and changes nothing. |
| `VlanTracker.SyncVlanRoundTrip` | vxlan-switchd-plugin/src/vxlan_plugin.c:190-220 | Moving a VLAN to a new key and back restores the tracker. The second move's calls undo the first's. |
| `PortTracker.PortAdd` | vxlan-switchd-plugin/src/vxlan_plugin.c:240-262 | The tracker gains exactly the names of inserted or modified ports. New nodes have VLAN 0 and no VLAN name, and existing nodes are kept. |
| `PortTracker.BindPortVlan` | vxlan-switchd-plugin/src/vxlan_plugin.c:265-292 | An untracked or unbound VLAN sends nothing. A bound VLAN sends one bind on its key and VLAN id for the port. A missing operation is the fault, and it is the only failure. |
| `PortTracker.UnbindPortVlan` | vxlan-switchd-plugin/src/vxlan_plugin.c:296-323 | A `NULL` VLAN name is a fault. Otherwise the behaviour mirrors binding: nothing for an untracked or unbound VLAN, one unbind on its key and id, and the fault exactly when the operation is missing. |
| `PortTracker.BindUnbindMirror` | vxlan-switchd-plugin/src/vxlan_plugin.c:283-320 | For a bound VLAN, binding and unbinding a port name the same key, VLAN id and port. |
| `PortTracker.PortUpdate` | vxlan-switchd-plugin/src/vxlan_plugin.c:326-373 | Non-access ports, untracked ports and unchanged VLANs are left alone. Otherwise the port's node records the tag's id and name, and no other port changes. The calls are the unbind from the tracked VLAN when the old id is non-zero and that VLAN is bound, then the bind on the tagged VLAN when the new id is non-zero and that VLAN is bound. The update faults exactly when the old VLAN name is `NULL`, when an unbind or bind is needed that the provider lacks, or when the tag was removed. |
| `PortTracker.PortUpdateFirstBind` | vxlan-switchd-plugin/src/vxlan_plugin.c:355-371 | Moving a port from VLAN 0 onto a tagged VLAN sends no unbind. It sends one bind on that VLAN's key when the VLAN is bound, and records the tag. |
| `PortTracker.PortUpdateIdempotent` | vxlan-switchd-plugin/src/vxlan_plugin.c:355-371 | Updating a port again with the same row sends nothing and changes nothing. |
| `PortTracker.PortUpdateRebinds` | vxlan-switchd-plugin/src/vxlan_plugin.c:357-369 | Moving an access port between two bound VLANs unbinds it from the old VLAN's key, then binds it on the new VLAN's key, and records the new VLAN. |
| `PortTracker.PortUpdateTagRemovalFaults` | vxlan-switchd-plugin/src/vxlan_plugin.c:357-369 | Removing the tag of a port that is on a VLAN faults on the `NULL` tag once the unbind has gone through. |
| `PortTracker.PortDelete` | vxlan-switchd-plugin/src/vxlan_plugin.c:376-403 | Every unwanted live port must be tracked. Exactly those ports leave the tracker, and the other nodes are unchanged. The calls are, in live-port order, one unbind for each unwanted port whose recorded VLAN is bound, on that VLAN's key and id. |
| `PortTracker.PortDeleteFaults` | vxlan-switchd-plugin/src/vxlan_plugin.c:390-399 | Over distinct live ports, a delete pass faults exactly when some unwanted port is untracked, was never bound, or needs an unbind the provider lacks. |
| `PortTracker.AddThenDeleteFaults` | vxlan-switchd-plugin/src/vxlan_plugin.c:255-257 | A port added by the add callback and deleted before any rebind faults on its `NULL` VLAN name. |
| `VniList.Tokens` | src/cli/tunnel/tunnel_vty.c:746-749 | What `strtok(…, " ")` returns: every token is non-empty and holds no space. |
| `VniList.Filter` | src/cli/tunnel/tunnel_vty.c:806-811 | The kept tokens are exactly the input tokens other than the VNI. |
| `VniList.TokensOfJoin` | src/cli/tunnel/tunnel_vty.c:746-757 | Round trip: splitting a single-spaced list of tokens gives back the tokens. |
| `VniList.JoinNormalizes` | src/cli/tunnel/tunnel_vty.c:746-757 | Joining a list's tokens with single spaces keeps its tokens. |
| `VniList.AddVniToList` | src/cli/tunnel/tunnel_vty.c:717-776 | The token walk returns `vni` for a missing list. It returns the list unchanged when the list has no token or holds `vni`. Otherwise it returns the tokens, single-spaced, then `vni`. |
| `VniList.VniRemoved` | src/cli/tunnel/tunnel_vty.c:779-824 | There is no defined result exactly for a missing list, a list with no token, or a list that is only the VNI. |
| `VniList.RemoveVniFromList` | src/cli/tunnel/tunnel_vty.c:779-824 | The token walk with its trailing-space trim returns the list `VniRemoved` describes, or the same fault. |
| `VniList.AddVniTokens` | src/cli/tunnel/tunnel_vty.c:745-770 | After adding a VNI, the list's tokens are the old tokens, plus the VNI at the end if it was absent. |
| `VniList.AddVniIdempotent` | src/cli/tunnel/tunnel_vty.c:717-776 | Adding the same VNI twice is adding it once. |
| `VniList.RemoveVniTokens` | src/cli/tunnel/tunnel_vty.c:798-821 | After removal the tokens are all but the VNI's occurrences when the head is another VNI, and all but the head when the head is the VNI. |
| `VniList.RemoveVniNoTrailingSpace` | src/cli/tunnel/tunnel_vty.c:818-821 | A defined result of the removal is never empty and never ends with a space. |
| `VniList.RemoveAfterAdd` | src/cli/tunnel/tunnel_vty.c:717-824 | Removing a VNI just added to a list that lacked it gives back the list, single-spaced. |
| `TunnelCli.TxnStatusAndLog` | src/cli/tunnel/tunnel_vty.c:176-191 | The command succeeds exactly when the commit succeeded or had nothing to change. Every other outcome is an OVSDB failure. |
| `TunnelCli.SetIntfOption` | src/cli/tunnel/tunnel_vty.c:527-566 | Nothing is written, and the command succeeds, exactly when the option already has the requested value or is unset and asked to stay unset. A failed transaction start writes nothing and fails. Otherwise the written options hold the new value (or lack the key for `NULL`), every other key is unchanged, and the status is the commit's. |
| `TunnelCli.SetIntfOptionSettles` | src/cli/tunnel/tunnel_vty.c:538-543 | Once written, the same command is skipped: it succeeds without a transaction. |
| `TunnelCli.SetThenUnsetOption` | src/cli/tunnel/tunnel_vty.c:553-560 | Setting a key and then unsetting it leaves the other options as they were, without that key. |

## Left out

- `logical_switch_lookup_by_key_in_shash` (logical_switch.c:356-368) is the
  membership test `key in snap` inside `DeletePass`. The bridge half of the
  hash key is always the current bridge there, so only the key is compared.
- `set_logical_switch` also answers EOPNOTSUPP for a `NULL` payload
  (logical_switch.c:329). Every caller passes a payload, so the model has none.
- `NULL` bridge, port and row guards (logical_switch.c:93, 136, 165, 213;
  vxlan_plugin.c:230, 330-337, 383) are left out. Every input of the model
  has a bridge and a row, so those early returns cannot be taken.
- Hash-map iteration order is unspecified in the source. The bridge's
  index and the list of live ports are sequences in a fixed order, and new
  index entries are appended. The properties hold for every order.
- The `logical_switch_hash` string format and hash buckets are left out.
  Lookups compare the bridge name and the key directly.
- Tunnel keys of logical switches lie in [0, 2^31), where the `(int)`
  cast at logical_switch.c:110 is the identity (VNIs are 24-bit). VLAN
  ids are 12-bit. The VLAN tracker's keys are unbounded naturals.
- When a pass faults, the calls made before the fault are dropped. The
  model reports only the fault.
- The callbacks take the provider that the lookup returned. The cache of
  `get_asic_plugin` is modelled on its own by `Asic.GetAsicPlugin`.
  Repeated lookups inside one callback return the same provider
  (`GetAsicPluginIsCached`).
- The ADD payload's name is left uninitialised when the row has neither
  name nor description (logical_switch.c:90, 116-120). The model sends
  `None` there.
- The VLAN tracker never deletes a VLAN node, and neither does the source.
- The `TUNNEL_MAX_VNIS_IN_VNI_LIST` buffer bound is left out. Lists longer
  than the buffer are not truncated in the model.
- `strtok` writes into its input, which the source casts away from `const`.
  This is left out; lists are immutable values.
- Memory leaks (the `xstrdup` copies that are never freed, and the nodes
  that `shash_add_once` rejects) and logging are left out.
- `init`, `run`, `wait`, `destroy` and the bridge-init callbacks are left
  out because they only register callbacks or do nothing.
- `vxlan_bridge_reconfigure_cb` (vxlan_plugin.c:228-237) is only its `NULL`
  guard plus `CheckVlanStateChange`.
- The rest of `tunnel_vty.c` (command definitions, show commands, other
  option setters) is left out; `SetIntfOption` covers what they share.
  Starting and committing an OVSDB transaction are inputs to the model
  (`txnStarted`, `commit`).
- `src/vxlan-switchd-plugin/src/vxlan_plugin.c` is an older duplicate of the
  plugin and is not part of this model. The header files and the
  component and feature tests are not part of this model either.
- `VlanTracker.SyncVlan` states its calls for the success case only. When
  the bind-all faults, the unbind-all already sent is not described (see above).
- `PortTracker.PortUpdate` states its calls for the success case only. When
  the bind or the `NULL` tag faults, the unbind already sent is not described.
- `VlanTracker.CheckVlanStateChange` has its exact calls and fault condition
  proved only over rows with distinct VLAN names (`CheckVlanStateChangeTrace`).
  With a repeated name, a later row sees the key an earlier row recorded, and
  no closed form is given for that case.
- `LogicalSwitchProps.UpdatePassModCount` counts MODs against distinct entries
  only for well-formed indexes. For other indexes the position-by-position
  statement of `UpdatePass` still holds.
