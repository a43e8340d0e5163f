/**
 * The logical-switch reconciler of vxlan-switchd-plugin/src/logical_switch.c:
 * one `bridge_reconfigure` pass diffs the Logical_Switch table against the
 * bridge's index of logical switches and reports every `set_logical_switch`
 * call the provider receives, DEL calls first, then ADD, then MOD.
 */
module LogicalSwitch {
  import opened Common
  import opened Asic

  /**
   * Tunnel keys the index stores through an `(int)` cast of the row's 64-bit
   * key; on this range (VNIs are 24-bit) the cast is the identity.
   */
  type TunnelKey = k: int | 0 <= k < 0x8000_0000

  /** A Logical_Switch row: `id` is the row's identity, `bridge` its bridge's name. */
  datatype LsRow = LsRow(
    id: nat,
    bridge: string,
    tunnelKey: TunnelKey,
    name: Option<string>,
    description: Option<string>,
    inserted: bool,
    modified: bool)

  /** The table as one pass sees it: its rows, and the table-level change flags. */
  datatype LsTable = LsTable(rows: seq<LsRow>, anyInserted: bool, anyModified: bool, anyDeleted: bool)

  /** A `struct logical_switch`: its bridge, the row it was made from, and copies of key, name and description. */
  datatype LsEntry = LsEntry(
    bridge: string,
    cfg: nat,
    tunnelKey: TunnelKey,
    name: Option<string>,
    description: Option<string>)

  /** One bridge's `logical_switches` map, in iteration order. */
  type LsIndex = seq<LsEntry>

  /** A pass's effect: the index it leaves and the calls the provider received. */
  datatype LsPass = LsPass(index: LsIndex, calls: seq<HwCall>)

  /** Return code of `set_logical_switch`: EOPNOTSUPP, or whatever the provider answered. */
  datatype Rc = Eopnotsupp | ProviderRc

  /**
   * The provider implements `set_logical_switch`. `None` is the `NULL` that
   * `get_asic_plugin` hands back when no provider is registered and its
   * `assert(0)` is compiled out; `set_logical_switch` guards against it.
   */
  predicate Supported(plugin: Option<Provider>) {
    plugin.Some? && plugin.value.setLogicalSwitch
  }

  function KeysOf(index: LsIndex): set<int> {
    set e | e in index :: e.tunnelKey
  }

  /** The tunnel keys indexed under bridge `br`. */
  function KeysOn(index: LsIndex, br: string): set<int> {
    set e | e in index && e.bridge == br :: e.tunnelKey
  }

  /** The tunnel keys of a list of rows. */
  function RowKeys(rows: seq<LsRow>): set<int> {
    set row | row in rows :: row.tunnelKey
  }

  /** No two entries of the index share a (bridge, tunnel key) and all belong to `br`. */
  ghost predicate WellFormed(index: LsIndex, br: string) {
    && (forall e :: e in index ==> e.bridge == br)
    && (forall i, j :: 0 <= i < j < |index| ==> index[i].tunnelKey != index[j].tunnelKey)
  }

  /** Every row of the table belongs to bridge `br`. */
  ghost predicate AllOnBridge(rows: seq<LsRow>, br: string) {
    forall row :: row in rows ==> row.bridge == br
  }

  /** Every call of `calls` is a `set_logical_switch` call with this action. */
  ghost predicate AllOfAction(calls: seq<HwCall>, a: LsAction) {
    forall c :: c in calls ==> c.LsCall? && c.action == a
  }

  function Rank(c: HwCall): nat {
    if !c.LsCall? then 3
    else match c.action
      case LsDel => 0
      case LsAdd => 1
      case LsMod => 2
  }

  /**
   * `set_logical_switch`: the call reaches the provider only when a provider
   * is registered and implements the operation; otherwise EOPNOTSUPP.
   */
  function SetLogicalSwitch(plugin: Option<Provider>, action: LsAction, node: LsNode): (r: (Rc, seq<HwCall>))
    ensures r.0 == Eopnotsupp <==> !Supported(plugin)
    ensures Supported(plugin) ==> r.1 == [LsCall(action, node)]
    ensures !Supported(plugin) ==> r.1 == []
  {
    if plugin.None? then (Eopnotsupp, [])
    else if plugin.value.setLogicalSwitch then (ProviderRc, [LsCall(action, node)])
    else (Eopnotsupp, [])
  }

  /** The entry `logical_switch_create` stores for a row. */
  function NewEntry(br: string, row: LsRow): LsEntry {
    LsEntry(br, row.id, row.tunnelKey, row.name, row.description)
  }

  /**
   * The ADD payload: the payload's name is the row's name, overwritten by
   * the description whenever the row has one.
   */
  function AddPayload(row: LsRow): LsNode {
    LsNode(if row.description.Some? then row.description else row.name, row.description, row.tunnelKey)
  }

  function AddCall(row: LsRow): HwCall {
    LsCall(LsAdd, AddPayload(row))
  }

  /** The DEL payload carries the stored copies. */
  function DelCall(e: LsEntry): HwCall {
    LsCall(LsDel, LsNode(e.name, e.description, e.tunnelKey))
  }

  /** The MOD payload carries the row's key and its current strings. */
  function ModCall(row: LsRow): HwCall {
    LsCall(LsMod, LsNode(row.name, row.description, row.tunnelKey))
  }

  /** `logical_switch_lookup_by_key_in_hmap`: the first entry with this bridge name and key. */
  function LookupInIndex(index: LsIndex, br: string, key: int): (r: Option<LsEntry>)
    ensures r.Some? <==> key in KeysOn(index, br)
    ensures r.Some? ==> r.value in index && r.value.bridge == br && r.value.tunnelKey == key
  {
    if |index| == 0 then None
    else
      assert forall e :: e in index <==> e == index[0] || e in index[1..] by {
        assert index == [index[0]] + index[1..];
      }
      if index[0].bridge == br && index[0].tunnelKey == key then Some(index[0])
      else LookupInIndex(index[1..], br, key)
  }

  /** The row a stored `cfg` pointer designates, if it is still in the table. */
  function RowById(rows: seq<LsRow>, id: nat): (r: Option<LsRow>)
    ensures r.Some? ==> r.value in rows && r.value.id == id
    ensures r.None? ==> forall row :: row in rows ==> row.id != id
  {
    if |rows| == 0 then None
    else if rows[0].id == id then Some(rows[0])
    else RowById(rows[1..], id)
  }

  /** The tunnel keys of the rows on bridge `br`. */
  function RowKeysOn(rows: seq<LsRow>, br: string): set<int> {
    set row | row in rows && row.bridge == br :: row.tunnelKey
  }

  /** Row `i` is on bridge `br` and no earlier row on `br` has its key. */
  ghost predicate FirstOfKey(rows: seq<LsRow>, br: string, i: int) {
    && 0 <= i < |rows|
    && rows[i].bridge == br
    && forall j :: 0 <= j < i ==> !(rows[j].bridge == br && rows[j].tunnelKey == rows[i].tunnelKey)
  }

  /**
   * The snapshot of the rows on bridge `br`, keyed by tunnel key (the
   * bridge half of the key is `br` throughout): exactly the keys of those
   * rows, each mapped to one of them (the first, see `SnapshotFirstWins`).
   */
  function Snapshot(rows: seq<LsRow>, br: string): (m: map<TunnelKey, LsRow>)
    ensures m.Keys == RowKeysOn(rows, br)
    ensures forall k :: k in m ==> m[k] in rows && m[k].bridge == br && m[k].tunnelKey == k
  {
    if |rows| == 0 then map[]
    else
      var rest := Snapshot(rows[1..], br);
      assert forall x :: x in rows <==> x == rows[0] || x in rows[1..] by {
        assert rows == [rows[0]] + rows[1..];
      }
      if rows[0].bridge == br then rest[rows[0].tunnelKey := rows[0]] else rest
  }

  /**
   * For a key repeated on the bridge, the snapshot keeps the first row,
   * as `shash_add_once` does.
   */
  lemma {:induction false} SnapshotFirstWins(rows: seq<LsRow>, br: string, i: int)
    requires FirstOfKey(rows, br, i)
    ensures rows[i].tunnelKey in Snapshot(rows, br) && Snapshot(rows, br)[rows[i].tunnelKey] == rows[i]
    decreases |rows|
  {
    if i > 0 {
      assert FirstOfKey(rows[1..], br, i - 1) by {
        forall j | 0 <= j < i - 1
          ensures !(rows[1..][j].bridge == br && rows[1..][j].tunnelKey == rows[1..][i - 1].tunnelKey)
        {
          assert rows[1..][j] == rows[j + 1];
        }
      }
      SnapshotFirstWins(rows[1..], br, i - 1);
      assert !(rows[0].bridge == br && rows[0].tunnelKey == rows[i].tunnelKey);
    }
  }

  /** `logical_switch_delete`: tell the provider, then drop the entry (whatever the provider answered). */
  function LogicalSwitchDelete(plugin: Option<Provider>, e: LsEntry): (calls: seq<HwCall>)
    ensures Supported(plugin) ==> calls == [DelCall(e)]
    ensures !Supported(plugin) ==> calls == []
  {
    SetLogicalSwitch(plugin, LsDel, LsNode(e.name, e.description, e.tunnelKey)).1
  }

  /**
   * The delete pass (and, with an empty snapshot, the full teardown): every
   * entry whose key is missing from the snapshot gets one DEL carrying its
   * stored copies and leaves the index; the others stay, in order.
   */
  function DeletePass(plugin: Option<Provider>, index: LsIndex, snap: map<TunnelKey, LsRow>): (r: LsPass)
    ensures forall e :: e in r.index <==> e in index && e.tunnelKey in snap
    ensures (forall e :: e in index ==> e.tunnelKey !in snap) ==> r.index == []
    ensures AllOfAction(r.calls, LsDel)
    ensures forall c :: c in r.calls ==> exists e :: e in index && e.tunnelKey !in snap && c == DelCall(e)
    ensures Supported(plugin) ==> forall e :: e in index && e.tunnelKey !in snap ==> DelCall(e) in r.calls
    ensures Supported(plugin) ==> |r.calls| + |r.index| == |index|
    ensures !Supported(plugin) ==> r.calls == []
    decreases |index|
  {
    if |index| == 0 then LsPass([], [])
    else
      var e := index[0];
      var rest := DeletePass(plugin, index[1..], snap);
      assert forall x :: x in index <==> x == e || x in index[1..];
      if e.tunnelKey in snap then LsPass([e] + rest.index, rest.calls)
      else LsPass(rest.index, LogicalSwitchDelete(plugin, e) + rest.calls)
  }

  /** `logical_switch_create`: append the new entry and send ADD (whatever the provider answered). */
  function LogicalSwitchCreate(plugin: Option<Provider>, br: string, row: LsRow, index: LsIndex): (r: LsPass)
    ensures r.index == index + [NewEntry(br, row)]
    ensures Supported(plugin) ==> r.calls == [AddCall(row)]
    ensures !Supported(plugin) ==> r.calls == []
  {
    LsPass(index + [NewEntry(br, row)], SetLogicalSwitch(plugin, LsAdd, AddPayload(row)).1)
  }

  /** `r` starts with `index`. */
  ghost predicate Extends(index: LsIndex, r: LsIndex) {
    |index| <= |r| && r[..|index|] == index
  }

  /** Every entry `r` has beyond `index` was made from a row whose key was not indexed under `br`. */
  ghost predicate NewEntriesFrom(br: string, rows: seq<LsRow>, index: LsIndex, r: LsIndex) {
    forall i :: |index| <= i < |r| ==>
      exists row :: row in rows && r[i] == NewEntry(br, row) && row.tunnelKey !in KeysOn(index, br)
  }

  /** The entries `r` has beyond `index` carry pairwise distinct keys. */
  ghost predicate NewKeysDistinct(index: LsIndex, r: LsIndex) {
    forall i, j :: |index| <= i < j < |r| ==> r[i].tunnelKey != r[j].tunnelKey
  }

  /** The `i`-th call is the ADD of a row whose entry sits `i` places after the first `base` entries. */
  ghost predicate AddCallAt(br: string, rows: seq<LsRow>, r: LsPass, base: nat, i: nat)
    requires i < |r.calls| && base + i < |r.index|
  {
    exists row :: row in rows && r.index[base + i] == NewEntry(br, row) && r.calls[i] == AddCall(row)
  }

  /** The ADD calls match the new entries position by position. */
  ghost predicate AddCallsMatch(plugin: Option<Provider>, br: string, rows: seq<LsRow>, index: LsIndex, r: LsPass) {
    && (Supported(plugin) ==> |r.calls| == |r.index| - |index|)
    && (Supported(plugin) ==> forall i: nat :: i < |r.calls| && |index| + i < |r.index| ==> AddCallAt(br, rows, r, |index|, i))
    && (!Supported(plugin) ==> r.calls == [])
  }

  lemma KeysOnAppend(index: LsIndex, e: LsEntry, br: string)
    ensures KeysOn(index + [e], br) == KeysOn(index, br) + (if e.bridge == br then {e.tunnelKey} else {})
  {
    assert forall x :: x in index + [e] <==> x in index || x == e;
  }

  lemma RowKeysCons(rows: seq<LsRow>)
    requires |rows| > 0
    ensures RowKeys(rows) == {rows[0].tunnelKey} + RowKeys(rows[1..])
  {
    assert forall x :: x in rows <==> x == rows[0] || x in rows[1..] by {
      assert rows == [rows[0]] + rows[1..];
    }
  }

  /** The effect of one row of the add pass. */
  function AddStep(plugin: Option<Provider>, br: string, row: LsRow, index: LsIndex): (r: LsPass)
    ensures KeysOn(r.index, br) == KeysOn(index, br) + {row.tunnelKey}
  {
    if LookupInIndex(index, br, row.tunnelKey).None? then
      KeysOnAppend(index, NewEntry(br, row), br);
      LogicalSwitchCreate(plugin, br, row, index)
    else LsPass(index, [])
  }

  /**
   * The add pass walks every row of the table (of any bridge) and creates
   * an entry for each key not yet indexed under `br`; the index grows
   * during the walk, so a repeated key is added once, for its first row.
   * Afterwards the keys indexed under `br` are the earlier ones plus every
   * row's key.
   */
  function AddPass(plugin: Option<Provider>, br: string, rows: seq<LsRow>, index: LsIndex): (r: LsPass)
    ensures AllOfAction(r.calls, LsAdd)
    ensures Extends(index, r.index)
    ensures KeysOn(r.index, br) == KeysOn(index, br) + RowKeys(rows)
    ensures NewEntriesFrom(br, rows, index, r.index)
    ensures NewKeysDistinct(index, r.index)
    ensures AddCallsMatch(plugin, br, rows, index, r)
    decreases |rows|
  {
    if |rows| == 0 then LsPass(index, [])
    else
      var step := AddStep(plugin, br, rows[0], index);
      var rest := AddPass(plugin, br, rows[1..], step.index);
      var r := LsPass(rest.index, step.calls + rest.calls);
      RowKeysCons(rows);
      AddStepExtends(plugin, br, rows[0], index, step, rest.index);
      AddStepNewEntries(plugin, br, rows, index, step, rest.index);
      AddStepDistinct(plugin, br, rows, index, step, rest.index);
      AddStepCalls(plugin, br, rows, index, step, rest, r);
      AllOfActionConcat(step.calls, rest.calls, LsAdd);
      r
  }

  lemma AllOfActionConcat(x: seq<HwCall>, y: seq<HwCall>, a: LsAction)
    requires AllOfAction(x, a) && AllOfAction(y, a)
    ensures AllOfAction(x + y, a)
  {
  }

  lemma AddStepExtends(plugin: Option<Provider>, br: string, row0: LsRow, index: LsIndex, step: LsPass, rest: LsIndex)
    requires step == AddStep(plugin, br, row0, index)
    requires Extends(step.index, rest)
    ensures Extends(index, rest)
    ensures |step.index| == |index| + (if row0.tunnelKey in KeysOn(index, br) then 0 else 1)
    ensures row0.tunnelKey !in KeysOn(index, br) ==> step.index[|index|] == NewEntry(br, row0)
  {
    assert rest[..|index|] == rest[..|step.index|][..|index|];
  }

  lemma AddStepNewEntries(plugin: Option<Provider>, br: string, rows: seq<LsRow>, index: LsIndex, step: LsPass, rest: LsIndex)
    requires |rows| > 0
    requires step == AddStep(plugin, br, rows[0], index)
    requires Extends(step.index, rest)
    requires NewEntriesFrom(br, rows[1..], step.index, rest)
    ensures NewEntriesFrom(br, rows, index, rest)
  {
    AddStepExtends(plugin, br, rows[0], index, step, rest);
    forall i | |index| <= i < |rest|
      ensures exists row :: row in rows && rest[i] == NewEntry(br, row) && row.tunnelKey !in KeysOn(index, br)
    {
      if i < |step.index| {
        assert rest[i] == step.index[i] == NewEntry(br, rows[0]);
        assert rows[0] in rows;
      } else {
        var row := NewEntryAt(br, rows[1..], step.index, rest, i);
        assert KeysOn(index, br) <= KeysOn(step.index, br);
        assert row in rows;
      }
    }
  }

  /** The row a new entry was made from. */
  lemma NewEntryAt(br: string, rows: seq<LsRow>, index: LsIndex, r: LsIndex, i: int) returns (row: LsRow)
    requires NewEntriesFrom(br, rows, index, r)
    requires |index| <= i < |r|
    ensures row in rows && r[i] == NewEntry(br, row) && row.tunnelKey !in KeysOn(index, br)
  {
    var e := r[i];
    assert exists row :: row in rows && e == NewEntry(br, row) && row.tunnelKey !in KeysOn(index, br);
    row :| row in rows && e == NewEntry(br, row) && row.tunnelKey !in KeysOn(index, br);
  }

  lemma AddStepDistinct(plugin: Option<Provider>, br: string, rows: seq<LsRow>, index: LsIndex, step: LsPass, rest: LsIndex)
    requires |rows| > 0
    requires step == AddStep(plugin, br, rows[0], index)
    requires Extends(step.index, rest)
    requires NewEntriesFrom(br, rows[1..], step.index, rest)
    requires NewKeysDistinct(step.index, rest)
    ensures NewKeysDistinct(index, rest)
  {
    AddStepExtends(plugin, br, rows[0], index, step, rest);
    forall i, j | |index| <= i < j < |rest|
      ensures rest[i].tunnelKey != rest[j].tunnelKey
    {
      if i < |step.index| {
        assert rest[i] == step.index[i] == NewEntry(br, rows[0]);
        assert |step.index| == |index| + 1 && |step.index| <= j < |rest|;
        var later := rest[j];
        var row :| row in rows[1..] && later == NewEntry(br, row) && row.tunnelKey !in KeysOn(step.index, br);
      }
    }
  }

  lemma AddStepCalls(plugin: Option<Provider>, br: string, rows: seq<LsRow>, index: LsIndex, step: LsPass, rest: LsPass, r: LsPass)
    requires |rows| > 0
    requires step == AddStep(plugin, br, rows[0], index)
    requires Extends(step.index, rest.index)
    requires AddCallsMatch(plugin, br, rows[1..], step.index, rest)
    requires r == LsPass(rest.index, step.calls + rest.calls)
    ensures AddCallsMatch(plugin, br, rows, index, r)
  {
    AddStepExtends(plugin, br, rows[0], index, step, rest.index);
    if Supported(plugin) {
      assert |step.calls| == |step.index| - |index|;
      forall i: nat | i < |r.calls| && |index| + i < |r.index|
        ensures AddCallAt(br, rows, r, |index|, i)
      {
        if i < |step.calls| {
          assert i == 0 && step.calls == [AddCall(rows[0])];
          assert r.calls[i] == AddCall(rows[0]);
          assert r.index[|index| + i] == step.index[|index|] == NewEntry(br, rows[0]);
          assert rows[0] in rows;
        } else {
          var i' := i - |step.calls|;
          assert r.calls[i] == rest.calls[i'];
          assert |step.index| + i' == |index| + i;
          assert AddCallAt(br, rows[1..], rest, |step.index|, i');
          var row :| row in rows[1..] && rest.index[|step.index| + i'] == NewEntry(br, row) && rest.calls[i'] == AddCall(row);
          assert row in rows;
        }
      }
    }
  }

  /** The update pass looks at an entry only when its row is modified and was not inserted. */
  predicate Refreshes(row: LsRow) {
    !row.inserted && row.modified
  }

  /** `strcmp` on two nullable strings: `NULL` is a fault, otherwise whether they differ. */
  function StrcmpDiffers(a: Option<string>, b: Option<string>): (r: Result<bool, Fault>)
    ensures r.Ok? <==> a.Some? && b.Some?
    ensures r.Ok? ==> (r.value <==> a != b)
  {
    if a.None? || b.None? then Err(NullStrcmpArgument) else Ok(a.value != b.value)
  }

  /** `xstrdup` of a nullable string. */
  function Strdup(a: Option<string>): (r: Result<string, Fault>)
    ensures r.Ok? <==> a.Some?
    ensures r.Ok? ==> a == Some(r.value)
  {
    if a.None? then Err(NullStrdupArgument) else Ok(a.value)
  }

  /** The entry differs from its row in name or description, and the update pass would look at it. */
  ghost predicate NeedsMod(e: LsEntry, row: LsRow) {
    Refreshes(row) && (e.description != row.description || e.name != row.name)
  }

  /** `NeedsMod` for the row the entry's `cfg` designates, if it is still there. */
  ghost predicate NeedsModIn(rows: seq<LsRow>, e: LsEntry) {
    RowById(rows, e.cfg).Some? && NeedsMod(e, RowById(rows, e.cfg).value)
  }

  /**
   * The inputs on which `logical_switch_update` hands `NULL` to `strcmp`
   * (either description, or either name when the descriptions agree) or to
   * `xstrdup` (the row's name when the descriptions differ).
   */
  ghost predicate UpdateFaults(e: LsEntry, row: LsRow) {
    || e.description.None? || row.description.None?
    || (e.description == row.description && (e.name.None? || row.name.None?))
    || (e.description != row.description && row.name.None?)
  }

  /**
   * `logical_switch_update`: compare description, then name, and on a
   * difference refresh both copies and send MOD with the row's key and
   * strings. The tunnel key is never compared.
   */
  function LogicalSwitchUpdate(plugin: Option<Provider>, e: LsEntry, row: LsRow): (r: Result<(LsEntry, seq<HwCall>), Fault>)
    requires Refreshes(row)
    ensures r.Err? <==> UpdateFaults(e, row)
    ensures r.Ok? ==> row.name.Some? && row.description.Some?
    ensures r.Ok? ==> r.value.0 == e.(name := row.name, description := row.description)
    ensures r.Ok? && NeedsMod(e, row) && Supported(plugin) ==> r.value.1 == [ModCall(row)]
    ensures r.Ok? && !(NeedsMod(e, row) && Supported(plugin)) ==> r.value.1 == []
  {
    var descDiffers :- StrcmpDiffers(e.description, row.description);
    var differs :- if descDiffers then Ok(true) else StrcmpDiffers(e.name, row.name);
    if !differs then Ok((e, []))
    else
      var name :- Strdup(row.name);
      Ok((e.(name := Some(name), description := row.description),
          SetLogicalSwitch(plugin, LsMod, LsNode(row.name, row.description, row.tunnelKey)).1))
  }

  /**
   * `e'` is what the update pass leaves for `e`: the row's strings (both
   * present) if it refreshes, `e` otherwise.
   */
  ghost predicate UpdatedEntry(rows: seq<LsRow>, e: LsEntry, e': LsEntry) {
    && RowById(rows, e.cfg).Some?
    && var row := RowById(rows, e.cfg).value;
       if Refreshes(row) then
         row.name.Some? && row.description.Some? && e' == e.(name := row.name, description := row.description)
       else e' == e
  }

  /** The entry's step of the update pass faults: its row was freed, or the row refreshes and comparing with it faults. */
  ghost predicate EntryFaults(rows: seq<LsRow>, e: LsEntry) {
    RowById(rows, e.cfg).None? || (Refreshes(RowById(rows, e.cfg).value) && UpdateFaults(e, RowById(rows, e.cfg).value))
  }

  /** One entry of the update pass: find its row (a freed row is a fault), then maybe update. */
  function UpdateEntry(plugin: Option<Provider>, rows: seq<LsRow>, e: LsEntry): (r: Result<(LsEntry, seq<HwCall>), Fault>)
    ensures r.Ok? ==> UpdatedEntry(rows, e, r.value.0)
    ensures r.Ok? && NeedsMod(e, RowById(rows, e.cfg).value) && Supported(plugin) ==>
              r.value.1 == [ModCall(RowById(rows, e.cfg).value)]
    ensures r.Ok? && !(NeedsMod(e, RowById(rows, e.cfg).value) && Supported(plugin)) ==> r.value.1 == []
    ensures RowById(rows, e.cfg).None? ==> r == Err(StaleLogicalSwitchRow(e.cfg))
    ensures RowById(rows, e.cfg).Some? ==>
              (r.Err? <==> Refreshes(RowById(rows, e.cfg).value) && UpdateFaults(e, RowById(rows, e.cfg).value))
    ensures r.Err? <==> EntryFaults(rows, e)
  {
    var found := RowById(rows, e.cfg);
    if found.None? then Err(StaleLogicalSwitchRow(e.cfg))
    else if Refreshes(found.value) then LogicalSwitchUpdate(plugin, e, found.value)
    else Ok((e, []))
  }

  /** The entries of `index` that need a MOD, in index order. */
  ghost function Needing(rows: seq<LsRow>, index: LsIndex): (r: LsIndex)
    ensures forall e :: e in r <==> e in index && NeedsModIn(rows, e)
    ensures |r| <= |index|
  {
    if |index| == 0 then []
    else
      assert forall x :: x in index <==> x == index[0] || x in index[1..];
      (if NeedsModIn(rows, index[0]) then [index[0]] else []) + Needing(rows, index[1..])
  }

  /** The MOD for an entry that needs one: the row's key and strings. */
  ghost function ModFor(rows: seq<LsRow>, e: LsEntry): HwCall
    requires NeedsModIn(rows, e)
  {
    ModCall(RowById(rows, e.cfg).value)
  }

  /** `calls` is one MOD per entry of `es`, in the same order. */
  ghost predicate ModsFor(rows: seq<LsRow>, es: LsIndex, calls: seq<HwCall>)
    requires forall e :: e in es ==> NeedsModIn(rows, e)
  {
    |calls| == |es| && forall i :: 0 <= i < |es| ==> calls[i] == ModFor(rows, es[i])
  }

  /**
   * The update pass over every indexed entry (including those just added):
   * a MOD exactly for the entries whose row refreshes and differs, carrying
   * the row's strings; keys, bridges and rows of the entries are kept.
   */
  function UpdatePass(plugin: Option<Provider>, rows: seq<LsRow>, index: LsIndex): (r: Result<LsPass, Fault>)
    ensures r.Ok? ==> |r.value.index| == |index|
    ensures r.Ok? ==> forall i :: 0 <= i < |index| ==> UpdatedEntry(rows, index[i], r.value.index[i])
    ensures r.Ok? ==> AllOfAction(r.value.calls, LsMod)
    ensures r.Ok? ==> forall c :: c in r.value.calls ==>
              exists e :: e in index && NeedsModIn(rows, e) && c == ModCall(RowById(rows, e.cfg).value)
    ensures r.Ok? && Supported(plugin) ==> forall e :: e in index && NeedsModIn(rows, e) ==>
              ModCall(RowById(rows, e.cfg).value) in r.value.calls
    ensures r.Ok? && !Supported(plugin) ==> r.value.calls == []
    ensures r.Ok? && Supported(plugin) ==> ModsFor(rows, Needing(rows, index), r.value.calls)
    ensures r.Err? <==> exists e :: e in index && EntryFaults(rows, e)
    decreases |index|
  {
    if |index| == 0 then Ok(LsPass([], []))
    else
      assert forall x :: x in index <==> x == index[0] || x in index[1..];
      assert index[0] in index;
      var head :- UpdateEntry(plugin, rows, index[0]);
      var rest :- UpdatePass(plugin, rows, index[1..]);
      ModsForCons(plugin, rows, index, head.1, rest.calls);
      Ok(LsPass([head.0] + rest.index, head.1 + rest.calls))
  }

  lemma ModsForCons(plugin: Option<Provider>, rows: seq<LsRow>, index: LsIndex, head: seq<HwCall>, rest: seq<HwCall>)
    requires |index| > 0 && RowById(rows, index[0].cfg).Some?
    requires NeedsModIn(rows, index[0]) && Supported(plugin) ==> head == [ModFor(rows, index[0])]
    requires !(NeedsModIn(rows, index[0]) && Supported(plugin)) ==> head == []
    requires Supported(plugin) ==> ModsFor(rows, Needing(rows, index[1..]), rest)
    ensures Supported(plugin) ==> ModsFor(rows, Needing(rows, index), head + rest)
  {
    if Supported(plugin) {
      var tail := Needing(rows, index[1..]);
      if NeedsModIn(rows, index[0]) {
        assert Needing(rows, index) == [index[0]] + tail;
        forall i | 0 <= i < |tail| + 1 ensures (head + rest)[i] == ModFor(rows, ([index[0]] + tail)[i]) {
          if i > 0 {
            assert (head + rest)[i] == rest[i - 1];
            assert ([index[0]] + tail)[i] == tail[i - 1];
          }
        }
      } else {
        assert Needing(rows, index) == [] + tail == tail;
        assert head + rest == rest;
      }
    }
  }

  predicate AnyChange(table: LsTable) {
    table.anyInserted || table.anyModified || table.anyDeleted
  }

  /** The delete pass runs when some row was deleted or modified. */
  function DeletePhase(plugin: Option<Provider>, table: LsTable, snap: map<TunnelKey, LsRow>, index: LsIndex): (r: LsPass)
    ensures AllOfAction(r.calls, LsDel)
  {
    if table.anyDeleted || table.anyModified then DeletePass(plugin, index, snap) else LsPass(index, [])
  }

  /** The add pass runs when some row was inserted or modified. */
  function AddPhase(plugin: Option<Provider>, br: string, table: LsTable, index: LsIndex): (r: LsPass)
    ensures AllOfAction(r.calls, LsAdd)
  {
    if table.anyInserted || table.anyModified then AddPass(plugin, br, table.rows, index) else LsPass(index, [])
  }

  /** The update pass runs when some row was modified. */
  function UpdatePhase(plugin: Option<Provider>, table: LsTable, index: LsIndex): (r: Result<LsPass, Fault>)
    ensures r.Ok? ==> AllOfAction(r.value.calls, LsMod)
  {
    if table.anyModified then UpdatePass(plugin, table.rows, index) else Ok(LsPass(index, []))
  }

  /**
   * `log_switch_callback_bridge_reconfig` for bridge `br`: an empty table
   * tears the index down; an unchanged table is a no-op; otherwise the
   * delete, add and update passes run, each guarded by the table flags.
   */
  function Reconcile(plugin: Option<Provider>, br: string, table: LsTable, index: LsIndex): (r: Result<LsPass, Fault>)
    ensures |table.rows| == 0 ==> r.Ok? && r.value.index == []
    ensures |table.rows| == 0 ==> AllOfAction(r.value.calls, LsDel)
    ensures |table.rows| == 0 && Supported(plugin) ==>
              |r.value.calls| == |index| && forall e :: e in index ==> DelCall(e) in r.value.calls
    ensures |table.rows| > 0 && !AnyChange(table) ==> r == Ok(LsPass(index, []))
    ensures r.Ok? ==> forall i, j :: 0 <= i < j < |r.value.calls| ==> Rank(r.value.calls[i]) <= Rank(r.value.calls[j])
  {
    if |table.rows| == 0 then
      Ok(DeletePass(plugin, index, map[]))
    else if !AnyChange(table) then Ok(LsPass(index, []))
    else
      var d := DeletePhase(plugin, table, Snapshot(table.rows, br), index);
      var a := AddPhase(plugin, br, table, d.index);
      var u :- UpdatePhase(plugin, table, a.index);
      PhasesOrdered(d.calls, a.calls, u.calls);
      Ok(LsPass(u.index, d.calls + a.calls + u.calls))
  }

  /** DEL calls, then ADD calls, then MOD calls form a trace sorted by `Rank`. */
  lemma PhasesOrdered(d: seq<HwCall>, a: seq<HwCall>, u: seq<HwCall>)
    requires AllOfAction(d, LsDel) && AllOfAction(a, LsAdd) && AllOfAction(u, LsMod)
    ensures var t := d + a + u; forall i, j :: 0 <= i < j < |t| ==> Rank(t[i]) <= Rank(t[j])
  {
    var t := d + a + u;
    forall i | 0 <= i < |t|
      ensures Rank(t[i]) == if i < |d| then 0 else if i < |d| + |a| then 1 else 2
    {
      if i < |d| { assert t[i] in d; }
      else if i < |d| + |a| { assert t[i] == a[i - |d|]; assert t[i] in a; }
      else { assert t[i] == u[i - |d| - |a|]; assert t[i] in u; }
    }
  }
}
