/**
 * Properties of the logical-switch reconciler that relate several passes
 * or several providers: a second pass over the same table is a no-op, the
 * index does not depend on the provider, the provider's DEL/ADD trace
 * accounts for the index, the index keeps its keys distinct, and the update
 * pass sends one MOD per entry that needs one.
 */
module LogicalSwitchProps {
  import opened Common
  import opened Asic
  import opened LogicalSwitch

  /** The tunnel keys carried by the `set_logical_switch` calls with action `a`. */
  function CallKeys(calls: seq<HwCall>, a: LsAction): set<int> {
    set c | c in calls && c.LsCall? && c.action == a :: c.node.tunnelKey
  }

  /** Two indexes hold the same (bridge, key) pairs position by position. */
  ghost predicate SameKeys(a: LsIndex, b: LsIndex) {
    && |a| == |b|
    && forall i :: 0 <= i < |a| ==> a[i].bridge == b[i].bridge && a[i].tunnelKey == b[i].tunnelKey
  }

  lemma SameKeysSets(a: LsIndex, b: LsIndex, br: string)
    requires SameKeys(a, b)
    ensures KeysOn(a, br) == KeysOn(b, br)
    ensures KeysOf(a) == KeysOf(b)
  {
    forall e | e in a ensures e.tunnelKey in KeysOf(b) && (e.bridge == br ==> e.tunnelKey in KeysOn(b, br)) {
      var i :| 0 <= i < |a| && a[i] == e;
      assert b[i] in b;
    }
    forall e | e in b ensures e.tunnelKey in KeysOf(a) && (e.bridge == br ==> e.tunnelKey in KeysOn(a, br)) {
      var i :| 0 <= i < |b| && b[i] == e;
      assert a[i] in a;
    }
  }

  lemma CallKeysConcat(x: seq<HwCall>, y: seq<HwCall>, a: LsAction)
    ensures CallKeys(x + y, a) == CallKeys(x, a) + CallKeys(y, a)
  {
    assert forall c :: c in x + y <==> c in x || c in y;
  }

  lemma CallKeysOtherAction(calls: seq<HwCall>, a: LsAction, b: LsAction)
    requires AllOfAction(calls, a) && a != b
    ensures CallKeys(calls, b) == {}
  {
  }

  /** The update pass keeps every entry's bridge and key. */
  lemma UpdatePassSameKeys(plugin: Option<Provider>, rows: seq<LsRow>, index: LsIndex)
    requires UpdatePass(plugin, rows, index).Ok?
    ensures SameKeys(index, UpdatePass(plugin, rows, index).value.index)
  {
    var u := UpdatePass(plugin, rows, index).value;
    forall i | 0 <= i < |index| ensures u.index[i].bridge == index[i].bridge && u.index[i].tunnelKey == index[i].tunnelKey {
      assert UpdatedEntry(rows, index[i], u.index[i]);
    }
  }

  // ---------------------------------------------------------------------
  // A second pass over the same table changes nothing and calls nothing.
  // ---------------------------------------------------------------------

  /** The delete pass removes nothing when every indexed key is in the snapshot. */
  lemma {:induction false} DeletePassKeepsCovered(plugin: Option<Provider>, index: LsIndex, snap: map<TunnelKey, LsRow>)
    requires forall i :: 0 <= i < |index| ==> index[i].tunnelKey in snap
    ensures DeletePass(plugin, index, snap) == LsPass(index, [])
    decreases |index|
  {
    if |index| > 0 {
      DeletePassKeepsCovered(plugin, index[1..], snap);
      assert index[0].tunnelKey in snap;
      assert [index[0]] + index[1..] == index;
    }
  }

  /** The add pass adds nothing when every row's key is already indexed under the bridge. */
  lemma {:induction false} AddPassKeepsIndexed(plugin: Option<Provider>, br: string, rows: seq<LsRow>, index: LsIndex)
    requires RowKeys(rows) <= KeysOn(index, br)
    ensures AddPass(plugin, br, rows, index) == LsPass(index, [])
    decreases |rows|
  {
    if |rows| > 0 {
      RowKeysCons(rows);
      assert LookupInIndex(index, br, rows[0].tunnelKey).Some?;
      AddPassKeepsIndexed(plugin, br, rows[1..], index);
    }
  }

  /** An entry the update step has refreshed is left alone by the next update step. */
  lemma UpdatedEntrySettles(plugin: Option<Provider>, rows: seq<LsRow>, e: LsEntry, e': LsEntry)
    requires UpdatedEntry(rows, e, e')
    ensures UpdateEntry(plugin, rows, e') == Ok((e', []))
  {
    assert e'.cfg == e.cfg;
  }

  /** The update pass changes nothing on an index whose every entry is settled. */
  lemma {:induction false} UpdatePassSettled(plugin: Option<Provider>, rows: seq<LsRow>, x: LsIndex)
    requires forall i :: 0 <= i < |x| ==> UpdateEntry(plugin, rows, x[i]) == Ok((x[i], []))
    ensures UpdatePass(plugin, rows, x) == Ok(LsPass(x, []))
    decreases |x|
  {
    if |x| > 0 {
      assert UpdateEntry(plugin, rows, x[0]) == Ok((x[0], []));
      UpdatePassSettled(plugin, rows, x[1..]);
      var none: seq<HwCall> := [];
      assert [x[0]] + x[1..] == x && none + none == none;
    }
  }

  lemma UpdatePassIdempotent(plugin: Option<Provider>, rows: seq<LsRow>, index: LsIndex)
    requires UpdatePass(plugin, rows, index).Ok?
    ensures var u := UpdatePass(plugin, rows, index).value;
            UpdatePass(plugin, rows, u.index) == Ok(LsPass(u.index, []))
  {
    var u := UpdatePass(plugin, rows, index).value;
    forall i | 0 <= i < |u.index| ensures UpdateEntry(plugin, rows, u.index[i]) == Ok((u.index[i], [])) {
      UpdatedEntrySettles(plugin, rows, index[i], u.index[i]);
    }
    UpdatePassSettled(plugin, rows, u.index);
  }

  /**
   * After the delete and add passes, every indexed key is a key of some row
   * of the bridge, provided that held before the add pass; the update pass
   * keeps it.
   */
  lemma SettledKeys(br: string, rows: seq<LsRow>, d: LsIndex, a: LsIndex, u: LsIndex)
    requires AllOnBridge(rows, br)
    requires forall e :: e in d ==> e.tunnelKey in Snapshot(rows, br)
    requires Extends(d, a) && NewEntriesFrom(br, rows, d, a)
    requires SameKeys(a, u)
    ensures forall i :: 0 <= i < |u| ==> u[i].tunnelKey in Snapshot(rows, br)
  {
    forall i | 0 <= i < |a| ensures a[i].tunnelKey in RowKeysOn(rows, br) {
      if i < |d| {
        assert a[i] == a[..|d|][i] == d[i];
        assert d[i] in d;
      } else {
        var entry := a[i];
        var row :| row in rows && entry == NewEntry(br, row) && row.tunnelKey !in KeysOn(d, br);
        assert row.bridge == br;
      }
    }
  }

  /** The update phase, run again on what it left, changes nothing and keeps every key in place. */
  lemma UpdatePhaseSettles(plugin: Option<Provider>, table: LsTable, index: LsIndex)
    requires UpdatePhase(plugin, table, index).Ok?
    ensures var u := UpdatePhase(plugin, table, index).value;
            && SameKeys(index, u.index)
            && UpdatePhase(plugin, table, u.index) == Ok(LsPass(u.index, []))
  {
    if table.anyModified {
      UpdatePassSameKeys(plugin, table.rows, index);
      UpdatePassIdempotent(plugin, table.rows, index);
    }
  }

  /** After a pass, the delete phase of the same table has nothing left to delete. */
  lemma DeletePhaseSettles(plugin: Option<Provider>, br: string, table: LsTable, index: LsIndex)
    requires AllOnBridge(table.rows, br)
    requires var d := DeletePhase(plugin, table, Snapshot(table.rows, br), index);
             UpdatePhase(plugin, table, AddPhase(plugin, br, table, d.index).index).Ok?
    ensures var snap := Snapshot(table.rows, br);
            var d := DeletePhase(plugin, table, snap, index);
            var u := UpdatePhase(plugin, table, AddPhase(plugin, br, table, d.index).index).value;
            DeletePhase(plugin, table, snap, u.index) == LsPass(u.index, [])
  {
    var snap := Snapshot(table.rows, br);
    var d := DeletePhase(plugin, table, snap, index);
    var a := AddPhase(plugin, br, table, d.index);
    var u := UpdatePhase(plugin, table, a.index).value;
    if table.anyDeleted || table.anyModified {
      UpdatePhaseSettles(plugin, table, a.index);
      assert a.index[..|d.index|] == d.index;
      SettledKeys(br, table.rows, d.index, a.index, u.index);
      DeletePassKeepsCovered(plugin, u.index, snap);
    }
  }

  /** After a pass, the add phase of the same table has nothing left to add. */
  lemma AddPhaseSettles(plugin: Option<Provider>, br: string, table: LsTable, d: LsIndex)
    requires UpdatePhase(plugin, table, AddPhase(plugin, br, table, d).index).Ok?
    ensures var u := UpdatePhase(plugin, table, AddPhase(plugin, br, table, d).index).value;
            AddPhase(plugin, br, table, u.index) == LsPass(u.index, [])
  {
    var a := AddPhase(plugin, br, table, d);
    var u := UpdatePhase(plugin, table, a.index).value;
    if table.anyInserted || table.anyModified {
      UpdatePhaseSettles(plugin, table, a.index);
      SameKeysSets(a.index, u.index, br);
      AddPassKeepsIndexed(plugin, br, table.rows, u.index);
    }
  }

  /** A pass with changes is its three phases, their calls in order. */
  lemma ReconcileByPhases(plugin: Option<Provider>, br: string, table: LsTable, index: LsIndex)
    requires |table.rows| > 0 && AnyChange(table)
    requires Reconcile(plugin, br, table, index).Ok?
    ensures var d := DeletePhase(plugin, table, Snapshot(table.rows, br), index);
            var a := AddPhase(plugin, br, table, d.index);
            var u := UpdatePhase(plugin, table, a.index);
            u.Ok? && Reconcile(plugin, br, table, index).value == LsPass(u.value.index, d.calls + a.calls + u.value.calls)
  {
  }

  /** A pass with changes whose three phases all find nothing to do is a no-op. */
  lemma ReconcileOfSettled(plugin: Option<Provider>, br: string, table: LsTable, x: LsIndex)
    requires |table.rows| > 0 && AnyChange(table)
    requires DeletePhase(plugin, table, Snapshot(table.rows, br), x) == LsPass(x, [])
    requires AddPhase(plugin, br, table, x) == LsPass(x, [])
    requires UpdatePhase(plugin, table, x) == Ok(LsPass(x, []))
    ensures Reconcile(plugin, br, table, x) == Ok(LsPass(x, []))
  {
    var none: seq<HwCall> := [];
    assert none + none + none == none;
  }

  /**
   * Idempotence: when every row of the table belongs to the bridge, running
   * the reconciler again on the same table and the index it left sends no
   * call and leaves the index unchanged.
   */
  lemma ReconcileIdempotent(plugin: Option<Provider>, br: string, table: LsTable, index: LsIndex)
    requires AllOnBridge(table.rows, br)
    requires Reconcile(plugin, br, table, index).Ok?
    ensures var p := Reconcile(plugin, br, table, index).value;
            Reconcile(plugin, br, table, p.index) == Ok(LsPass(p.index, []))
  {
    if |table.rows| == 0 {
      assert DeletePass(plugin, [], map[]) == LsPass([], []);
    } else if AnyChange(table) {
      var d := DeletePhase(plugin, table, Snapshot(table.rows, br), index);
      var a := AddPhase(plugin, br, table, d.index);
      ReconcileByPhases(plugin, br, table, index);
      DeletePhaseSettles(plugin, br, table, index);
      AddPhaseSettles(plugin, br, table, d.index);
      UpdatePhaseSettles(plugin, table, a.index);
      ReconcileOfSettled(plugin, br, table, UpdatePhase(plugin, table, a.index).value.index);
    }
  }

  // ---------------------------------------------------------------------
  // The index does not depend on the provider.
  // ---------------------------------------------------------------------

  lemma {:induction false} DeletePassIgnoresProvider(p1: Option<Provider>, p2: Option<Provider>, index: LsIndex, snap: map<TunnelKey, LsRow>)
    ensures DeletePass(p1, index, snap).index == DeletePass(p2, index, snap).index
    decreases |index|
  {
    if |index| > 0 {
      DeletePassIgnoresProvider(p1, p2, index[1..], snap);
    }
  }

  lemma {:induction false} AddPassIgnoresProvider(p1: Option<Provider>, p2: Option<Provider>, br: string, rows: seq<LsRow>, index: LsIndex)
    ensures AddPass(p1, br, rows, index).index == AddPass(p2, br, rows, index).index
    decreases |rows|
  {
    if |rows| > 0 {
      var s1 := AddStep(p1, br, rows[0], index);
      assert s1.index == AddStep(p2, br, rows[0], index).index;
      AddPassIgnoresProvider(p1, p2, br, rows[1..], s1.index);
    }
  }

  lemma {:induction false} UpdatePassIgnoresProvider(p1: Option<Provider>, p2: Option<Provider>, rows: seq<LsRow>, index: LsIndex)
    ensures UpdatePass(p1, rows, index).Ok? <==> UpdatePass(p2, rows, index).Ok?
    ensures UpdatePass(p1, rows, index).Err? ==> UpdatePass(p1, rows, index) == UpdatePass(p2, rows, index)
    ensures UpdatePass(p1, rows, index).Ok? ==> UpdatePass(p1, rows, index).value.index == UpdatePass(p2, rows, index).value.index
    decreases |index|
  {
    if |index| > 0 {
      var h1 := UpdateEntry(p1, rows, index[0]);
      var h2 := UpdateEntry(p2, rows, index[0]);
      assert h1.Err? ==> h1 == h2;
      assert h1.Ok? ==> h2.Ok? && h1.value.0 == h2.value.0;
      UpdatePassIgnoresProvider(p1, p2, rows, index[1..]);
    }
  }

  /**
   * Whether a pass faults, and the index it leaves, do not depend on which
   * provider is registered or which operations it implements: return codes
   * are ignored and the index is updated regardless.
   */
  lemma ReconcileIgnoresProvider(p1: Option<Provider>, p2: Option<Provider>, br: string, table: LsTable, index: LsIndex)
    ensures Reconcile(p1, br, table, index).Ok? <==> Reconcile(p2, br, table, index).Ok?
    ensures Reconcile(p1, br, table, index).Err? ==> Reconcile(p1, br, table, index) == Reconcile(p2, br, table, index)
    ensures Reconcile(p1, br, table, index).Ok? ==>
              Reconcile(p1, br, table, index).value.index == Reconcile(p2, br, table, index).value.index
  {
    if |table.rows| == 0 {
      DeletePassIgnoresProvider(p1, p2, index, map[]);
    } else if AnyChange(table) {
      var snap := Snapshot(table.rows, br);
      DeletePassIgnoresProvider(p1, p2, index, snap);
      var d := DeletePhase(p1, table, snap, index).index;
      assert d == DeletePhase(p2, table, snap, index).index;
      AddPassIgnoresProvider(p1, p2, br, table.rows, d);
      var a := AddPhase(p1, br, table, d).index;
      assert a == AddPhase(p2, br, table, d).index;
      UpdatePassIgnoresProvider(p1, p2, table.rows, a);
    }
  }

  /** Without a provider implementing `set_logical_switch`, a pass sends nothing. */
  lemma ReconcileWithoutProviderSendsNothing(plugin: Option<Provider>, br: string, table: LsTable, index: LsIndex)
    requires !Supported(plugin)
    requires Reconcile(plugin, br, table, index).Ok?
    ensures Reconcile(plugin, br, table, index).value.calls == []
  {
  }

  // ---------------------------------------------------------------------
  // The provider's trace accounts for the index.
  // ---------------------------------------------------------------------

  lemma DeletePassTrace(plugin: Option<Provider>, index: LsIndex, snap: map<TunnelKey, LsRow>)
    requires Supported(plugin)
    ensures var d := DeletePass(plugin, index, snap);
            KeysOf(d.index) == KeysOf(index) - CallKeys(d.calls, LsDel)
  {
    DeleteTrace(index, snap, DeletePass(plugin, index, snap));
  }

  /** The key account of any pass result that keeps the covered entries and sends DEL for the others. */
  lemma DeleteTrace(index: LsIndex, snap: map<TunnelKey, LsRow>, d: LsPass)
    requires forall e :: e in d.index <==> e in index && e.tunnelKey in snap
    requires forall c :: c in d.calls ==> exists e :: e in index && e.tunnelKey !in snap && c == DelCall(e)
    requires forall e :: e in index && e.tunnelKey !in snap ==> DelCall(e) in d.calls
    ensures KeysOf(d.index) == KeysOf(index) - CallKeys(d.calls, LsDel)
  {
    forall c | c in d.calls && c.LsCall? && c.action == LsDel ensures c.node.tunnelKey !in snap {
      var e :| e in index && e.tunnelKey !in snap && c == DelCall(e);
    }
    forall e | e in index && e.tunnelKey !in snap ensures e.tunnelKey in CallKeys(d.calls, LsDel) {
      assert DelCall(e) in d.calls;
    }
    forall k | k in KeysOf(index) - CallKeys(d.calls, LsDel) ensures k in KeysOf(d.index) {
      var e :| e in index && e.tunnelKey == k;
      assert e in d.index;
    }
  }

  lemma AddPassTrace(plugin: Option<Provider>, br: string, rows: seq<LsRow>, index: LsIndex)
    requires Supported(plugin)
    ensures var a := AddPass(plugin, br, rows, index);
            KeysOf(a.index) == KeysOf(index) + CallKeys(a.calls, LsAdd)
  {
    AddTrace(plugin, br, rows, index, AddPass(plugin, br, rows, index));
  }

  /** The key account of any pass result that extends the index with entries matching its ADD calls. */
  lemma AddTrace(plugin: Option<Provider>, br: string, rows: seq<LsRow>, index: LsIndex, a: LsPass)
    requires Supported(plugin)
    requires Extends(index, a.index) && AddCallsMatch(plugin, br, rows, index, a)
    ensures KeysOf(a.index) == KeysOf(index) + CallKeys(a.calls, LsAdd)
  {
    forall j | |index| <= j < |a.index|
      ensures a.index[j].tunnelKey in CallKeys(a.calls, LsAdd)
    {
      var i: nat := j - |index|;
      assert AddCallAt(br, rows, a, |index|, i);
      assert a.calls[i] in a.calls;
    }
    forall j | 0 <= j < |index| ensures a.index[j] == index[j] {
      assert a.index[j] == a.index[..|index|][j];
    }
    forall k | k in KeysOf(a.index) ensures k in KeysOf(index) + CallKeys(a.calls, LsAdd) {
      var e :| e in a.index && e.tunnelKey == k;
      var j :| 0 <= j < |a.index| && a.index[j] == e;
      if j < |index| {
        assert index[j] in index;
      }
    }
    forall k | k in KeysOf(index) + CallKeys(a.calls, LsAdd) ensures k in KeysOf(a.index) {
      if k in KeysOf(index) {
        var e :| e in index && e.tunnelKey == k;
        var j :| 0 <= j < |index| && index[j] == e;
        assert a.index[j] in a.index;
      } else {
        var c :| c in a.calls && c.LsCall? && c.action == LsAdd && c.node.tunnelKey == k;
        var i :| 0 <= i < |a.calls| && a.calls[i] == c;
        assert AddCallAt(br, rows, a, |index|, i);
        assert a.index[|index| + i] in a.index;
      }
    }
  }

  /** The delete, add and update phases' key accounts compose into one for the whole trace. */
  lemma ComposeTrace(before: set<int>, d: LsPass, a: LsPass, u: LsPass)
    requires AllOfAction(d.calls, LsDel) && AllOfAction(a.calls, LsAdd) && AllOfAction(u.calls, LsMod)
    requires KeysOf(d.index) == before - CallKeys(d.calls, LsDel)
    requires KeysOf(a.index) == KeysOf(d.index) + CallKeys(a.calls, LsAdd)
    requires KeysOf(u.index) == KeysOf(a.index)
    ensures var t := d.calls + a.calls + u.calls;
            KeysOf(u.index) == (before - CallKeys(t, LsDel)) + CallKeys(t, LsAdd)
  {
    CallKeysConcat(d.calls + a.calls, u.calls, LsDel);
    CallKeysConcat(d.calls + a.calls, u.calls, LsAdd);
    CallKeysConcat(d.calls, a.calls, LsDel);
    CallKeysConcat(d.calls, a.calls, LsAdd);
    CallKeysOtherAction(d.calls, LsDel, LsAdd);
    CallKeysOtherAction(a.calls, LsAdd, LsDel);
    CallKeysOtherAction(u.calls, LsMod, LsDel);
    CallKeysOtherAction(u.calls, LsMod, LsAdd);
  }

  /**
   * With a provider implementing `set_logical_switch`, the keys indexed
   * after a pass are the keys indexed before, minus those the pass sent DEL
   * for, plus those it sent ADD for.
   */
  lemma ReconcileTraceMatchesIndex(plugin: Option<Provider>, br: string, table: LsTable, index: LsIndex)
    requires Supported(plugin)
    requires Reconcile(plugin, br, table, index).Ok?
    ensures var p := Reconcile(plugin, br, table, index).value;
            KeysOf(p.index) == (KeysOf(index) - CallKeys(p.calls, LsDel)) + CallKeys(p.calls, LsAdd)
  {
    if |table.rows| == 0 {
      DeletePassTrace(plugin, index, map[]);
      CallKeysOtherAction(Reconcile(plugin, br, table, index).value.calls, LsDel, LsAdd);
    } else if AnyChange(table) {
      ReconcileByPhases(plugin, br, table, index);
      PhasesTrace(plugin, br, table, index);
    }
  }

  lemma DeletePhaseTrace(plugin: Option<Provider>, table: LsTable, snap: map<TunnelKey, LsRow>, index: LsIndex)
    requires Supported(plugin)
    ensures var d := DeletePhase(plugin, table, snap, index);
            KeysOf(d.index) == KeysOf(index) - CallKeys(d.calls, LsDel)
  {
    if table.anyDeleted || table.anyModified { DeletePassTrace(plugin, index, snap); }
  }

  lemma AddPhaseTrace(plugin: Option<Provider>, br: string, table: LsTable, index: LsIndex)
    requires Supported(plugin)
    ensures var a := AddPhase(plugin, br, table, index);
            KeysOf(a.index) == KeysOf(index) + CallKeys(a.calls, LsAdd)
  {
    if table.anyInserted || table.anyModified { AddPassTrace(plugin, br, table.rows, index); }
  }

  /** The key account of the three phases of one pass. */
  lemma PhasesTrace(plugin: Option<Provider>, br: string, table: LsTable, index: LsIndex)
    requires Supported(plugin)
    requires var d := DeletePhase(plugin, table, Snapshot(table.rows, br), index);
             UpdatePhase(plugin, table, AddPhase(plugin, br, table, d.index).index).Ok?
    ensures var d := DeletePhase(plugin, table, Snapshot(table.rows, br), index);
            var a := AddPhase(plugin, br, table, d.index);
            var u := UpdatePhase(plugin, table, a.index).value;
            var t := d.calls + a.calls + u.calls;
            KeysOf(u.index) == (KeysOf(index) - CallKeys(t, LsDel)) + CallKeys(t, LsAdd)
  {
    var d := DeletePhase(plugin, table, Snapshot(table.rows, br), index);
    var a := AddPhase(plugin, br, table, d.index);
    var u := UpdatePhase(plugin, table, a.index).value;
    DeletePhaseTrace(plugin, table, Snapshot(table.rows, br), index);
    AddPhaseTrace(plugin, br, table, d.index);
    UpdatePhaseSettles(plugin, table, a.index);
    SameKeysSets(a.index, u.index, br);
    ComposeTrace(KeysOf(index), d, a, u);
  }

  /**
   * Exactly one ADD per key that some row carries and the bridge has not
   * indexed: the ADD keys are those keys, and no two ADD calls share one.
   */
  lemma AddPassAddsMissingKeysOnce(plugin: Option<Provider>, br: string, rows: seq<LsRow>, index: LsIndex)
    requires Supported(plugin)
    ensures var a := AddPass(plugin, br, rows, index);
            && CallKeys(a.calls, LsAdd) == RowKeys(rows) - KeysOn(index, br)
            && AllOfAction(a.calls, LsAdd)
            && forall i, j :: 0 <= i < j < |a.calls| ==> a.calls[i].node.tunnelKey != a.calls[j].node.tunnelKey
  {
    AddsMissingKeysOnce(plugin, br, rows, index, AddPass(plugin, br, rows, index));
  }

  lemma AddsMissingKeysOnce(plugin: Option<Provider>, br: string, rows: seq<LsRow>, index: LsIndex, a: LsPass)
    requires Supported(plugin)
    requires AllOfAction(a.calls, LsAdd)
    requires Extends(index, a.index)
    requires KeysOn(a.index, br) == KeysOn(index, br) + RowKeys(rows)
    requires NewEntriesFrom(br, rows, index, a.index)
    requires NewKeysDistinct(index, a.index)
    requires AddCallsMatch(plugin, br, rows, index, a)
    ensures CallKeys(a.calls, LsAdd) == RowKeys(rows) - KeysOn(index, br)
    ensures forall i, j :: 0 <= i < j < |a.calls| ==> a.calls[i].node.tunnelKey != a.calls[j].node.tunnelKey
  {
    forall i | 0 <= i < |a.calls|
      ensures a.calls[i].node.tunnelKey == a.index[|index| + i].tunnelKey
      ensures a.calls[i].node.tunnelKey in RowKeys(rows) - KeysOn(index, br)
    {
      assert AddCallAt(br, rows, a, |index|, i);
      var entry := a.index[|index| + i];
      var row' :| row' in rows && entry == NewEntry(br, row') && row'.tunnelKey !in KeysOn(index, br);
    }
    forall j | 0 <= j < |index| ensures a.index[j] == index[j] && (index[j].bridge == br ==> index[j].tunnelKey in KeysOn(index, br)) {
      assert a.index[j] == a.index[..|index|][j];
      assert index[j] in index;
    }
    forall k | k in RowKeys(rows) - KeysOn(index, br) ensures k in CallKeys(a.calls, LsAdd) {
      assert k in KeysOn(a.index, br);
      var e :| e in a.index && e.bridge == br && e.tunnelKey == k;
      var j :| 0 <= j < |a.index| && a.index[j] == e;
      assert j >= |index|;
      assert a.calls[j - |index|] in a.calls;
    }
  }

  // ---------------------------------------------------------------------
  // The index stays well formed.
  // ---------------------------------------------------------------------

  lemma HeadKeyFresh(index: LsIndex, br: string)
    requires WellFormed(index, br) && |index| > 0
    ensures index[0].tunnelKey !in KeysOf(index[1..])
    ensures WellFormed(index[1..], br)
  {
    forall e | e in index[1..] ensures e.tunnelKey != index[0].tunnelKey {
      var m :| 0 <= m < |index[1..]| && index[1..][m] == e;
      assert index[m + 1] == e;
    }
    assert forall e :: e in index[1..] ==> e in index;
  }

  lemma ConsKeepsWellFormed(e: LsEntry, tail: LsIndex, br: string)
    requires WellFormed(tail, br) && e.bridge == br && e.tunnelKey !in KeysOf(tail)
    ensures WellFormed([e] + tail, br)
  {
    var r := [e] + tail;
    forall j | 0 < j < |r| ensures r[0].tunnelKey != r[j].tunnelKey {
      assert r[j] == tail[j - 1] && tail[j - 1] in tail;
    }
  }

  lemma {:induction false} DeletePassKeepsWellFormed(plugin: Option<Provider>, index: LsIndex, snap: map<TunnelKey, LsRow>, br: string)
    requires WellFormed(index, br)
    ensures WellFormed(DeletePass(plugin, index, snap).index, br)
    decreases |index|
  {
    if |index| > 0 {
      HeadKeyFresh(index, br);
      DeletePassKeepsWellFormed(plugin, index[1..], snap, br);
      var rest := DeletePass(plugin, index[1..], snap);
      if index[0].tunnelKey in snap {
        assert KeysOf(rest.index) <= KeysOf(index[1..]);
        ConsKeepsWellFormed(index[0], rest.index, br);
      }
    }
  }

  lemma AddPassKeepsWellFormed(plugin: Option<Provider>, br: string, rows: seq<LsRow>, index: LsIndex)
    requires WellFormed(index, br)
    ensures WellFormed(AddPass(plugin, br, rows, index).index, br)
  {
    ExtendKeepsWellFormed(br, rows, index, AddPass(plugin, br, rows, index).index);
  }

  /** Appending entries made for keys not yet on the bridge, with distinct keys, keeps the index well formed. */
  lemma ExtendKeepsWellFormed(br: string, rows: seq<LsRow>, index: LsIndex, a: LsIndex)
    requires WellFormed(index, br)
    requires Extends(index, a) && NewEntriesFrom(br, rows, index, a) && NewKeysDistinct(index, a)
    ensures WellFormed(a, br)
  {
    forall i | |index| <= i < |a| ensures a[i].bridge == br && a[i].tunnelKey !in KeysOn(index, br) {
      var entry := a[i];
      var row :| row in rows && entry == NewEntry(br, row) && row.tunnelKey !in KeysOn(index, br);
    }
    forall i | 0 <= i < |index| ensures a[i] == index[i] && index[i].tunnelKey in KeysOn(index, br) {
      assert a[i] == a[..|index|][i];
      assert index[i] in index;
    }
    forall e | e in a ensures e.bridge == br {
      var i :| 0 <= i < |a| && a[i] == e;
    }
  }

  lemma UpdatePassKeepsWellFormed(plugin: Option<Provider>, rows: seq<LsRow>, index: LsIndex, br: string)
    requires WellFormed(index, br)
    requires UpdatePass(plugin, rows, index).Ok?
    ensures WellFormed(UpdatePass(plugin, rows, index).value.index, br)
  {
    var u := UpdatePass(plugin, rows, index).value;
    UpdatePassSameKeys(plugin, rows, index);
    forall e | e in u.index ensures e.bridge == br {
      var i :| 0 <= i < |u.index| && u.index[i] == e;
      assert index[i] in index;
    }
  }

  /**
   * The reconciler keeps the bridge's index well formed: every entry
   * belongs to the bridge and no two entries share a tunnel key.
   */
  lemma ReconcileKeepsWellFormed(plugin: Option<Provider>, br: string, table: LsTable, index: LsIndex)
    requires WellFormed(index, br)
    requires Reconcile(plugin, br, table, index).Ok?
    ensures WellFormed(Reconcile(plugin, br, table, index).value.index, br)
  {
    if |table.rows| > 0 && AnyChange(table) {
      var snap := Snapshot(table.rows, br);
      var d := DeletePhase(plugin, table, snap, index);
      var a := AddPhase(plugin, br, table, d.index);
      DeletePassKeepsWellFormed(plugin, index, snap, br);
      AddPassKeepsWellFormed(plugin, br, table.rows, d.index);
      if table.anyModified {
        UpdatePassKeepsWellFormed(plugin, table.rows, a.index, br);
      }
    }
  }

  // ---------------------------------------------------------------------
  // The update pass sends one MOD per entry that needs one.
  // ---------------------------------------------------------------------

  /** Over a well-formed index, the update pass sends exactly one MOD per entry whose row refreshes and differs. */
  lemma UpdatePassModCount(plugin: Option<Provider>, rows: seq<LsRow>, index: LsIndex, br: string)
    requires WellFormed(index, br) && Supported(plugin)
    requires UpdatePass(plugin, rows, index).Ok?
    ensures |UpdatePass(plugin, rows, index).value.calls| == |set e | e in index && NeedsModIn(rows, e)|
  {
    NeedingCount(rows, index, br);
  }

  lemma NeedingCount(rows: seq<LsRow>, index: LsIndex, br: string)
    requires WellFormed(index, br)
    ensures |Needing(rows, index)| == |set e | e in index && NeedsModIn(rows, e)|
  {
    var n := Needing(rows, index);
    NeedingDistinct(rows, index, br);
    DistinctCard(n);
    assert (set e | e in index && NeedsModIn(rows, e)) == (set e | e in n);
  }

  /** No entry occurs twice in `s`. */
  ghost predicate DistinctEntries(s: LsIndex) {
    forall i, j :: 0 <= i < j < |s| ==> s[i] != s[j]
  }

  lemma {:induction false} NeedingDistinct(rows: seq<LsRow>, index: LsIndex, br: string)
    requires WellFormed(index, br)
    ensures DistinctEntries(Needing(rows, index))
    decreases |index|
  {
    if |index| > 0 {
      HeadKeyFresh(index, br);
      NeedingDistinct(rows, index[1..], br);
      var tail := Needing(rows, index[1..]);
      assert index[0] !in tail;
      if NeedsModIn(rows, index[0]) {
        var n := [index[0]] + tail;
        assert Needing(rows, index) == n;
        forall i, j | 0 <= i < j < |n| ensures n[i] != n[j] {
          assert n[j] == tail[j - 1] && tail[j - 1] in tail;
          if i > 0 {
            assert n[i] == tail[i - 1];
          }
        }
      } else {
        assert Needing(rows, index) == [] + tail;
      }
    }
  }

  /** A sequence without repeats has as many distinct elements as positions. */
  lemma {:induction false} DistinctCard(s: LsIndex)
    requires DistinctEntries(s)
    ensures |set e | e in s| == |s|
    decreases |s|
  {
    if |s| > 0 {
      var tail := s[1..];
      assert DistinctEntries(tail) by {
        forall i, j | 0 <= i < j < |tail| ensures tail[i] != tail[j] {
          assert tail[i] == s[i + 1] && tail[j] == s[j + 1];
        }
      }
      DistinctCard(tail);
      assert s[0] !in tail by {
        forall j | 0 <= j < |tail| ensures tail[j] != s[0] {
          assert tail[j] == s[j + 1];
        }
      }
      assert (set e | e in s) == {s[0]} + (set e | e in tail) by {
        assert s == [s[0]] + tail;
      }
    }
  }
}
