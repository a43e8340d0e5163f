/**
 * Concrete passes of the logical-switch reconciler on bridge "br0" with a
 * provider implementing every operation: the life of one logical switch,
 * a row of another bridge that is added and removed again, the ADD name
 * taken from the description, and a `strcmp` on a missing description.
 */
module LogicalSwitchScenarios {
  import opened Common
  import opened Asic
  import opened LogicalSwitch

  const FullProvider: Option<Provider> := Some(Provider(true, true, true, true, true))

  /** Logical switch "seg-a" with tunnel key 5000 on bridge "br0". */
  function SegA(description: Option<string>, inserted: bool, modified: bool): LsRow {
    LsRow(1, "br0", 5000, Some("seg-a"), description, inserted, modified)
  }

  /**
   * Inserting "seg-a" sends one ADD with key 5000 and name "seg-a";
   * removing every row sends one DEL with the stored copies and empties
   * the index.
   */
  lemma SegALifecycle()
    ensures var e := LsEntry("br0", 1, 5000, Some("seg-a"), None);
            && Reconcile(FullProvider, "br0", LsTable([SegA(None, true, false)], true, false, false), [])
               == Ok(LsPass([e], [LsCall(LsAdd, LsNode(Some("seg-a"), None, 5000))]))
            && Reconcile(FullProvider, "br0", LsTable([], false, false, true), [e])
               == Ok(LsPass([], [LsCall(LsDel, LsNode(Some("seg-a"), None, 5000))]))
  {
    var row := SegA(None, true, false);
    var e := LsEntry("br0", 1, 5000, Some("seg-a"), None);
    var add := LsCall(LsAdd, LsNode(Some("seg-a"), None, 5000));
    var none: seq<HwCall> := [];
    assert [row][1..] == [] && [e][1..] == [];
    assert AddPass(FullProvider, "br0", [row], []) == LsPass([e], [add]);
    assert none + [add] + none == [add];
    assert DeletePass(FullProvider, [e], map[]) == LsPass([], [LsCall(LsDel, LsNode(Some("seg-a"), None, 5000))]);
  }

  /** Changing the description from "dev" to "prod" sends one MOD with the new strings. */
  lemma SegADescriptionChanged()
    ensures var e := LsEntry("br0", 1, 5000, Some("seg-a"), Some("dev"));
            Reconcile(FullProvider, "br0", LsTable([SegA(Some("prod"), false, true)], false, true, false), [e])
            == Ok(LsPass([e.(description := Some("prod"))], [LsCall(LsMod, LsNode(Some("seg-a"), Some("prod"), 5000))]))
  {
    var row := SegA(Some("prod"), false, true);
    var e := LsEntry("br0", 1, 5000, Some("seg-a"), Some("dev"));
    var e' := e.(description := Some("prod"));
    var m := LsCall(LsMod, LsNode(Some("seg-a"), Some("prod"), 5000));
    var none: seq<HwCall> := [];
    assert [row][1..] == [] && [e][1..] == [] && [e'][1..] == [];
    assert Snapshot([row], "br0") == map[5000 := row];
    assert DeletePass(FullProvider, [e], map[5000 := row]) == LsPass([e], []);
    assert AddPass(FullProvider, "br0", [row], [e]) == LsPass([e], []);
    assert "dev"[0] != "prod"[0];
    assert RowById([row], 1) == Some(row);
    assert LogicalSwitchUpdate(FullProvider, e, row) == Ok((e', [m]));
    assert UpdateEntry(FullProvider, [row], e) == Ok((e', [m]));
    assert [e'] + [] == [e'] && [m] + none == [m];
    assert UpdatePass(FullProvider, [row], [e]) == Ok(LsPass([e'], [m]));
    assert none + none + [m] == [m];
  }

  /**
   * Setting a description on a switch created without one hands a `NULL`
   * stored description to `strcmp`, which is undefined behaviour in C:
   * the pass faults instead of sending a MOD.
   */
  lemma SegAFirstDescriptionFaults()
    ensures var e := LsEntry("br0", 1, 5000, Some("seg-a"), None);
            Reconcile(FullProvider, "br0", LsTable([SegA(Some("prod"), false, true)], false, true, false), [e])
            == Err(NullStrcmpArgument)
  {
  }

  /**
   * The add pass walks rows of every bridge: a row of "br1" is indexed
   * under "br0" and sent as an ADD, and the next delete pass of "br0"
   * (whose snapshot holds only "br0" rows) sends a DEL for it.
   */
  lemma ForeignRowChurns()
    ensures var row := LsRow(2, "br1", 7000, Some("other"), None, true, false);
            var e := LsEntry("br0", 2, 7000, Some("other"), None);
            && Reconcile(FullProvider, "br0", LsTable([row], true, false, false), [])
               == Ok(LsPass([e], [LsCall(LsAdd, LsNode(Some("other"), None, 7000))]))
            && Reconcile(FullProvider, "br0", LsTable([row.(inserted := false)], false, false, true), [e])
               == Ok(LsPass([], [LsCall(LsDel, LsNode(Some("other"), None, 7000))]))
  {
    var row := LsRow(2, "br1", 7000, Some("other"), None, true, false);
    var e := LsEntry("br0", 2, 7000, Some("other"), None);
    var add := LsCall(LsAdd, LsNode(Some("other"), None, 7000));
    var del := LsCall(LsDel, LsNode(Some("other"), None, 7000));
    var none: seq<HwCall> := [];
    assert [row][1..] == [] && [row.(inserted := false)][1..] == [] && [e][1..] == [];
    assert AddPass(FullProvider, "br0", [row], []) == LsPass([e], [add]);
    assert none + [add] + none == [add];
    assert Snapshot([row.(inserted := false)], "br0") == map[];
    assert DeletePass(FullProvider, [e], map[]) == LsPass([], [del]);
    assert [del] + none + none == [del];
  }

  /** The ADD payload's name is the row's description whenever the row has one. */
  lemma AddPayloadCarriesDescriptionAsName()
    ensures var row := LsRow(3, "br0", 42, Some("seg-b"), Some("prod"), true, false);
            Reconcile(FullProvider, "br0", LsTable([row], true, false, false), [])
            == Ok(LsPass([LsEntry("br0", 3, 42, Some("seg-b"), Some("prod"))],
                         [LsCall(LsAdd, LsNode(Some("prod"), Some("prod"), 42))]))
  {
    var row := LsRow(3, "br0", 42, Some("seg-b"), Some("prod"), true, false);
    var add := LsCall(LsAdd, LsNode(Some("prod"), Some("prod"), 42));
    var none: seq<HwCall> := [];
    assert [row][1..] == [];
    assert AddPass(FullProvider, "br0", [row], []) == LsPass([LsEntry("br0", 3, 42, Some("seg-b"), Some("prod"))], [add]);
    assert none + [add] + none == [add];
  }
}
