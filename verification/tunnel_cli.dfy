/**
 * The configuration helpers of src/cli/tunnel/tunnel_vty.c that every
 * tunnel command funnels through: turning a transaction's outcome into a
 * command status, and setting one key of an interface's `options` column.
 */
module TunnelCli {
  import opened Common

  /** The outcome of committing an OVSDB IDL transaction (`enum ovsdb_idl_txn_status`). */
  datatype TxnStatus =
    | TxnUncommitted
    | TxnUnchanged
    | TxnIncomplete
    | TxnAborted
    | TxnSuccess
    | TxnTryAgain
    | TxnNotLocked
    | TxnError

  /** What a CLI command reports. */
  datatype CmdStatus = CmdSuccess | CmdOvsdbFailure

  /**
   * `txn_status_and_log`: a commit that succeeded, or had nothing to
   * change, is a successful command; every other outcome is an OVSDB failure.
   */
  function TxnStatusAndLog(txn: TxnStatus): (r: CmdStatus)
    ensures r == CmdSuccess <==> txn == TxnSuccess || txn == TxnUnchanged
    ensures r == CmdOvsdbFailure <==> !(txn == TxnSuccess || txn == TxnUnchanged)
  {
    if txn == TxnSuccess || txn == TxnUnchanged then CmdSuccess else CmdOvsdbFailure
  }

  /** An interface row's `options` column. */
  type Options = map<string, string>

  /**
   * The command has nothing to do: the option is unset and is to stay
   * unset, or it is set to exactly the requested value.
   */
  predicate SkipsOption(options: Options, option: string, newValue: Option<string>) {
    || (option !in options && newValue.None?)
    || (option in options && newValue.Some? && newValue.value == options[option])
  }

  /**
   * What `set_intf_option` does: the command status, and the `options`
   * column it writes into the transaction (`None` when it writes nothing).
   */
  datatype OptionWrite = OptionWrite(status: CmdStatus, written: Option<Options>)

  /**
   * `set_intf_option`: skip when the value is already as requested;
   * otherwise, if a transaction can be started, write a copy of the
   * options with the key replaced (or removed, for a `NULL` value) and
   * report the commit's outcome. Starting the transaction and its commit
   * are outside the model: `txnStarted` and `commit` say how they went.
   */
  function SetIntfOption(options: Options, option: string, newValue: Option<string>, txnStarted: bool, commit: TxnStatus)
    : (r: OptionWrite)
    ensures SkipsOption(options, option, newValue) ==> r == OptionWrite(CmdSuccess, None)
    ensures !SkipsOption(options, option, newValue) && !txnStarted ==> r == OptionWrite(CmdOvsdbFailure, None)
    ensures r.written.Some? <==> !SkipsOption(options, option, newValue) && txnStarted
    ensures r.written.Some? ==> r.status == TxnStatusAndLog(commit)
    ensures r.written.Some? ==> (option in r.written.value <==> newValue.Some?)
    ensures r.written.Some? && newValue.Some? ==> r.written.value[option] == newValue.value
    ensures r.written.Some? ==> forall k :: k != option ==> (k in r.written.value <==> k in options)
    ensures r.written.Some? ==> forall k :: k != option && k in options ==> r.written.value[k] == options[k]
  {
    if SkipsOption(options, option, newValue) then OptionWrite(CmdSuccess, None)
    else if !txnStarted then OptionWrite(CmdOvsdbFailure, None)
    else
      var written := if newValue.Some? then options[option := newValue.value] else options - {option};
      OptionWrite(TxnStatusAndLog(commit), Some(written))
  }

  /**
   * Once the written options are in the row, the same command again is
   * skipped: it succeeds without starting a transaction.
   */
  lemma SetIntfOptionSettles(options: Options, option: string, newValue: Option<string>, txnStarted: bool, commit: TxnStatus,
                             txnStarted': bool, commit': TxnStatus)
    requires SetIntfOption(options, option, newValue, txnStarted, commit).written.Some?
    ensures var after := SetIntfOption(options, option, newValue, txnStarted, commit).written.value;
            SetIntfOption(after, option, newValue, txnStarted', commit') == OptionWrite(CmdSuccess, None)
  {
  }

  /** Setting a key and then unsetting it gives back the options without that key. */
  lemma SetThenUnsetOption(options: Options, option: string, value: string, commit: TxnStatus, commit': TxnStatus)
    requires option !in options || options[option] != value
    ensures var withKey := SetIntfOption(options, option, Some(value), true, commit).written.value;
            SetIntfOption(withKey, option, None, true, commit').written == Some(options - {option})
  {
    var withKey := options[option := value];
    assert withKey - {option} == options - {option};
  }
}
