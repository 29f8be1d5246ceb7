/**
 * The database-state validator of the saga end-to-end run
 * (saga/e2e/dbcheck/main.go): acceptance predicates over one persisted
 * machine-instance record and the list of its state-instance records,
 * and the exit code the validator ends with.
 *
 * Every check collects its failures in a list of messages; the Go error
 * is that list joined with "; ", or nil when the list is empty.
 */
module DbCheck {
  import opened Common

  /** One row of seata_state_machine_inst; NULL columns are None. */
  datatype SmRow = SmRow(
    id: string,
    status: string,
    compStatus: Option<string>,
    isRunning: int,
    gmtEnd: Option<int>,     // a timestamp; only whether it is NULL matters
    excep: Option<string>)

  /** One row of seata_state_inst. */
  datatype StRow = StRow(name: string, kind: string, status: string, compFor: Option<string>)

  /** The store section of the saga engine configuration file. */
  datatype EngineConf = EngineConf(storeEnabled: bool, storeType: string, storeDsn: string)

  /** A nullable string column that is NULL or empty. */
  predicate Blank(v: Option<string>)
  {
    v.None? || v.value == ""
  }

  /** The error the checks return: nil, or the failures joined with "; ". */
  function Report(errs: seq<string>): (r: Option<string>)
    ensures r.None? <==> errs == []
  {
    if errs == [] then None else Some(Join(errs, "; "))
  }

  // ---------------------------------------------------------------------
  // Configuration
  // ---------------------------------------------------------------------

  const ConfMissingMsg := "engineConf missing store_enabled/store_type/store_dsn"

  /**
   * loadEngineConf after the file has been read and decoded: `read` is the
   * decoded configuration, or the error reading or decoding produced.
   */
  function LoadEngineConf(read: Result<EngineConf, string>): (r: Result<EngineConf, string>)
    ensures read.Err? ==> r == read
    ensures read.Ok? ==> (r.Ok? <==> read.value.storeEnabled && read.value.storeType != "" && read.value.storeDsn != "")
    ensures r.Ok? ==> r == read
    ensures read.Ok? && r.Err? ==> r.error == ConfMissingMsg
  {
    match read
    case Err(e) => Err(e)
    case Ok(c) =>
      if !c.storeEnabled || c.storeType == "" || c.storeDsn == "" then Err(ConfMissingMsg) else Ok(c)
  }

  // ---------------------------------------------------------------------
  // Machine-instance checks
  // ---------------------------------------------------------------------

  function StatusMsg(status: string, want: string): string
  {
    "status=" + status + " want=" + want
  }

  function BlankCompStatusMsg(comp: string): string
  {
    "compensation_status=" + comp + " want=''"
  }

  function CompStatusSuMsg(comp: Option<string>): string
  {
    "compensation_status=" + (if comp.Some? then comp.value else "<NULL>") + " want=SU"
  }

  function RunningMsg(isRunning: int): string
  {
    "is_running=" + IntToDecimal(isRunning) + " want=0"
  }

  const GmtEndNullMsg := "gmt_end is NULL"
  const ExcepMsg := "excep not empty"

  /** The failures expectSuccess collects, in the order it checks them. */
  function SuccessErrors(row: SmRow): seq<string>
  {
    (if row.status != "SU" then [StatusMsg(row.status, "SU")] else [])
    + (if !Blank(row.compStatus) then [BlankCompStatusMsg(row.compStatus.value)] else [])
    + (if row.isRunning != 0 then [RunningMsg(row.isRunning)] else [])
    + (if row.gmtEnd.None? then [GmtEndNullMsg] else [])
    + (if !Blank(row.excep) then [ExcepMsg] else [])
  }

  /** A run that finished successfully with no compensation and no exception. */
  predicate EndedInSuccess(row: SmRow)
  {
    && row.status == "SU"
    && Blank(row.compStatus)
    && row.isRunning == 0
    && row.gmtEnd.Some?
    && Blank(row.excep)
  }

  /** expectSuccess */
  function ExpectSuccess(row: SmRow): (r: Option<string>)
    ensures r.None? <==> EndedInSuccess(row)
    ensures r.Some? ==> r.value == Join(SuccessErrors(row), "; ")
  {
    Report(SuccessErrors(row))
  }

  /** The failures expectCompensateFail collects; excep is never looked at. */
  function CompensateFailErrors(row: SmRow): seq<string>
  {
    (if row.status != "FA" then [StatusMsg(row.status, "FA")] else [])
    + (if row.compStatus != Some("SU") then [CompStatusSuMsg(row.compStatus)] else [])
    + (if row.isRunning != 0 then [RunningMsg(row.isRunning)] else [])
    + (if row.gmtEnd.None? then [GmtEndNullMsg] else [])
  }

  /** A failed run whose compensation succeeded. */
  predicate EndedCompensated(row: SmRow)
  {
    && row.status == "FA"
    && row.compStatus == Some("SU")
    && row.isRunning == 0
    && row.gmtEnd.Some?
  }

  /** expectCompensateFail */
  function ExpectCompensateFail(row: SmRow): (r: Option<string>)
    ensures r.None? <==> EndedCompensated(row)
    ensures r.Some? ==> r.value == Join(CompensateFailErrors(row), "; ")
  {
    Report(CompensateFailErrors(row))
  }

  /** The failures the compensate-inventory branch of main collects about the machine row. */
  function ForwardFailErrors(row: SmRow): seq<string>
  {
    (if row.status != "FA" then [StatusMsg(row.status, "FA")] else [])
    + (if !Blank(row.compStatus) then [BlankCompStatusMsg(row.compStatus.value)] else [])
    + (if row.isRunning != 0 then [RunningMsg(row.isRunning)] else [])
    + (if row.gmtEnd.None? then [GmtEndNullMsg] else [])
  }

  /** A failed run in which no compensation ran. */
  predicate EndedUncompensated(row: SmRow)
  {
    && row.status == "FA"
    && Blank(row.compStatus)
    && row.isRunning == 0
    && row.gmtEnd.Some?
  }

  /** The machine check written inline in main for the compensate-inventory scenario. */
  function ExpectForwardFail(row: SmRow): (r: Option<string>)
    ensures r.None? <==> EndedUncompensated(row)
    ensures r.Some? ==> r.value == Join(ForwardFailErrors(row), "; ")
  {
    Report(ForwardFailErrors(row))
  }

  /** The five messages of expectSuccess start with different letters, so no two are equal. */
  lemma SuccessMessagesDistinct(status: string, comp: string, isRunning: int)
    ensures |StatusMsg(status, "SU")| > 0 && StatusMsg(status, "SU")[0] == 's'
    ensures |BlankCompStatusMsg(comp)| > 0 && BlankCompStatusMsg(comp)[0] == 'c'
    ensures |RunningMsg(isRunning)| > 0 && RunningMsg(isRunning)[0] == 'i'
    ensures GmtEndNullMsg[0] == 'g' && ExcepMsg[0] == 'e'
  {
  }

  lemma StatusReported(row: SmRow)
    ensures StatusMsg(row.status, "SU") in SuccessErrors(row) <==> row.status != "SU"
  {
    SuccessMessagesDistinct(row.status, if row.compStatus.Some? then row.compStatus.value else "", row.isRunning);
  }

  lemma CompStatusReported(row: SmRow)
    requires row.compStatus.Some?
    ensures BlankCompStatusMsg(row.compStatus.value) in SuccessErrors(row) <==> row.compStatus.value != ""
  {
    SuccessMessagesDistinct(row.status, if row.compStatus.Some? then row.compStatus.value else "", row.isRunning);
  }

  lemma RunningReported(row: SmRow)
    ensures RunningMsg(row.isRunning) in SuccessErrors(row) <==> row.isRunning != 0
  {
    SuccessMessagesDistinct(row.status, if row.compStatus.Some? then row.compStatus.value else "", row.isRunning);
  }

  lemma GmtEndReported(row: SmRow)
    ensures GmtEndNullMsg in SuccessErrors(row) <==> row.gmtEnd.None?
  {
    SuccessMessagesDistinct(row.status, if row.compStatus.Some? then row.compStatus.value else "", row.isRunning);
  }

  lemma ExcepReported(row: SmRow)
    ensures ExcepMsg in SuccessErrors(row) <==> !Blank(row.excep)
  {
    SuccessMessagesDistinct(row.status, if row.compStatus.Some? then row.compStatus.value else "", row.isRunning);
  }

  /** The report holds no message other than the five of expectSuccess. */
  lemma SuccessErrorsOnly(row: SmRow)
    ensures forall m :: m in SuccessErrors(row) ==>
      || m == StatusMsg(row.status, "SU") || m == RunningMsg(row.isRunning) || m == GmtEndNullMsg || m == ExcepMsg
      || (row.compStatus.Some? && m == BlankCompStatusMsg(row.compStatus.value))
  {
    var a := if row.status != "SU" then [StatusMsg(row.status, "SU")] else [];
    var b := if !Blank(row.compStatus) then [BlankCompStatusMsg(row.compStatus.value)] else [];
    var c := if row.isRunning != 0 then [RunningMsg(row.isRunning)] else [];
    var d := if row.gmtEnd.None? then [GmtEndNullMsg] else [];
    var e := if !Blank(row.excep) then [ExcepMsg] else [];
    assert SuccessErrors(row) == a + b + c + d + e;
    forall m | m in SuccessErrors(row)
      ensures || m == StatusMsg(row.status, "SU") || m == RunningMsg(row.isRunning) || m == GmtEndNullMsg || m == ExcepMsg
              || (row.compStatus.Some? && m == BlankCompStatusMsg(row.compStatus.value))
    {
      assert m in a || m in b || m in c || m in d || m in e;
    }
  }

  /** Every failing condition of expectSuccess has its message in the report, and no other message is there. */
  lemma SuccessErrorsEach(row: SmRow)
    ensures StatusMsg(row.status, "SU") in SuccessErrors(row) <==> row.status != "SU"
    ensures row.compStatus.Some? ==>
      (BlankCompStatusMsg(row.compStatus.value) in SuccessErrors(row) <==> row.compStatus.value != "")
    ensures RunningMsg(row.isRunning) in SuccessErrors(row) <==> row.isRunning != 0
    ensures GmtEndNullMsg in SuccessErrors(row) <==> row.gmtEnd.None?
    ensures ExcepMsg in SuccessErrors(row) <==> !Blank(row.excep)
    ensures |SuccessErrors(row)| <= 5
    ensures forall m :: m in SuccessErrors(row) ==>
      || m == StatusMsg(row.status, "SU") || m == RunningMsg(row.isRunning) || m == GmtEndNullMsg || m == ExcepMsg
      || (row.compStatus.Some? && m == BlankCompStatusMsg(row.compStatus.value))
  {
    StatusReported(row);
    if row.compStatus.Some? {
      CompStatusReported(row);
    }
    RunningReported(row);
    GmtEndReported(row);
    ExcepReported(row);
    SuccessErrorsOnly(row);
  }

  /** The three machine checks accept disjoint sets of rows. */
  lemma MachineChecksExclusive(row: SmRow)
    ensures !(EndedInSuccess(row) && EndedCompensated(row))
    ensures !(EndedInSuccess(row) && EndedUncompensated(row))
    ensures !(EndedCompensated(row) && EndedUncompensated(row))
  {
  }

  // ---------------------------------------------------------------------
  // State-instance checks
  // ---------------------------------------------------------------------

  /** contains: whether some row satisfies the predicate. */
  function Contains(rows: seq<StRow>, pred: StRow -> bool): (found: bool)
    ensures found <==> exists i :: 0 <= i < |rows| && pred(rows[i])
  {
    if |rows| == 0 then false else pred(rows[0]) || Contains(rows[1..], pred)
  }

  /** A forward row: no compensated-for reference (NULL or empty). */
  predicate Forward(r: StRow, name: string, status: string)
  {
    r.name == name && r.status == status && Blank(r.compFor)
  }

  /** A compensation row: it names the state it compensates. */
  predicate Compensation(r: StRow)
  {
    !Blank(r.compFor)
  }

  predicate InventoryReduced(r: StRow) { Forward(r, "ReduceInventory", "SU") }
  predicate InventoryFailed(r: StRow) { Forward(r, "ReduceInventory", "FA") }
  predicate BalanceReduced(r: StRow) { Forward(r, "ReduceBalance", "SU") }
  predicate BalanceFailed(r: StRow) { Forward(r, "ReduceBalance", "FA") }

  /** contains reads as membership: the scan finds a row exactly when some row in the list qualifies. */
  lemma ContainsMember(rows: seq<StRow>, pred: StRow -> bool)
    ensures Contains(rows, pred) <==> exists s :: s in rows && pred(s)
  {
    if exists s :: s in rows && pred(s) {
      var s :| s in rows && pred(s);
      var i :| 0 <= i < |rows| && rows[i] == s;
    }
  }

  const MissingSuInventory := "missing SU ReduceInventory forward state"
  const MissingSuBalance := "missing SU ReduceBalance forward state"
  const UnexpectedCompensation := "unexpected compensation state present"
  const MissingFaBalance := "missing FA ReduceBalance forward state"
  const MissingCompensation := "missing SU compensation state for ReduceInventory"
  const MissingFaInventory := "missing FA ReduceInventory forward state"

  /** validateStatesSuccess */
  function ValidateStatesSuccess(rows: seq<StRow>): (r: Option<string>)
    ensures r.None? <==>
      && (exists s :: s in rows && InventoryReduced(s))
      && (exists s :: s in rows && BalanceReduced(s))
      && (forall s :: s in rows ==> !Compensation(s))
  {
    var errs :=
      (if !Contains(rows, InventoryReduced) then [MissingSuInventory] else [])
      + (if !Contains(rows, BalanceReduced) then [MissingSuBalance] else [])
      + (if Contains(rows, Compensation) then [UnexpectedCompensation] else []);
    ContainsMember(rows, InventoryReduced);
    ContainsMember(rows, BalanceReduced);
    ContainsMember(rows, Compensation);
    Report(errs)
  }

  /** The compensation row the compensate-balance check looks for first. */
  predicate NamedCompensation(r: StRow)
  {
    r.name == "CompensateReduceInventory" && r.status == "SU" && !Blank(r.compFor)
  }

  /** The fallback it accepts instead: any successful compensation whose name starts with "Compensate". */
  predicate PrefixedCompensation(r: StRow)
  {
    HasPrefix(r.name, "Compensate") && r.status == "SU" && !Blank(r.compFor)
  }

  /** validateStatesCompBalance */
  function ValidateStatesCompBalance(rows: seq<StRow>): (r: Option<string>)
    ensures r.None? <==>
      && (exists s :: s in rows && InventoryReduced(s))
      && (exists s :: s in rows && BalanceFailed(s))
      && (exists s :: s in rows && PrefixedCompensation(s))
  {
    var compensated :=
      Contains(rows, NamedCompensation) || Contains(rows, PrefixedCompensation);
    var errs :=
      (if !Contains(rows, InventoryReduced) then [MissingSuInventory] else [])
      + (if !Contains(rows, BalanceFailed) then [MissingFaBalance] else [])
      + (if !compensated then [MissingCompensation] else []);
    assert forall s :: NamedCompensation(s) ==> PrefixedCompensation(s);
    ContainsMember(rows, InventoryReduced);
    ContainsMember(rows, BalanceFailed);
    ContainsMember(rows, NamedCompensation);
    ContainsMember(rows, PrefixedCompensation);
    Report(errs)
  }

  /** The names of the compensation rows, in row order. */
  function CompensationNames(rows: seq<StRow>): (names: seq<string>)
    ensures |names| <= |rows|
  {
    if |rows| == 0 then []
    else if Compensation(rows[0]) then [rows[0].name] + CompensationNames(rows[1..])
    else CompensationNames(rows[1..])
  }

  /** The listed names are exactly the names of the compensation rows. */
  lemma {:induction false} CompensationNamesMembers(rows: seq<StRow>, n: string)
    ensures n in CompensationNames(rows) <==> exists s :: s in rows && Compensation(s) && s.name == n
  {
    if |rows| > 0 {
      CompensationNamesMembers(rows[1..], n);
      assert forall s :: s in rows <==> s == rows[0] || s in rows[1..];
    }
  }

  /** The message listing the unexpected compensation rows, names sorted. */
  function UnexpectedCompensationMsg(rows: seq<StRow>): string
  {
    "unexpected compensation states present: " + Join(SortStrings(CompensationNames(rows)), ",")
  }

  /**
   * The names in the unexpected-compensation message are sorted, and they
   * are the names of the compensation rows, each as often as it occurs.
   */
  lemma UnexpectedCompensationNames(rows: seq<StRow>)
    ensures exists names: seq<string> ::
      && UnexpectedCompensationMsg(rows) == "unexpected compensation states present: " + Join(names, ",")
      && Sorted(names)
      && multiset(names) == multiset(CompensationNames(rows))
      && (forall n :: n in names <==> exists s :: s in rows && Compensation(s) && s.name == n)
  {
    var names := SortStrings(CompensationNames(rows));
    forall n
      ensures n in names <==> exists s :: s in rows && Compensation(s) && s.name == n
    {
      CompensationNamesMembers(rows, n);
      assert n in names <==> n in multiset(names);
      assert n in CompensationNames(rows) <==> n in multiset(CompensationNames(rows));
    }
  }

  /** validateStatesCompInventory */
  function ValidateStatesCompInventory(rows: seq<StRow>): (r: Option<string>)
    ensures r.None? <==>
      && (exists s :: s in rows && InventoryFailed(s))
      && (forall s :: s in rows ==> !Compensation(s))
  {
    var errs :=
      (if !Contains(rows, InventoryFailed) then [MissingFaInventory] else [])
      + (if Contains(rows, Compensation) then [UnexpectedCompensationMsg(rows)] else []);
    ContainsMember(rows, InventoryFailed);
    ContainsMember(rows, Compensation);
    Report(errs)
  }

  /**
   * The text validateStatesCompInventory returns: the missing-forward-state
   * message, the unexpected-compensation message with the sorted names, or
   * both joined with "; " in that order.
   */
  lemma CompInventoryMessage(rows: seq<StRow>)
    ensures var r := ValidateStatesCompInventory(rows);
      var missing := forall s :: s in rows ==> !InventoryFailed(s);
      var compensated := exists s :: s in rows && Compensation(s);
      && (missing && !compensated ==> r == Some(MissingFaInventory))
      && (!missing && compensated ==> r == Some(UnexpectedCompensationMsg(rows)))
      && (missing && compensated ==> r == Some(MissingFaInventory + "; " + UnexpectedCompensationMsg(rows)))
  {
    ContainsMember(rows, InventoryFailed);
    ContainsMember(rows, Compensation);
    var both := [MissingFaInventory, UnexpectedCompensationMsg(rows)];
    assert Join(both, "; ") == MissingFaInventory + "; " + Join(both[1..], "; ");
  }

  // ---------------------------------------------------------------------
  // Independence of row order
  // ---------------------------------------------------------------------

  /** Filtering the compensation names commutes with splitting the rows. */
  lemma {:induction false} CompensationNamesAppend(a: seq<StRow>, b: seq<StRow>)
    ensures CompensationNames(a + b) == CompensationNames(a) + CompensationNames(b)
  {
    if |a| == 0 {
      assert a + b == b;
    } else {
      assert (a + b)[0] == a[0];
      assert (a + b)[1..] == a[1..] + b;
      CompensationNamesAppend(a[1..], b);
    }
  }

  /** Taking a[0] out of a and its copy b[j] out of b leaves lists with the same elements. */
  lemma {:induction false} PermutationTail(a: seq<StRow>, b: seq<StRow>, j: nat)
    requires multiset(a) == multiset(b)
    requires 0 < |a| && j < |b| && b[j] == a[0]
    ensures multiset(a[1..]) == multiset(b[..j] + b[j + 1..])
  {
    assert a == [a[0]] + a[1..];
    assert b == b[..j] + [b[j]] + b[j + 1..];
    assert multiset(a[1..]) == multiset(a) - multiset{a[0]};
    assert multiset(b[..j] + b[j + 1..]) == multiset(b) - multiset{b[j]};
  }

  /** The compensation names of b, split around position j. */
  lemma {:induction false} NamesAround(b: seq<StRow>, j: nat)
    requires j < |b|
    ensures CompensationNames(b)
         == CompensationNames(b[..j]) + CompensationNames([b[j]]) + CompensationNames(b[j + 1..])
    ensures CompensationNames(b[..j] + b[j + 1..])
         == CompensationNames(b[..j]) + CompensationNames(b[j + 1..])
  {
    var left, mid, right := b[..j], [b[j]], b[j + 1..];
    assert b == left + (mid + right);
    CompensationNamesAppend(left, mid + right);
    CompensationNamesAppend(mid, right);
    CompensationNamesAppend(left, right);
  }

  /** Rows holding the same records, in any order, hold the same compensation names. */
  lemma {:induction false} CompensationNamesPermutation(a: seq<StRow>, b: seq<StRow>)
    requires multiset(a) == multiset(b)
    ensures multiset(CompensationNames(a)) == multiset(CompensationNames(b))
    decreases |a|
  {
    if |a| == 0 {
      assert |b| == |multiset(b)| == 0;
    } else {
      assert a[0] in multiset(a);
      var j :| 0 <= j < |b| && b[j] == a[0];
      PermutationTail(a, b, j);
      CompensationNamesPermutation(a[1..], b[..j] + b[j + 1..]);
      NamesAround(b, j);
      assert a == [a[0]] + a[1..];
      CompensationNamesAppend([a[0]], a[1..]);
      ghost var head, tail := CompensationNames([a[0]]), CompensationNames(a[1..]);
      ghost var left, right := CompensationNames(b[..j]), CompensationNames(b[j + 1..]);
      assert CompensationNames(a) == head + tail;
      assert CompensationNames(b) == left + head + right;
      assert multiset(tail) == multiset(left + right);
    }
  }

  /** Lists holding the same rows satisfy the same existential scans. */
  lemma ContainsSameRows(a: seq<StRow>, b: seq<StRow>, pred: StRow -> bool)
    requires forall s :: s in a <==> s in b
    ensures Contains(a, pred) == Contains(b, pred)
  {
    ContainsMember(a, pred);
    ContainsMember(b, pred);
  }

  /** The state validators depend only on which rows are present, not on their order. */
  lemma ValidatorsIgnoreOrder(a: seq<StRow>, b: seq<StRow>)
    requires multiset(a) == multiset(b)
    ensures ValidateStatesSuccess(a) == ValidateStatesSuccess(b)
    ensures ValidateStatesCompBalance(a) == ValidateStatesCompBalance(b)
    ensures ValidateStatesCompInventory(a) == ValidateStatesCompInventory(b)
  {
    assert forall s :: s in a <==> s in multiset(a);
    assert forall s :: s in b <==> s in multiset(b);
    ContainsSameRows(a, b, InventoryReduced);
    ContainsSameRows(a, b, InventoryFailed);
    ContainsSameRows(a, b, BalanceReduced);
    ContainsSameRows(a, b, BalanceFailed);
    ContainsSameRows(a, b, Compensation);
    ContainsSameRows(a, b, NamedCompensation);
    ContainsSameRows(a, b, PrefixedCompensation);
    CompensationNamesPermutation(a, b);
    SortIgnoresOrder(CompensationNames(a), CompensationNames(b));
  }

  // ---------------------------------------------------------------------
  // The exit code of main
  // ---------------------------------------------------------------------

  /** What the run's scenario accepts: its machine check and its state check both pass. */
  predicate Accepts(scenario: string, row: SmRow, states: seq<StRow>)
  {
    match scenario
    case "success" =>
      EndedInSuccess(row)
      && (exists s :: s in states && InventoryReduced(s))
      && (exists s :: s in states && BalanceReduced(s))
      && (forall s :: s in states ==> !Compensation(s))
    case "compensate-balance" =>
      EndedCompensated(row)
      && (exists s :: s in states && InventoryReduced(s))
      && (exists s :: s in states && BalanceFailed(s))
      && (exists s :: s in states && PrefixedCompensation(s))
    case "compensate-inventory" =>
      EndedUncompensated(row)
      && (exists s :: s in states && InventoryFailed(s))
      && (forall s :: s in states ==> !Compensation(s))
    case _ => false
  }

  predicate KnownScenario(scenario: string)
  {
    scenario == "success" || scenario == "compensate-balance" || scenario == "compensate-inventory"
  }

  /** The switch at the end of main: 1 when a check fails, 2 for an unknown scenario, 0 otherwise. */
  function ScenarioExit(scenario: string, row: SmRow, states: seq<StRow>): int
  {
    match scenario
    case "success" =>
      if ExpectSuccess(row).Some? then 1
      else if ValidateStatesSuccess(states).Some? then 1
      else 0
    case "compensate-balance" =>
      if ExpectCompensateFail(row).Some? then 1
      else if ValidateStatesCompBalance(states).Some? then 1
      else 0
    case "compensate-inventory" =>
      if ExpectForwardFail(row).Some? then 1
      else if ValidateStatesCompInventory(states).Some? then 1
      else 0
    case _ => 2
  }

  /**
   * The exit status of main. `conf` is the configuration file as read and
   * decoded; `store` is the machine row and the state rows the queries
   * return, or None when opening, pinging or querying the database failed.
   */
  function ExitCode(engineConfPath: string, xid: string, scenario: string,
                    conf: Result<EngineConf, string>,
                    store: Option<(SmRow, seq<StRow>)>): (code: int)
    ensures code == 0 || code == 1 || code == 2
  {
    if engineConfPath == "" || xid == "" then 2
    else match LoadEngineConf(conf)
      case Err(_) => 2
      case Ok(cfg) =>
        if cfg.storeType != "mysql" then 2
        else match store
          case None => 2
          case Some((row, states)) => ScenarioExit(scenario, row, states)
  }

  /** The set-up of main succeeds: flags given, a valid MySQL configuration, database reachable. */
  predicate SetupOk(engineConfPath: string, xid: string, conf: Result<EngineConf, string>,
                    store: Option<(SmRow, seq<StRow>)>)
  {
    && engineConfPath != "" && xid != ""
    && conf.Ok? && conf.value.storeEnabled && conf.value.storeType == "mysql" && conf.value.storeDsn != ""
    && store.Some?
  }

  /** The success scenario exits 0 exactly when its checks accept the records, and 1 otherwise. */
  lemma SuccessExit(row: SmRow, states: seq<StRow>)
    ensures ScenarioExit("success", row, states) == (if Accepts("success", row, states) then 0 else 1)
  {
  }

  /** The compensate-balance scenario exits 0 exactly when its checks accept the records, and 1 otherwise. */
  lemma CompBalanceExit(row: SmRow, states: seq<StRow>)
    ensures ScenarioExit("compensate-balance", row, states) == (if Accepts("compensate-balance", row, states) then 0 else 1)
  {
  }

  /** The compensate-inventory scenario exits 0 exactly when its checks accept the records, and 1 otherwise. */
  lemma CompInventoryExit(row: SmRow, states: seq<StRow>)
    ensures ScenarioExit("compensate-inventory", row, states) == (if Accepts("compensate-inventory", row, states) then 0 else 1)
  {
  }

  /** The switch at the end of main exits 0 on acceptance, 1 on a failed check of a known scenario, 2 otherwise. */
  lemma ScenarioExitMeaning(scenario: string, row: SmRow, states: seq<StRow>)
    ensures var code := ScenarioExit(scenario, row, states);
      && (code == 0 <==> Accepts(scenario, row, states))
      && (code == 1 <==> KnownScenario(scenario) && !Accepts(scenario, row, states))
      && (code == 2 <==> !KnownScenario(scenario))
  {
    if scenario == "success" {
      SuccessExit(row, states);
    } else if scenario == "compensate-balance" {
      CompBalanceExit(row, states);
    } else if scenario == "compensate-inventory" {
      CompInventoryExit(row, states);
    }
  }

  /** Exit code 0 exactly when the set-up succeeds and the scenario accepts the records; 1 when a check fails; 2 otherwise. */
  lemma ExitCodeMeaning(engineConfPath: string, xid: string, scenario: string,
                        conf: Result<EngineConf, string>, store: Option<(SmRow, seq<StRow>)>)
    ensures var code := ExitCode(engineConfPath, xid, scenario, conf, store);
      && (code == 0 <==> SetupOk(engineConfPath, xid, conf, store) && Accepts(scenario, store.value.0, store.value.1))
      && (code == 1 <==> SetupOk(engineConfPath, xid, conf, store) && KnownScenario(scenario)
                           && !Accepts(scenario, store.value.0, store.value.1))
      && (code == 2 <==> !SetupOk(engineConfPath, xid, conf, store) || !KnownScenario(scenario))
  {
    if SetupOk(engineConfPath, xid, conf, store) {
      assert LoadEngineConf(conf) == conf;
      ScenarioExitMeaning(scenario, store.value.0, store.value.1);
    }
  }
}
