# seata-go samples: the logic behind the demos, in Dafny

The seata-go samples repository is mostly glue: it opens connections and wraps calls
into the seata-go transaction manager. This project models the few pieces of it that
hold logic of their own, and proves what they promise.

- **Saga run validator** (`dbcheck.dfy`, module `DbCheck`). These are the acceptance checks
  the saga end-to-end run applies to its persisted records.
  - One machine-instance row is checked by `expectSuccess`, `expectCompensateFail` and the
    compensate-inventory check written inline in `main`.
  - The list of state-instance rows is checked by the three `validateStates*` functions and
    their `contains` scan.
  - `loadEngineConf` checks the store configuration, and `main` turns the outcome into exit
    code 0, 1 or 2.
  - SQL NULL is `Option.None`. Each check is a list of failure messages, joined with "; ".
- **Saga business actions** (`saga_actions.dfy`, module `SagaActions`).
  - `InventoryAction` and `BalanceAction` work on a `BusinessDb` object. Its two tables are
    `map<string,int>` fields, and each UPDATE statement becomes its effect on a map.
  - `seedBusinessData`'s upserts are modelled as well.
  - So are the store check and driver-name normalisation of `openBusinessDB`, and the choice
    of the address `checkSeataConnectivity` dials.
- **Compensate-balance scenario** (`comp_balance.dfy`, module `CompBalance`). This is the
  scenario's parameter map. It is combined with the seeded tables and the action calls the
  saga makes for it.
- **Account deduction** (`account_service.dfy` and `account_server.dfy`, modules `Accounts`
  and `AccountApi`).
  - The service reads the user's row, checks the balance and writes the reduced balance.
  - The gRPC adapter parses the user id as `strconv.ParseInt(s, 10, 64)` does, delegates to
    the service and builds the response.
- **Environment defaults and DSN** (`db_util.dfy`, module `DbUtil`).
  - `defaultEnv` fills the five `MYSQL_*` variables on an `Environment` object.
  - The DSN template is expanded from them.
  - The AT and XA getters differ only in the driver they name.
- **SQL builders of the at_zorm non-transaction sample** (`non_transaction.dfy`, module
  `NonTransaction`).
  - The batch insert is built in a loop and its trailing comma is cut off.
  - The batch delete is one statement per user id.
  - `updateData`, `deleteData` and `batchDeleteData` return nil even when the database
    call fails.

`common.dfy` (module `Common`) holds what several modules share:
- `Option`, `Result` and Go's `int64` with its wrap-around;
- `strings.Join`;
- decimal formatting and its inverse;
- a sort of strings with its uniqueness proof.

The inputs that the code gets from outside become parameters:
- the clock;
- database faults;
- the dial result;
- the decoded YAML;
- the iteration order of a Go map.

## Model

| member | source | states |
|---|---|---|
| Common.SortStrings | saga/e2e/dbcheck/main.go:214 | `sort.Strings`: the result is sorted and is a permutation of the input |
| Common.SortIgnoresOrder | saga/e2e/dbcheck/main.go:208-215 | two lists holding the same strings in any order sort to the same list, so the listed names do not depend on row order |
| Common.Wrap64 | quick_start/account/service/account.go:51 | int64 arithmetic: an in-range value is kept; otherwise the result differs from the exact value by a multiple of 2^64 |
| Common.NatToDecimalRoundTrip | saga/e2e/dbcheck/main.go:63 | the `%d` numeral of a natural number reads back as that number |
| DbCheck.Report | saga/e2e/dbcheck/main.go:71-74 | the checks return nil exactly when no failure was collected |
| DbCheck.LoadEngineConf | saga/e2e/dbcheck/main.go:48-51 | a decoded config is accepted iff store_enabled is true and store_type and store_dsn are non-empty; otherwise the fixed "missing" message; read or decode errors pass through |
| DbCheck.ExpectSuccess | saga/e2e/dbcheck/main.go:54-75 | nil iff status is SU, compensation_status is NULL or empty, is_running is 0, gmt_end is non-NULL and excep is NULL or empty; otherwise the joined failures |
| DbCheck.SuccessErrorsEach | saga/e2e/dbcheck/main.go:56-70 | each of the five conditions puts its own message in the report exactly when it fails; at most five messages, and no message other than these five |
| DbCheck.ExpectCompensateFail | saga/e2e/dbcheck/main.go:77-100 | nil iff status is FA, compensation_status is non-NULL and SU, is_running is 0 and gmt_end is non-NULL; excep is never looked at |
| DbCheck.ExpectForwardFail | saga/e2e/dbcheck/main.go:302-318 | the inline compensate-inventory check passes iff status is FA, compensation_status is NULL or empty, is_running is 0 and gmt_end is non-NULL |
| DbCheck.MachineChecksExclusive | saga/e2e/dbcheck/main.go:54-100 | no machine row satisfies two of the three machine checks |
| DbCheck.Contains | saga/e2e/dbcheck/main.go:137-144 | `contains` is true iff some row satisfies the predicate |
| DbCheck.ContainsMember | saga/e2e/dbcheck/main.go:137-144 | the same, stated as membership of a row in the list |
| DbCheck.ValidateStatesSuccess | saga/e2e/dbcheck/main.go:146-167 | nil iff there is an SU forward ReduceInventory row and an SU forward ReduceBalance row, and no row has a non-empty compensated-for |
| DbCheck.ValidateStatesCompBalance | saga/e2e/dbcheck/main.go:169-196 | nil iff there are an SU forward ReduceInventory, an FA forward ReduceBalance and an SU compensation row whose name starts with "Compensate" (the exact name is a special case of the fallback) |
| DbCheck.ValidateStatesCompInventory | saga/e2e/dbcheck/main.go:198-222 | nil iff there is an FA forward ReduceInventory row and no row has a non-empty compensated-for |
| DbCheck.CompInventoryMessage | saga/e2e/dbcheck/main.go:200-221 | the error is the missing-forward-state message, the unexpected-compensation message, or both joined with "; " in that order, according to which check fails |
| DbCheck.UnexpectedCompensationNames | saga/e2e/dbcheck/main.go:208-215 | the unexpected-compensation message lists names that are sorted and are exactly the compensation rows' names, each as often as it occurs |
| DbCheck.CompensationNamesMembers | saga/e2e/dbcheck/main.go:208-213 | the names listed in the message are exactly the names of the compensation rows |
| DbCheck.CompensationNamesPermutation | saga/e2e/dbcheck/main.go:208-213 | rows that are a permutation of each other give permuted name lists |
| DbCheck.ContainsSameRows | saga/e2e/dbcheck/main.go:137-144 | lists with the same rows give the same answer from `contains` |
| DbCheck.ValidatorsIgnoreOrder | saga/e2e/dbcheck/main.go:146-222 | the three state validators, messages included, give the same result on any reordering of the rows |
| DbCheck.ExitCode | saga/e2e/dbcheck/main.go:230-328 | the exit status of main is always 0, 1 or 2 |
| DbCheck.ScenarioExitMeaning | saga/e2e/dbcheck/main.go:277-328 | the final switch exits 0 iff the scenario accepts the records, 1 iff a known scenario's check fails, 2 iff the scenario is unknown |
| DbCheck.ExitCodeMeaning | saga/e2e/dbcheck/main.go:230-328 | 0 iff the flags, a mysql config and the database are all in order and the scenario accepts the records; 1 iff all that is in order, the scenario is known and a check fails; 2 for missing flags, a bad or non-mysql config, a database failure or an unknown scenario |
| SagaActions.EffectiveQuantity | saga/e2e/main.go:47-49 | a non-positive count or amount becomes 1; a positive one is kept |
| SagaActions.GuardedDecrement | saga/e2e/main.go:50-56 | the conditional UPDATE affects a row iff the key exists and its value is at least the quantity; then that value drops by the quantity and no other row changes |
| SagaActions.Increment | saga/e2e/main.go:65 | the unconditional UPDATE adds the quantity to an existing row and changes nothing else; a missing row is no error |
| SagaActions.CompensationRestores | saga/e2e/main.go:50-65 | a successful decrement followed by the increment of the same key and quantity gives back the original table |
| SagaActions.DecrementKeepsNonNegative | saga/e2e/main.go:50 | a table of non-negative values stays non-negative after a successful decrement |
| SagaActions.Upsert | saga/e2e/main.go:277-287 | after the upsert every listed key is present with its last listed value, and unlisted keys keep their values |
| SagaActions.InventoryAction.Reduce | saga/e2e/main.go:46-59 | succeeds iff the product exists with stock at least the effective count, then subtracts it; otherwise returns (false, INVENTORY_NOT_ENOUGH) with the table unchanged; balance untouched |
| SagaActions.InventoryAction.CompensateReduce | saga/e2e/main.go:61-70 | always (true, nil); adds the effective count to the product if it exists |
| SagaActions.BalanceAction.Reduce | saga/e2e/main.go:78-91 | succeeds iff the user exists with amount at least the effective amount, then subtracts it; otherwise (false, BALANCE_NOT_ENOUGH) with the table unchanged |
| SagaActions.BalanceAction.CompensateReduce | saga/e2e/main.go:93-102 | always (true, nil); adds the effective amount to the user if they exist |
| SagaActions.ReduceThenCompensate | saga/e2e/main.go:46-70 | Reduce followed by CompensateReduce with the same id and quantity restores the table, for either action |
| SagaActions.SeededInventory | saga/e2e/main.go:277-281 | after seeding, p_s, p_b and p_i hold 100 and every other product is untouched |
| SagaActions.SeededBalance | saga/e2e/main.go:283-287 | after seeding, u_s, u_b and u_i hold 1000, 50 and 1000 and every other user is untouched |
| SagaActions.SeedBusinessData | saga/e2e/main.go:259-289 | seeding sets both tables to their upserts, with those values, whatever the rows held before |
| SagaActions.NormalizeDriver | saga/e2e/main.go:243-246 | "sqlite" and "sqlite3" open "sqlite3"; every other store type is its own driver name |
| SagaActions.NormalizeDriverIdempotent | saga/e2e/main.go:243-246 | normalising a normalised driver name changes nothing |
| SagaActions.OpenBusinessDb | saga/e2e/main.go:240-247 | an error iff the store is disabled or its type or DSN is empty; otherwise the normalised driver and the DSN are opened |
| SagaActions.TrimSpace | saga/e2e/main.go:215 | `strings.TrimSpace`: a slice of the input with only white space cut from both ends, starting and ending on non-space |
| SagaActions.FirstField | saga/e2e/main.go:214-215 | `strings.Split(s, ",")[0]`: the prefix before the first comma, or the whole string |
| SagaActions.DialTargetShape | saga/e2e/main.go:211-216 | an address without a comma is used untrimmed; with one, the trimmed text before the first comma |
| SagaActions.FirstTarget | saga/e2e/main.go:210-219 | the first entry, in iteration order, whose target is non-empty; None iff every target is empty |
| SagaActions.CheckSeataConnectivity | saga/e2e/main.go:210-227 | dials only the first non-empty target and returns its dial error wrapped, or nil; with no target, the "no seata service.grouplist address" error |
| CompBalance.CompensateBalanceParams | saga/e2e/scenario_comp_balance.go:20-29 | the fixture has exactly the keys businessKey, productId, count, userId and amount |
| CompBalance.FixtureValues | saga/e2e/scenario_comp_balance.go:22-28 | with values "bk_comp_bal", "p_b", 10, "u_b" and 100 |
| CompBalance.BalanceReduceFailsAfterSeed | saga/e2e/scenario_comp_balance.go:21-27 | on the seeded table, reducing u_b by 100 fails and u_b stays 50 |
| CompBalance.InventoryReduceSucceedsAfterSeed | saga/e2e/scenario_comp_balance.go:23-25 | on the seeded table, reducing p_b by 10 succeeds and leaves 90 |
| CompBalance.InventoryCompensationRestoresSeed | saga/e2e/scenario_comp_balance.go:21-25 | compensating that reduction brings p_b back to 100 |
| CompBalance.RunCompensateBalance | saga/e2e/scenario_comp_balance.go:20-29 | seeding, then the saga's calls with the fixture's values: inventory reduce succeeds, balance reduce fails, compensation succeeds; p_b ends at 100, u_b at 50, and other products are untouched |
| Accounts.ErrorText | quick_start/account/service/account.go:42-56 | each error carries its message prefix: not found, failed query, insufficient balance, failed deduction |
| Accounts.FirstByUser | quick_start/account/service/account.go:39 | `First` finds a row of the user iff one exists, and in key order it is the one with the smallest key |
| Accounts.SetBalanceRows | quick_start/account/service/account.go:52-54 | the UPDATE writes only the balance column, on every row of the user; other rows are unchanged |
| Accounts.SetBalanceKeepsKeys | quick_start/account/service/account.go:52-54 | the update leaves the primary keys, and so their order, as they were |
| Accounts.AccountService.Deduct | quick_start/account/service/account.go:37-59 | the returned error and the new table are those of the read-check-write outcome; the rows stay in key order |
| Accounts.DeductErrorWritesNothing | quick_start/account/service/account.go:40-57 | every error path leaves the table unchanged |
| Accounts.DeductMissingAccount | quick_start/account/service/account.go:39-43 | no row for the user gives the not-found error and no update |
| Accounts.DeductInsufficient | quick_start/account/service/account.go:47-49 | a stored balance below the request gives the insufficient-balance error, with both amounts, and no update |
| Accounts.DeductSucceedsIff | quick_start/account/service/account.go:37-58 | Deduct succeeds iff query and update work, the user has a row and its balance covers the request |
| Accounts.DeductFaultsWrapped | quick_start/account/service/account.go:44-56 | a query fault is returned as "failed to query account"; an update fault, once the checks pass, as "failed to deduct balance" |
| Accounts.DeductSuccessEffect | quick_start/account/service/account.go:51-54 | on success every row of the user holds the first row's balance minus the request; other rows are unchanged |
| Accounts.DeductNonNegative | quick_start/account/service/account.go:47-51 | for a non-negative request the new balance is old minus requested, and not below 0 |
| Accounts.DeductNegativeRequestWraps | quick_start/account/service/account.go:51 | a request of -1 against a balance of 2^63-1 succeeds and wraps the balance to -2^63 |
| AccountApi.ParseInt64 | quick_start/account/server/account.go:42 | accepts only an optional sign followed by digits; an unsigned numeral is read as its value iff it fits int64; a "-" numeral is read as the negated value iff it is at most 2^63 |
| AccountApi.ParseFormatted | quick_start/account/server/account.go:42 | every int64 written in decimal parses back to itself |
| AccountApi.ParseRejectsMalformed | quick_start/account/server/account.go:42-45 | the empty string is invalid, and so is every string with a non-digit anywhere except a leading sign followed by more characters |
| AccountApi.ParseRejectsOutOfRange | quick_start/account/server/account.go:42-45 | numerals beyond the int64 range, of either sign, are invalid |
| AccountApi.RequestedAccount | quick_start/account/server/account.go:47-50 | the service gets the parsed user id and Balance = Money, with the other columns zero |
| AccountApi.AccountServer.Deduct | quick_start/account/server/account.go:41-61 | a bad user id gives "invalid user_id", a nil response and an untouched table; otherwise the service's outcome, with its error passed through and a nil response, or on success a response echoing the user id with balance and freeze amount 0 |
| DbUtil.WithDefaults | util/db.go:47-63 | defaultEnv adds the five MYSQL_* keys and no others |
| DbUtil.DefaultsFillUnset | util/db.go:47-63 | a MYSQL_* key that reads as empty gets its default: 127.0.0.1, 3306, root, 123456 or seata_client |
| DbUtil.DefaultsKeepSet | util/db.go:47-63 | a key that is already non-empty, MYSQL_* or other, keeps its value |
| DbUtil.DefaultsAllSet | util/db.go:47-63 | afterwards none of the five keys reads as empty |
| DbUtil.DefaultsIdempotent | util/db.go:47-63 | a second call changes nothing |
| DbUtil.Environment.Setenv | util/db.go:49 | `os.Setenv` overwrites one key |
| DbUtil.Environment.DefaultEnv | util/db.go:47-63 | the five checks in order leave the environment of `WithDefaults` |
| DbUtil.DsnShape | util/db.go:29 | the DSN is user:password@tcp(host:port)/db?multiStatements=true&interpolateParams=true with the environment's values |
| DbUtil.DefaultDsn | util/db.go:29 | from an empty environment: root:123456@tcp(127.0.0.1:3306)/seata_client with the options |
| DbUtil.GetAtMySqlDb | util/db.go:27-35 | applies the defaults, then opens the AT driver with that DSN |
| DbUtil.GetXAMySqlDb | util/db.go:37-45 | applies the defaults, then opens the XA driver with the same DSN |
| NonTransaction.OrderTupleShape | at_zorm/non_transaction/main.go:114-116 | a parenthesised tuple for user "NO-ts" and commodity "Cts", with count 1000 and money 100 |
| Common.PrefixedTerminatedStep | at_zorm/non_transaction/main.go:116 | one iteration appends the next tuple and a comma |
| Common.PrefixedTerminatedTrim | at_zorm/non_transaction/main.go:118 | cutting the last character leaves the tuples joined by commas |
| NonTransaction.BatchInsertData | at_zorm/non_transaction/main.go:107-129 | the statement is the insert prefix and the five tuples joined by commas; the returned user ids are the tuples' ids, in order |
| NonTransaction.NoTrailingComma | at_zorm/non_transaction/main.go:118 | the batch insert ends with ")", not a comma |
| NonTransaction.TupleQuotesUserId | at_zorm/non_transaction/main.go:110-116 | the i-th returned user id is the one quoted at the head of the i-th VALUES tuple |
| NonTransaction.DeleteMatchesInsert | at_zorm/non_transaction/main.go:197-201 | the i-th delete statement built from the returned ids names the user quoted in the i-th inserted tuple |
| NonTransaction.BatchDeleteStatement | at_zorm/non_transaction/main.go:198-201 | the loop builds the concatenation of those statements |
| NonTransaction.DeleteStatementsAppend | at_zorm/non_transaction/main.go:198-201 | no ids give the empty string; more ids append their statements in order |
| NonTransaction.BatchDeleteData | at_zorm/non_transaction/main.go:197-211 | sends that statement and returns nil whether or not the call fails |
| NonTransaction.UpdateData | at_zorm/non_transaction/main.go:172-183 | the update of descs to "NewDescs-<now>" by id; nil even when it fails |
| NonTransaction.DeleteData | at_zorm/non_transaction/main.go:185-195 | the delete by id; nil even when it fails |

## Left out

- The saga orchestration engine is part of the seata-go library, not this repository. It performs the forward execution, the order of compensation and the persistence of state records. `CompBalance.RunCompensateBalance` replays only the action calls the engine makes for its scenario.
- The success and compensate-inventory fixtures are referenced by the saga harness, but their definitions are not part of this model.
- File reads, YAML decoding and flag parsing are left out; the decoded values are inputs. So are printing, `os.Exit` and `time.Now`; every clock reading is an input.
- `fetchStateRows` and the queries in the validator's `main` are I/O. `DbCheck.ExitCode` takes their result, or `None` for any failure to open, ping or query the database.
- SagaActions.InventoryAction.Reduce: an error from `db.Exec` itself is not modelled, only the RowsAffected outcome. The same holds for `InventoryAction.CompensateReduce`, `BalanceAction.Reduce`, `BalanceAction.CompensateReduce` and `SeedBusinessData`. The CREATE TABLE statements are taken as already applied.
- SagaActions.InventoryAction.Reduce: the overflow of MySQL's INT column is not modelled; counts and amounts are unbounded integers. The same holds for `BalanceAction.Reduce` and both `CompensateReduce` methods.
- SagaActions.GuardedDecrement: keys are compared exactly. MySQL compares `product_id` and `user_id` under the column collation, which by default ignores case and accents (and, for PAD SPACE collations, trailing spaces), so `Reduce("P_B", …)` would update row `p_b` where the model reports INVENTORY_NOT_ENOUGH. The same holds for `Increment`, `Upsert` and the four action methods.
- SagaActions.OpenBusinessDb: `sql.Open` and `Ping` are not modelled; the result is the driver name and DSN that would be opened.
- SagaActions.CheckSeataConnectivity: `net.DialTimeout` is the `dial` parameter. Go's map iteration order is unspecified, so the grouplist arrives as a sequence in the order iteration produced.
- Accounts.AccountService.Deduct: a database error from the SELECT other than not-found, and any error from the UPDATE, are parameters. GORM's context handling is not modelled.
- Accounts.AccountService.Deduct: the SELECT and the UPDATE are separate statements with no lock between them. Two concurrent calls can both pass the balance check and write the same new balance, losing one deduction; the sequential method does not show this.
- Accounts.DeductNonNegative: stated only for non-negative requests. The source does not check the sign of `Money`, and the int64 subtraction can wrap (`Accounts.DeductNegativeRequestWraps`).
- AccountApi.AccountServer.Deduct: the `strconv.NumError` text inside "invalid user_id" is not modelled; the error carries the rejected input.
- The `Money` field of the request is taken to be an int64; the protobuf definitions are not part of this model.
- DbUtil.DsnShape: `os.ExpandEnv`'s parsing of `${...}` is not modelled. The template is given already split into literal text and variable references.
- DbUtil.GetAtMySqlDb: `sql.Open` and its panic are not modelled; the method returns the driver and DSN it would open. The same holds for `GetXAMySqlDb`. The drivers' registered names come from the seata-go library, so they are an enumeration.
- NonTransaction.BatchInsertData: the `zorm.UpdateFinder` call and the panic on its error are not modelled; the method returns the statement it sends.
- `insertData`, `selectData` and `insertDuplicateData` of the same sample are left out. They are single zorm calls with no logic of their own.
- String order is compared by code point. For well-formed UTF-8 this is the same order Go's byte-wise comparison gives.
