/**
 * The statements the at_zorm non-transaction sample sends
 * (at_zorm/non_transaction/main.go): a five-row batch insert built in a
 * loop, a batch delete with one statement per user id, and the update and
 * delete of one order, whose database errors are reported as success.
 *
 * The clock (time.Now().UnixMilli()) is an input: one reading per loop
 * iteration. The database call is an input too: the error it would return.
 */
module NonTransaction {
  import opened Common

  /** The head of the batch insert, before the VALUES tuples. */
  const InsertPrefix: string :=
    "insert into order_tbl (`user_id`, `commodity_code`, `count`, `money`, `descs`) values "

  /** The user id of a row created at time ts: "NO-<ts>". */
  function UserId(ts: int): string
  {
    "NO-" + IntToDecimal(ts)
  }

  /** One VALUES tuple: user, commodity and description share the timestamp; count 1000, money 100. */
  function OrderTuple(ts: int): string
  {
    var d := IntToDecimal(ts);
    "('" + UserId(ts) + "','C" + d + "',1000,100,'desc " + d + "')"
  }

  /** A tuple is parenthesised, and starts with its user id and commodity code, then count 1000 and money 100. */
  lemma OrderTupleShape(ts: int)
    ensures var r := OrderTuple(ts);
      && |r| > 0 && r[0] == '(' && r[|r| - 1] == ')'
      && HasPrefix(r, "('NO-" + IntToDecimal(ts) + "','C" + IntToDecimal(ts) + "',1000,100,'desc ")
  {
    var d := IntToDecimal(ts);
    var head := "('NO-" + d + "','C" + d + "',1000,100,'desc ";
    assert OrderTuple(ts) == head + (d + "')");
  }

  /** The user ids of a batch, one per clock reading, in order. */
  function UserIds(clock: seq<int>): (r: seq<string>)
    ensures |r| == |clock|
    ensures forall i :: 0 <= i < |clock| ==> r[i] == UserId(clock[i])
  {
    seq(|clock|, i requires 0 <= i < |clock| => UserId(clock[i]))
  }

  /** The tuples of a batch, one per clock reading, in order. */
  function Tuples(clock: seq<int>): (r: seq<string>)
    ensures |r| == |clock|
    ensures forall i :: 0 <= i < |clock| ==> r[i] == OrderTuple(clock[i])
  {
    seq(|clock|, i requires 0 <= i < |clock| => OrderTuple(clock[i]))
  }

  /** One statement of the batch delete. */
  function DeleteStatement(userId: string): string
  {
    "delete from order_tbl where user_id = '" + userId + "';"
  }

  function DeleteStatements(userIds: seq<string>): (r: seq<string>)
    ensures |r| == |userIds|
    ensures forall i :: 0 <= i < |userIds| ==> r[i] == DeleteStatement(userIds[i])
  {
    seq(|userIds|, i requires 0 <= i < |userIds| => DeleteStatement(userIds[i]))
  }

  /**
   * batchInsertData: five tuples, each followed by a comma, then the last
   * comma cut off. clock[i] is the time the i-th iteration reads.
   */
  method BatchInsertData(clock: seq<int>) returns (sql: string, userIds: seq<string>)
    requires |clock| == 5
    ensures sql == InsertPrefix + Join(Tuples(clock), ",")
    ensures |userIds| == 5
    ensures forall i :: 0 <= i < 5 ==> userIds[i] == UserId(clock[i])
  {
    ghost var tuples := Tuples(clock);
    ghost var ids := UserIds(clock);
    userIds := [];
    sql := InsertPrefix;
    for i := 0 to 5
      invariant sql == InsertPrefix + Terminated(tuples[..i], ",")
      invariant userIds == ids[..i]
    {
      var ts := clock[i];
      PrefixSnoc(ids, i);
      userIds := userIds + [UserId(ts)];
      PrefixedTerminatedStep(InsertPrefix, tuples, i, ",");
      sql := sql + (OrderTuple(ts) + ",");
    }
    assert tuples[..5] == tuples;
    assert ids[..5] == ids;
    PrefixedTerminatedTrim(InsertPrefix, tuples, ",");
    sql := sql[..|sql| - 1];
  }

  /** Joining non-empty parts ends with the last part's last character. */
  lemma {:induction false} JoinEndsWithLastPart(parts: seq<string>, sep: string)
    requires |parts| > 0 && |parts[|parts| - 1]| > 0
    ensures var j := Join(parts, sep);
      |j| > 0 && j[|j| - 1] == parts[|parts| - 1][|parts[|parts| - 1]| - 1]
  {
    if |parts| > 1 {
      JoinEndsWithLastPart(parts[1..], sep);
      assert parts[1..][|parts[1..]| - 1] == parts[|parts| - 1];
    }
  }

  /** The batch insert ends with a closing parenthesis: the trailing comma is gone. */
  lemma NoTrailingComma(clock: seq<int>)
    requires |clock| > 0
    ensures var sql := InsertPrefix + Join(Tuples(clock), ",");
      sql[|sql| - 1] == ')'
  {
    OrderTupleShape(clock[|clock| - 1]);
    JoinEndsWithLastPart(Tuples(clock), ",");
  }

  /** The i-th user id is the one quoted at the head of the i-th tuple. */
  lemma TupleQuotesUserId(clock: seq<int>, i: nat)
    requires i < |clock|
    ensures HasPrefix(Tuples(clock)[i], "('" + UserIds(clock)[i] + "','")
  {
    var d := IntToDecimal(clock[i]);
    assert Tuples(clock)[i] == ("('" + UserId(clock[i]) + "','") + ("C" + d + "',1000,100,'desc " + d + "')");
  }

  /**
   * Deleting the ids batchInsertData returns removes what it inserted: the
   * i-th delete statement matches the user id quoted in the i-th tuple.
   */
  lemma DeleteMatchesInsert(clock: seq<int>, i: nat)
    requires i < |clock|
    ensures exists u ::
      && HasPrefix(Tuples(clock)[i], "('" + u + "','")
      && DeleteStatements(UserIds(clock))[i] == "delete from order_tbl where user_id = '" + u + "';"
  {
    TupleQuotesUserId(clock, i);
    var u := UserIds(clock)[i];
    assert DeleteStatements(UserIds(clock))[i] == "delete from order_tbl where user_id = '" + u + "';";
  }

  /** batchDeleteData's statement: one delete per user id, in order. */
  method BatchDeleteStatement(userIds: seq<string>) returns (sql: string)
    ensures sql == Concat(DeleteStatements(userIds))
  {
    sql := "";
    for i := 0 to |userIds|
      invariant sql == Concat(DeleteStatements(userIds[..i]))
    {
      assert DeleteStatements(userIds[..i + 1]) == DeleteStatements(userIds[..i]) + [DeleteStatement(userIds[i])];
      ConcatSnoc(DeleteStatements(userIds[..i]), DeleteStatement(userIds[i]));
      sql := sql + DeleteStatement(userIds[i]);
    }
    assert userIds[..|userIds|] == userIds;
  }

  /** No ids, no statement; more ids append their statements in order. */
  lemma DeleteStatementsAppend(a: seq<string>, b: seq<string>)
    ensures Concat(DeleteStatements([])) == ""
    ensures Concat(DeleteStatements(a + b)) == Concat(DeleteStatements(a)) + Concat(DeleteStatements(b))
  {
    assert DeleteStatements(a + b) == DeleteStatements(a) + DeleteStatements(b);
    ConcatAppend(DeleteStatements(a), DeleteStatements(b));
  }

  /** A bound argument of a zorm Finder. */
  datatype Arg = Text(s: string) | Int(n: int)

  /**
   * batchDeleteData: execErr is what the database call returns. The
   * function reports nil whether or not the call failed.
   */
  method BatchDeleteData(userIds: seq<string>, execErr: Option<string>) returns (sql: string, err: Option<string>)
    ensures sql == Concat(DeleteStatements(userIds))
    ensures err == None
  {
    sql := BatchDeleteStatement(userIds);
    if execErr.Some? {
      return sql, None;
    }
    return sql, None;
  }

  /** updateData: sets the order's description to "NewDescs-<now>"; a failed update still reports nil. */
  method UpdateData(insertId: Int64, now: int, execErr: Option<string>)
    returns (sql: string, args: seq<Arg>, err: Option<string>)
    ensures sql == "update order_tbl set descs=? where id=?"
    ensures args == [Text("NewDescs-" + IntToDecimal(now)), Int(insertId)]
    ensures err == None
  {
    sql := "update order_tbl set descs=? where id=?";
    args := [Text("NewDescs-" + IntToDecimal(now)), Int(insertId)];
    if execErr.Some? {
      return sql, args, None;
    }
    return sql, args, None;
  }

  /** deleteData: deletes the order by id; a failed delete still reports nil. */
  method DeleteData(insertId: Int64, execErr: Option<string>)
    returns (sql: string, args: seq<Arg>, err: Option<string>)
    ensures sql == "delete from order_tbl where id=?"
    ensures args == [Int(insertId)]
    ensures err == None
  {
    sql := "delete from order_tbl where id=?";
    args := [Int(insertId)];
    if execErr.Some? {
      return sql, args, None;
    }
    return sql, args, None;
  }
}
