/**
 * The business side of the saga end-to-end harness (saga/e2e/main.go):
 * the inventory and balance actions the saga engine invokes, the seeding
 * of their tables, the store check and driver choice of openBusinessDB,
 * and the choice of the address checkSeataConnectivity dials.
 *
 * Each table is a map from its primary key to its one integer column,
 * and each SQL statement is the function that gives its effect on that map.
 */
module SagaActions {
  import opened Common

  /** A table keyed by a VARCHAR primary key with one INT column. */
  type Table = map<string, int>

  /** The quantity an action uses: a non-positive count or amount becomes 1. */
  function EffectiveQuantity(n: int): (q: int)
    ensures q >= 1
    ensures n >= 1 ==> q == n
    ensures n <= 0 ==> q == 1
  {
    if n <= 0 then 1 else n
  }

  /**
   * `UPDATE t SET v = v - q WHERE key = k AND v >= q` followed by the
   * RowsAffected test: the new table, or None when no row was affected.
   */
  function GuardedDecrement(t: Table, k: string, q: int): (r: Option<Table>)
    ensures r.Some? <==> k in t && t[k] >= q
    ensures r.Some? ==> r.value.Keys == t.Keys && r.value[k] == t[k] - q
    ensures r.Some? ==> forall j :: j in t && j != k ==> r.value[j] == t[j]
  {
    if k in t && t[k] >= q then Some(t[k := t[k] - q]) else None
  }

  /** `UPDATE t SET v = v + q WHERE key = k`: a missing row is no error. */
  function Increment(t: Table, k: string, q: int): (r: Table)
    ensures r.Keys == t.Keys
    ensures k in t ==> r[k] == t[k] + q
    ensures forall j :: j in t && j != k ==> r[j] == t[j]
  {
    if k in t then t[k := t[k] + q] else t
  }

  /** A successful decrement followed by the increment of the same key and quantity restores the table. */
  lemma CompensationRestores(t: Table, k: string, q: int)
    requires GuardedDecrement(t, k, q).Some?
    ensures Increment(GuardedDecrement(t, k, q).value, k, q) == t
  {
    var after := GuardedDecrement(t, k, q).value;
    assert Increment(after, k, q).Keys == t.Keys;
  }

  /** A guarded decrement never drives a row below zero, so a table of non-negative rows stays so. */
  lemma DecrementKeepsNonNegative(t: Table, k: string, q: int)
    requires forall j :: j in t ==> t[j] >= 0
    requires GuardedDecrement(t, k, q).Some?
    ensures forall j :: j in GuardedDecrement(t, k, q).value ==> GuardedDecrement(t, k, q).value[j] >= 0
  {
  }

  /** The rows from index n on, written into t one after the other. */
  function UpsertFrom(t: Table, rows: seq<(string, int)>, n: nat): Table
    requires n <= |rows|
    decreases |rows| - n
  {
    if n == |rows| then t else UpsertFrom(t[rows[n].0 := rows[n].1], rows, n + 1)
  }

  /** The keys after the upsert: the table's and the rows'. */
  lemma {:induction false} UpsertFromKeys(t: Table, rows: seq<(string, int)>, n: nat)
    requires n <= |rows|
    ensures forall k :: k in UpsertFrom(t, rows, n) <==> k in t || exists i :: n <= i < |rows| && rows[i].0 == k
    decreases |rows| - n
  {
    if n < |rows| {
      UpsertFromKeys(t[rows[n].0 := rows[n].1], rows, n + 1);
    }
  }

  /** A row whose key no later row repeats holds its value after the upsert. */
  lemma {:induction false} UpsertFromWritten(t: Table, rows: seq<(string, int)>, n: nat)
    requires n <= |rows|
    ensures forall i :: n <= i < |rows| && (forall j :: i < j < |rows| ==> rows[j].0 != rows[i].0)
                        ==> rows[i].0 in UpsertFrom(t, rows, n) && UpsertFrom(t, rows, n)[rows[i].0] == rows[i].1
    decreases |rows| - n
  {
    if n < |rows| {
      var t' := t[rows[n].0 := rows[n].1];
      UpsertFromWritten(t', rows, n + 1);
      UpsertFromKept(t', rows, n + 1);
      forall i | n <= i < |rows| && (forall j :: i < j < |rows| ==> rows[j].0 != rows[i].0)
        ensures rows[i].0 in UpsertFrom(t, rows, n) && UpsertFrom(t, rows, n)[rows[i].0] == rows[i].1
      {
        if i == n {
          assert rows[n].0 in t' && t'[rows[n].0] == rows[n].1;
        }
      }
    }
  }

  /** A key no row names keeps its value. */
  lemma {:induction false} UpsertFromKept(t: Table, rows: seq<(string, int)>, n: nat)
    requires n <= |rows|
    ensures forall k :: k in t && (forall i :: n <= i < |rows| ==> rows[i].0 != k)
                        ==> k in UpsertFrom(t, rows, n) && UpsertFrom(t, rows, n)[k] == t[k]
    decreases |rows| - n
  {
    if n < |rows| {
      UpsertFromKept(t[rows[n].0 := rows[n].1], rows, n + 1);
    }
  }

  /**
   * `INSERT INTO t VALUES rows ON DUPLICATE KEY UPDATE v = VALUES(v)`:
   * every listed row is written, whether or not its key was present.
   */
  function Upsert(t: Table, rows: seq<(string, int)>): (r: Table)
    ensures forall k :: k in r <==> k in t || exists i :: 0 <= i < |rows| && rows[i].0 == k
    ensures forall i :: 0 <= i < |rows| && (forall j :: i < j < |rows| ==> rows[j].0 != rows[i].0)
                        ==> r[rows[i].0] == rows[i].1
    ensures forall k :: k in t && (forall i :: 0 <= i < |rows| ==> rows[i].0 != k) ==> r[k] == t[k]
  {
    UpsertFromKeys(t, rows, 0);
    UpsertFromWritten(t, rows, 0);
    UpsertFromKept(t, rows, 0);
    UpsertFrom(t, rows, 0)
  }

  /** The database the actions work on: e2e_inventory and e2e_balance. */
  class BusinessDb {
    var inventory: Table   // product_id -> stock
    var balance: Table     // user_id -> amount

    constructor (inventory: Table, balance: Table)
      ensures this.inventory == inventory && this.balance == balance
    {
      this.inventory := inventory;
      this.balance := balance;
    }
  }

  const InventoryNotEnough := "INVENTORY_NOT_ENOUGH"
  const BalanceNotEnough := "BALANCE_NOT_ENOUGH"

  /** The inventory action: reduces and restores the stock of a product. */
  class InventoryAction {
    const db: BusinessDb

    constructor (db: BusinessDb)
      ensures this.db == db
    {
      this.db := db;
    }

    /** Reduce: take count units of stock, only when the product has that many. */
    method Reduce(businessKey: string, productId: string, count: int) returns (ok: bool, err: Option<string>)
      modifies db
      ensures ok == GuardedDecrement(old(db.inventory), productId, EffectiveQuantity(count)).Some?
      ensures ok ==> db.inventory == GuardedDecrement(old(db.inventory), productId, EffectiveQuantity(count)).value
      ensures !ok ==> db.inventory == old(db.inventory)
      ensures err == if ok then None else Some(InventoryNotEnough)
      ensures db.balance == old(db.balance)
    {
      var q := count;
      if q <= 0 {
        q := 1;
      }
      var updated := GuardedDecrement(db.inventory, productId, q);
      if updated.None? {
        return false, Some(InventoryNotEnough);
      }
      db.inventory := updated.value;
      return true, None;
    }

    /** CompensateReduce: put count units back, whether or not the product row exists. */
    method CompensateReduce(businessKey: string, productId: string, count: int) returns (ok: bool, err: Option<string>)
      modifies db
      ensures ok && err == None
      ensures db.inventory == Increment(old(db.inventory), productId, EffectiveQuantity(count))
      ensures db.balance == old(db.balance)
    {
      var q := count;
      if q <= 0 {
        q := 1;
      }
      db.inventory := Increment(db.inventory, productId, q);
      return true, None;
    }
  }

  /** The balance action: reduces and restores the amount of a user. */
  class BalanceAction {
    const db: BusinessDb

    constructor (db: BusinessDb)
      ensures this.db == db
    {
      this.db := db;
    }

    /** Reduce: take amount from the user, only when the user has that much. */
    method Reduce(businessKey: string, userId: string, amount: int) returns (ok: bool, err: Option<string>)
      modifies db
      ensures ok == GuardedDecrement(old(db.balance), userId, EffectiveQuantity(amount)).Some?
      ensures ok ==> db.balance == GuardedDecrement(old(db.balance), userId, EffectiveQuantity(amount)).value
      ensures !ok ==> db.balance == old(db.balance)
      ensures err == if ok then None else Some(BalanceNotEnough)
      ensures db.inventory == old(db.inventory)
    {
      var q := amount;
      if q <= 0 {
        q := 1;
      }
      var updated := GuardedDecrement(db.balance, userId, q);
      if updated.None? {
        return false, Some(BalanceNotEnough);
      }
      db.balance := updated.value;
      return true, None;
    }

    /** CompensateReduce: give amount back, whether or not the user row exists. */
    method CompensateReduce(businessKey: string, userId: string, amount: int) returns (ok: bool, err: Option<string>)
      modifies db
      ensures ok && err == None
      ensures db.balance == Increment(old(db.balance), userId, EffectiveQuantity(amount))
      ensures db.inventory == old(db.inventory)
    {
      var q := amount;
      if q <= 0 {
        q := 1;
      }
      db.balance := Increment(db.balance, userId, q);
      return true, None;
    }
  }

  /** The reduce-then-compensate pair of either action leaves its table as it was. */
  lemma ReduceThenCompensate(t: Table, k: string, n: int)
    requires GuardedDecrement(t, k, EffectiveQuantity(n)).Some?
    ensures Increment(GuardedDecrement(t, k, EffectiveQuantity(n)).value, k, EffectiveQuantity(n)) == t
  {
    CompensationRestores(t, k, EffectiveQuantity(n));
  }

  // ---------------------------------------------------------------------
  // seedBusinessData
  // ---------------------------------------------------------------------

  const InventorySeed: seq<(string, int)> := [("p_s", 100), ("p_b", 100), ("p_i", 100)]
  const BalanceSeed: seq<(string, int)> := [("u_s", 1000), ("u_b", 50), ("u_i", 1000)]

  /** The seeded products hold stock 100, and every other product is as it was. */
  lemma SeededInventory(inventory: Table)
    ensures var inv := Upsert(inventory, InventorySeed);
      && "p_s" in inv && inv["p_s"] == 100
      && "p_b" in inv && inv["p_b"] == 100
      && "p_i" in inv && inv["p_i"] == 100
      && forall k :: k in inventory && k != "p_s" && k != "p_b" && k != "p_i" ==> k in inv && inv[k] == inventory[k]
  {
    var inv := Upsert(inventory, InventorySeed);
    assert InventorySeed[0].0 == "p_s" && InventorySeed[1].0 == "p_b" && InventorySeed[2].0 == "p_i";
    assert inv[InventorySeed[0].0] == 100 && inv[InventorySeed[1].0] == 100 && inv[InventorySeed[2].0] == 100;
  }

  /** The seeded users hold 1000, 50 and 1000, and every other user is as it was. */
  lemma SeededBalance(balance: Table)
    ensures var bal := Upsert(balance, BalanceSeed);
      && "u_s" in bal && bal["u_s"] == 1000
      && "u_b" in bal && bal["u_b"] == 50
      && "u_i" in bal && bal["u_i"] == 1000
      && forall k :: k in balance && k != "u_s" && k != "u_b" && k != "u_i" ==> k in bal && bal[k] == balance[k]
  {
    var bal := Upsert(balance, BalanceSeed);
    assert BalanceSeed[0].0 == "u_s" && BalanceSeed[1].0 == "u_b" && BalanceSeed[2].0 == "u_i";
    assert bal[BalanceSeed[0].0] == 1000 && bal[BalanceSeed[1].0] == 50 && bal[BalanceSeed[2].0] == 1000;
  }

  /**
   * seedBusinessData: the tables exist already (CREATE TABLE IF NOT EXISTS
   * changes no rows); the two upserts reset the fixed rows.
   */
  method SeedBusinessData(db: BusinessDb)
    modifies db
    ensures db.inventory == Upsert(old(db.inventory), InventorySeed)
    ensures db.balance == Upsert(old(db.balance), BalanceSeed)
    ensures "p_s" in db.inventory && "p_b" in db.inventory && "p_i" in db.inventory
    ensures db.inventory["p_s"] == 100 && db.inventory["p_b"] == 100 && db.inventory["p_i"] == 100
    ensures "u_s" in db.balance && "u_b" in db.balance && "u_i" in db.balance
    ensures db.balance["u_s"] == 1000 && db.balance["u_b"] == 50 && db.balance["u_i"] == 1000
    ensures forall k :: k in old(db.inventory) && k != "p_s" && k != "p_b" && k != "p_i"
                        ==> k in db.inventory && db.inventory[k] == old(db.inventory)[k]
    ensures forall k :: k in old(db.balance) && k != "u_s" && k != "u_b" && k != "u_i"
                        ==> k in db.balance && db.balance[k] == old(db.balance)[k]
  {
    SeededInventory(db.inventory);
    SeededBalance(db.balance);
    db.inventory := Upsert(db.inventory, InventorySeed);
    db.balance := Upsert(db.balance, BalanceSeed);
  }

  // ---------------------------------------------------------------------
  // openBusinessDB
  // ---------------------------------------------------------------------

  /** The store section of the engine configuration as openBusinessDB decodes it. */
  datatype RuntimeStoreConf = RuntimeStoreConf(storeEnabled: bool, storeType: string, storeDsn: string, tcEnabled: bool)

  /** The SQL driver name: both spellings of SQLite open the "sqlite3" driver. */
  function NormalizeDriver(storeType: string): (driver: string)
    ensures storeType == "sqlite" || storeType == "sqlite3" ==> driver == "sqlite3"
    ensures storeType != "sqlite" && storeType != "sqlite3" ==> driver == storeType
  {
    if storeType == "sqlite" || storeType == "sqlite3" then "sqlite3" else storeType
  }

  lemma NormalizeDriverIdempotent(storeType: string)
    ensures NormalizeDriver(NormalizeDriver(storeType)) == NormalizeDriver(storeType)
  {
  }

  const StoreNotConfigured := "engine store not configured"

  /**
   * openBusinessDB up to sql.Open: the driver name and data source it opens,
   * or the error for an unconfigured store.
   */
  function OpenBusinessDb(conf: RuntimeStoreConf): (r: Result<(string, string), string>)
    ensures r.Err? <==> !conf.storeEnabled || conf.storeType == "" || conf.storeDsn == ""
    ensures r.Err? ==> r.error == StoreNotConfigured
    ensures r.Ok? ==> r.value == (NormalizeDriver(conf.storeType), conf.storeDsn) && r.value.0 != ""
  {
    if !conf.storeEnabled || conf.storeType == "" || conf.storeDsn == "" then Err(StoreNotConfigured)
    else Ok((NormalizeDriver(conf.storeType), conf.storeDsn))
  }

  // ---------------------------------------------------------------------
  // checkSeataConnectivity
  // ---------------------------------------------------------------------

  /** unicode.IsSpace, the test strings.TrimSpace uses. */
  predicate IsSpace(c: char)
  {
    || c == '\t' || c == '\n' || c == '\U{000B}' || c == '\U{000C}' || c == '\r' || c == ' '
    || c == '\U{0085}' || c == '\U{00A0}' || c == '\U{1680}'
    || ('\U{2000}' <= c <= '\U{200A}')
    || c == '\U{2028}' || c == '\U{2029}' || c == '\U{202F}' || c == '\U{205F}' || c == '\U{3000}'
  }

  /** The index of the first non-space character of s at or after i, or |s|. */
  function SpaceEnd(s: string, i: nat): (e: nat)
    requires i <= |s|
    ensures i <= e <= |s|
    ensures forall k :: i <= k < e ==> IsSpace(s[k])
    ensures e < |s| ==> !IsSpace(s[e])
    decreases |s| - i
  {
    if i < |s| && IsSpace(s[i]) then SpaceEnd(s, i + 1) else i
  }

  /** The end of s[lo..end] once its trailing white space is cut off. */
  function SpaceStart(s: string, lo: nat, end: nat): (e: nat)
    requires lo <= end <= |s|
    ensures lo <= e <= end
    ensures forall k :: e <= k < end ==> IsSpace(s[k])
    ensures e > lo ==> !IsSpace(s[e - 1])
  {
    if end > lo && IsSpace(s[end - 1]) then SpaceStart(s, lo, end - 1) else end
  }

  /** strings.TrimSpace: the slice of s between its leading and trailing white space. */
  function TrimSpace(s: string): (r: string)
    ensures exists i, j :: (0 <= i <= j <= |s| && r == s[i..j]
      && (forall k :: 0 <= k < i ==> IsSpace(s[k])) && (forall k :: j <= k < |s| ==> IsSpace(s[k])))
    ensures |r| > 0 ==> !IsSpace(r[0]) && !IsSpace(r[|r| - 1])
    ensures r == s[SpaceEnd(s, 0)..SpaceStart(s, SpaceEnd(s, 0), |s|)]
  {
    var i := SpaceEnd(s, 0);
    var j := SpaceStart(s, i, |s|);
    assert forall k :: j <= k < |s| ==> IsSpace(s[k]);
    s[i..j]
  }

  /** strings.Split(s, ",")[0]: the text before the first comma, or all of s. */
  function FirstField(s: string): (r: string)
    ensures |r| <= |s| && r == s[..|r|]
    ensures ',' !in r
    ensures |r| < |s| ==> s[|r|] == ','
  {
    if |s| == 0 || s[0] == ',' then "" else [s[0]] + FirstField(s[1..])
  }

  /** A slice of the first comma-separated field is a slice of the address that stops before its first comma. */
  lemma FieldSliceInAddress(addr: string, i: nat, j: nat)
    requires j <= |FirstField(addr)| && i <= j
    ensures j <= |addr| && FirstField(addr)[i..j] == addr[i..j] && ',' !in addr[..j]
  {
    var field := FirstField(addr);
    assert field == addr[..|field|];
    assert addr[..j] == field[..j];
  }

  /**
   * The address dialled for one grouplist entry: with a comma, its first
   * part trimmed; without one, the entry itself, untrimmed.
   */
  function DialTarget(addr: string): string
  {
    if ',' in addr then TrimSpace(FirstField(addr)) else addr
  }

  /**
   * An entry without a comma is dialled as it is; with one, the target is
   * a slice of the entry before its first comma, with no white space at
   * either end.
   */
  lemma DialTargetShape(addr: string)
    ensures var target := DialTarget(addr);
      && (',' !in addr ==> target == addr)
      && (',' in addr ==> exists i, j :: 0 <= i <= j <= |addr| && target == addr[i..j] && ',' !in addr[..j])
      && (',' in addr && |target| > 0 ==> !IsSpace(target[0]) && !IsSpace(target[|target| - 1]))
  {
    if ',' in addr {
      var field := FirstField(addr);
      var i := SpaceEnd(field, 0);
      var j := SpaceStart(field, i, |field|);
      FieldSliceInAddress(addr, i, j);
      assert DialTarget(addr) == addr[i..j];
    }
  }

  /** The first entry from index n on whose dial target is not empty. */
  function FirstTargetFrom(groupList: seq<string>, n: nat): Option<string>
    requires n <= |groupList|
    decreases |groupList| - n
  {
    if n == |groupList| then None
    else if DialTarget(groupList[n]) != "" then Some(DialTarget(groupList[n]))
    else FirstTargetFrom(groupList, n + 1)
  }

  /** The scan finds nothing exactly when every target from n on is empty. */
  lemma {:induction false} FirstTargetFromNone(groupList: seq<string>, n: nat)
    requires n <= |groupList|
    ensures FirstTargetFrom(groupList, n).None? <==> forall i :: n <= i < |groupList| ==> DialTarget(groupList[i]) == ""
    decreases |groupList| - n
  {
    if n < |groupList| {
      FirstTargetFromNone(groupList, n + 1);
    }
  }

  /** What the scan finds is the target of an entry after only empty targets. */
  lemma {:induction false} FirstTargetFromSome(groupList: seq<string>, n: nat)
    requires n <= |groupList|
    ensures var r := FirstTargetFrom(groupList, n);
      r.Some? ==> exists i :: n <= i < |groupList| && r.value == DialTarget(groupList[i]) && r.value != ""
                    && forall j :: n <= j < i ==> DialTarget(groupList[j]) == ""
    decreases |groupList| - n
  {
    if n < |groupList| && DialTarget(groupList[n]) == "" {
      FirstTargetFromSome(groupList, n + 1);
    }
  }

  /** The first grouplist entry whose dial target is not empty, in iteration order. */
  function FirstTarget(groupList: seq<string>): (r: Option<string>)
    ensures r.None? <==> forall i :: 0 <= i < |groupList| ==> DialTarget(groupList[i]) == ""
    ensures r.Some? ==> exists i :: 0 <= i < |groupList| && r.value == DialTarget(groupList[i]) && r.value != ""
                          && forall j :: 0 <= j < i ==> DialTarget(groupList[j]) == ""
  {
    FirstTargetFromNone(groupList, 0);
    FirstTargetFromSome(groupList, 0);
    FirstTargetFrom(groupList, 0)
  }

  /**
   * checkSeataConnectivity after the file has been read and decoded.
   * groupList holds the grouplist values in the order Go's map iteration
   * produced them; dial gives the dial error for an address, None when it connects.
   */
  method CheckSeataConnectivity(seataConf: string, groupList: seq<string>, dial: string -> Option<string>)
    returns (err: Option<string>)
    ensures FirstTarget(groupList).None? ==>
      err == Some("no seata service.grouplist address found in " + seataConf)
    ensures FirstTarget(groupList).Some? ==>
      var target := FirstTarget(groupList).value;
      err == if dial(target).None? then None else Some("dial " + target + " failed: " + dial(target).value)
  {
    var i := 0;
    while i < |groupList|
      invariant 0 <= i <= |groupList|
      invariant FirstTarget(groupList) == FirstTargetFrom(groupList, i)
    {
      var addr := groupList[i];
      var target := addr;
      if ',' in addr {
        target := TrimSpace(FirstField(addr));
      }
      if target == "" {
        i := i + 1;
        continue;
      }
      var dialErr := dial(target);
      if dialErr.Some? {
        return Some("dial " + target + " failed: " + dialErr.value);
      }
      return None;
    }
    return Some("no seata service.grouplist address found in " + seataConf);
  }
}
