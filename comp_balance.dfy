/**
 * The compensate-balance scenario (saga/e2e/scenario_comp_balance.go):
 * its run parameters, and what the actions do with them on the seeded
 * tables. The inventory reduction succeeds, the balance reduction fails
 * because u_b holds only 50, and compensating the inventory reduction
 * puts p_b back to 100.
 */
module CompBalance {
  import opened Common
  import opened SagaActions

  /** A value of the untyped run-parameter map. */
  datatype Param = Text(s: string) | Number(n: int)

  /** compensateBalanceParams */
  function CompensateBalanceParams(): (p: map<string, Param>)
    ensures p.Keys == {"businessKey", "productId", "count", "userId", "amount"}
  {
    map["businessKey" := Text("bk_comp_bal"),
        "productId" := Text("p_b"),
        "count" := Number(10),
        "userId" := Text("u_b"),
        "amount" := Number(100)]
  }

  /** The parameters the two actions are bound to. */
  lemma FixtureValues()
    ensures var p := CompensateBalanceParams();
      && p["businessKey"] == Text("bk_comp_bal")
      && p["productId"] == Text("p_b") && p["count"] == Number(10)
      && p["userId"] == Text("u_b") && p["amount"] == Number(100)
  {
  }

  /** On the seeded balance table, reducing u_b by the fixture's 100 fails and leaves it at 50. */
  lemma BalanceReduceFailsAfterSeed(balance: Table)
    ensures var seeded := Upsert(balance, BalanceSeed);
      && GuardedDecrement(seeded, "u_b", EffectiveQuantity(100)).None?
      && seeded["u_b"] == 50
  {
    SeededBalance(balance);
  }

  /** On the seeded inventory table, reducing p_b by the fixture's 10 succeeds and leaves 90. */
  lemma InventoryReduceSucceedsAfterSeed(inventory: Table)
    ensures var seeded := Upsert(inventory, InventorySeed);
      && GuardedDecrement(seeded, "p_b", EffectiveQuantity(10)).Some?
      && GuardedDecrement(seeded, "p_b", EffectiveQuantity(10)).value["p_b"] == 90
  {
    SeededInventory(inventory);
  }

  /** Compensating that reduction brings p_b back to 100. */
  lemma InventoryCompensationRestoresSeed(inventory: Table)
    ensures var seeded := Upsert(inventory, InventorySeed);
      && GuardedDecrement(seeded, "p_b", EffectiveQuantity(10)).Some?
      && Increment(GuardedDecrement(seeded, "p_b", EffectiveQuantity(10)).value, "p_b", EffectiveQuantity(10))["p_b"] == 100
  {
    InventoryReduceSucceedsAfterSeed(inventory);
    ReduceThenCompensate(Upsert(inventory, InventorySeed), "p_b", 10);
    SeededInventory(inventory);
  }

  /**
   * The action calls the saga engine makes for this scenario, in its order:
   * reduce inventory, reduce balance (fails), compensate the inventory
   * reduction. The engine itself is not part of the model; this method
   * replays its calls with the fixture's parameters on a seeded database.
   */
  method RunCompensateBalance(db: BusinessDb) returns (inventoryOk: bool, balanceOk: bool, compensateOk: bool)
    modifies db
    ensures inventoryOk && !balanceOk && compensateOk
    ensures "p_b" in db.inventory && db.inventory["p_b"] == 100
    ensures "u_b" in db.balance && db.balance["u_b"] == 50
    ensures forall k :: k in old(db.inventory) && k != "p_s" && k != "p_b" && k != "p_i"
                        ==> k in db.inventory && db.inventory[k] == old(db.inventory)[k]
  {
    var params := CompensateBalanceParams();
    FixtureValues();
    var key, productId, count := params["businessKey"].s, params["productId"].s, params["count"].n;
    var userId, amount := params["userId"].s, params["amount"].n;
    SeedBusinessData(db);
    ghost var seeded := db.inventory;
    ghost var seededBalance := db.balance;
    var inventory := new InventoryAction(db);
    var balance := new BalanceAction(db);
    var err: Option<string>;
    inventoryOk, err := inventory.Reduce(key, productId, count);
    assert db.inventory["p_b"] == 90;
    balanceOk, err := balance.Reduce(key, userId, amount);
    assert db.balance == seededBalance;
    compensateOk, err := inventory.CompensateReduce(key, productId, count);
    CompensationRestores(seeded, productId, count);
  }
}
