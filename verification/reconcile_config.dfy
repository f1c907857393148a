/** The reconciler's configuration: for each table its CSV file, database
    table, id column, optional natural key and foreign-key columns, and the
    order in which both passes visit the tables. */
module ReconcileConfig {
  import opened Basics

  /** A foreign-key column of a table's CSV: the parent's configuration key
      and whether the CSV holds a 1-based row number of the parent's CSV
      (otherwise a natural-key value of the parent). */
  datatype FkConfig = FkConfig(csvColumn: string, parentKey: string, oneBasedIndex: bool)

  /** One table; an absent natural key or natural-key column is None. */
  datatype ReconcileTable = ReconcileTable(csvFile: string, dbTable: string, idColumn: string,
                                           naturalKeyInCsv: Option<string>, dbColumnForNaturalKey: Option<string>,
                                           fks: seq<FkConfig>)

  /** Every table of this configuration names its natural key identically in
      the CSV and in the database. */
  function Table(csvFile: string, dbTable: string, idColumn: string, naturalKey: Option<string>, fks: seq<FkConfig>): ReconcileTable
  {
    ReconcileTable(csvFile, dbTable, idColumn, naturalKey, naturalKey, fks)
  }

  /** Every foreign key of this configuration holds a 1-based row number. */
  function ByIndex(column: string, parentKey: string): FkConfig
  {
    FkConfig(column, parentKey, true)
  }

  /** `TABLE_CONFIGS`. */
  const TableEntries: seq<Entry<ReconcileTable>> := [
    Entry("Car_Condition_Rating", Table("data/car_condition_rating.csv", "Car_Condition_Rating", "condition_id", Some("rating_code"),
                                [])),
    Entry("Engine_Type_Lookup", Table("data/engine_type_lookup.csv", "Engine_Type_Lookup", "engine_type_id", Some("engine_code"),
                                [])),
    Entry("Transmission_Type_Lookup", Table("data/transmission_type_lookup.csv", "Transmission_Type_Lookup", "transmission_type_id", Some("type_name"),
                                [])),
    Entry("Drivetrain_Type_Lookup", Table("data/drivetrain_type_lookup.csv", "Drivetrain_Type_Lookup", "drivetrain_type_id", Some("type_name"),
                                [])),
    Entry("Auction_Supplier", Table("data/auction_supplier.csv", "Auction_Supplier", "supplier_id", Some("supplier_name"),
                                [])),
    Entry("Employee", Table("data/employee.csv", "Employee", "employee_id", Some("email"),
                                [])),
    Entry("Customer", Table("data/customer.csv", "Customer", "customer_id", Some("email"),
                                [])),
    Entry("Car", Table("data/car.csv", "Car", "car_id", Some("vin"),
                                [ByIndex("engine_type_id", "Engine_Type_Lookup"), ByIndex("transmission_type_id", "Transmission_Type_Lookup"), ByIndex("drivetrain_type_id", "Drivetrain_Type_Lookup"), ByIndex("condition_id", "Car_Condition_Rating"), ByIndex("supplier_id", "Auction_Supplier")])),
    Entry("Salary", Table("data/salary.csv", "Salary", "salary_id", None,
                                [ByIndex("employee_id", "Employee")])),
    Entry("Saved_Address", Table("data/saved_address.csv", "Saved_Address", "saved_address_id", None,
                                [ByIndex("customer_id", "Customer")])),
    Entry("Customer_Preference", Table("data/customer_preference.csv", "Customer_Preference", "preference_id", None,
                                [ByIndex("customer_id", "Customer")])),
    Entry("Shopping_Cart", Table("data/shopping_cart.csv", "Shopping_Cart", "cart_id", None,
                                [ByIndex("customer_id", "Customer")])),
    Entry("Wishlist", Table("data/wishlist.csv", "Wishlist", "wishlist_id", None,
                                [ByIndex("customer_id", "Customer")])),
    Entry("Search_History", Table("data/search_history.csv", "Search_History", "search_id", None,
                                [ByIndex("customer_id", "Customer")])),
    Entry("Customer_Activity_Log", Table("data/customer_activity_log.csv", "Customer_Activity_Log", "activity_id", None,
                                [ByIndex("customer_id", "Customer")])),
    Entry("Order", Table("data/order.csv", "Order", "order_id", None,
                                [ByIndex("customer_id", "Customer"), ByIndex("managed_by_employee_id", "Employee")])),
    Entry("Cart_Item", Table("data/cart_item.csv", "Cart_Item", "cart_item_id", None,
                                [ByIndex("cart_id", "Shopping_Cart"), ByIndex("car_id", "Car")])),
    Entry("Wishlist_Item", Table("data/wishlist_item.csv", "Wishlist_Item", "wishlist_item_id", None,
                                [ByIndex("wishlist_id", "Wishlist"), ByIndex("car_id", "Car")])),
    Entry("Product_View_History", Table("data/product_view_history.csv", "Product_View_History", "product_view_id", None,
                                [ByIndex("customer_id", "Customer"), ByIndex("car_id", "Car")])),
    Entry("Review", Table("data/review.csv", "Review", "review_id", None,
                                [ByIndex("customer_id", "Customer"), ByIndex("car_id", "Car")])),
    Entry("Order_Item", Table("data/order_item.csv", "Order_Item", "order_item_id", None,
                                [ByIndex("order_id", "Order"), ByIndex("car_id", "Car")])),
    Entry("Payment_Transaction", Table("data/payment_transaction.csv", "Payment_Transaction", "transaction_id", None,
                                [ByIndex("order_id", "Order")])),
    Entry("Shipping_Logistics", Table("data/shipping_logistics.csv", "Shipping_Logistics", "shipping_id", Some("tracking_number"),
                                [ByIndex("order_id", "Order"), ByIndex("car_id", "Car")])),
    Entry("Activity_Data", Table("data/activity_data.csv", "Activity_Data", "activity_data_id", Some("activity_data_id"),
                                [ByIndex("activity_id", "Customer_Activity_Log"), ByIndex("wishlist_item_id", "Wishlist_Item"), ByIndex("cart_item_id", "Cart_Item")]))
  ]

  const TableConfigs: map<string, ReconcileTable> := EntriesMap(TableEntries)

  /** `PROCESSING_ORDER`. */
  const ProcessingOrder: seq<string> := [
    "Car_Condition_Rating",
    "Engine_Type_Lookup",
    "Transmission_Type_Lookup",
    "Drivetrain_Type_Lookup",
    "Auction_Supplier",
    "Employee",
    "Customer",
    "Car",
    "Salary",
    "Saved_Address",
    "Customer_Preference",
    "Shopping_Cart",
    "Wishlist",
    "Search_History",
    "Customer_Activity_Log",
    "Order",
    "Cart_Item",
    "Wishlist_Item",
    "Product_View_History",
    "Review",
    "Order_Item",
    "Payment_Transaction",
    "Shipping_Logistics",
    "Activity_Data"
  ]

  /** Every processed key has a configuration and every configuration is
      processed, exactly once. */
  predicate KeysMatch(configs: map<string, ReconcileTable>, order: seq<string>)
  {
    && (forall i | 0 <= i < |order| :: order[i] in configs)
    && (forall k | k in configs :: k in order)
    && (forall i, j | 0 <= i < j < |order| :: order[i] != order[j])
  }

  /** The foreign keys of the table at position `i` name distinct columns and
      parents processed before it. */
  predicate ParentsEarlier(fks: seq<FkConfig>, order: seq<string>, i: nat)
    requires i <= |order|
  {
    && (forall f | 0 <= f < |fks| :: fks[f].parentKey in order[..i])
    && (forall f, g | 0 <= f < g < |fks| :: fks[f].csvColumn != fks[g].csvColumn)
  }

  predicate WellFormed(configs: map<string, ReconcileTable>, order: seq<string>)
  {
    && KeysMatch(configs, order)
    && (forall i | 0 <= i < |order| :: ParentsEarlier(configs[order[i]].fks, order, i))
  }

  /** The configuration lists its tables in processing order. */
  lemma EntriesInProcessingOrder()
    ensures |TableEntries| == |ProcessingOrder| == 24
    ensures forall i | 0 <= i < |TableEntries| :: TableEntries[i].key == ProcessingOrder[i]
  {
  }

  /** No table is processed twice. */
  lemma ProcessingOrderDistinct()
    ensures forall i, j | 0 <= i < j < |ProcessingOrder| :: ProcessingOrder[i] != ProcessingOrder[j]
  {
  }

  lemma ParentsEarlierBelow7(i: nat)
    requires 0 <= i < 7 && i < |TableEntries|
    ensures TableEntries[i].value.fks == []
  {
  }

  lemma CarParentsEarlier()
    ensures 7 < |TableEntries| && ParentsEarlier(TableEntries[7].value.fks, ProcessingOrder, 7)
  {
    CarParentsListed();
    CarColumnsDistinct();
  }

  lemma CarParentsListed()
    ensures 7 < |TableEntries|
    ensures forall f | 0 <= f < |TableEntries[7].value.fks| :: TableEntries[7].value.fks[f].parentKey in ProcessingOrder[..7]
  {
    var fks := TableEntries[7].value.fks;
    InPrefix(ProcessingOrder, 7, 1);
    assert fks[0].parentKey == ProcessingOrder[1];
    InPrefix(ProcessingOrder, 7, 2);
    assert fks[1].parentKey == ProcessingOrder[2];
    InPrefix(ProcessingOrder, 7, 3);
    assert fks[2].parentKey == ProcessingOrder[3];
    InPrefix(ProcessingOrder, 7, 0);
    assert fks[3].parentKey == ProcessingOrder[0];
    InPrefix(ProcessingOrder, 7, 4);
    assert fks[4].parentKey == ProcessingOrder[4];
  }

  lemma InPrefix(order: seq<string>, i: nat, j: nat)
    requires j < i <= |order|
    ensures order[j] in order[..i]
  {
    assert order[..i][j] == order[j];
  }

  lemma CarColumnsDistinct()
    ensures 7 < |TableEntries|
    ensures forall f, g | 0 <= f < g < |TableEntries[7].value.fks| ::
      TableEntries[7].value.fks[f].csvColumn != TableEntries[7].value.fks[g].csvColumn
  {
  }

  lemma ParentsEarlierBelow10(i: nat)
    requires 0 <= i < 10 && i < |TableEntries|
    ensures ParentsEarlier(TableEntries[i].value.fks, ProcessingOrder, i)
  {
    if i < 7 {
      ParentsEarlierBelow7(i);
    } else if i == 7 {
      CarParentsEarlier();
    } else if i == 8 {
      assert ProcessingOrder[..8][5] == "Employee";
    } else if i == 9 {
      assert ProcessingOrder[..9][6] == "Customer";
    }
  }

  lemma ParentsEarlierBelow13(i: nat)
    requires 10 <= i < 13 && i < |TableEntries|
    ensures ParentsEarlier(TableEntries[i].value.fks, ProcessingOrder, i)
  {
    if i == 10 {
      assert ProcessingOrder[..10][6] == "Customer";
    } else if i == 11 {
      assert ProcessingOrder[..11][6] == "Customer";
    } else if i == 12 {
      assert ProcessingOrder[..12][6] == "Customer";
    }
  }

  lemma ParentsEarlierBelow16(i: nat)
    requires 13 <= i < 16 && i < |TableEntries|
    ensures ParentsEarlier(TableEntries[i].value.fks, ProcessingOrder, i)
  {
    if i == 13 {
      assert ProcessingOrder[..13][6] == "Customer";
    } else if i == 14 {
      assert ProcessingOrder[..14][6] == "Customer";
    } else if i == 15 {
      assert ProcessingOrder[..15][6] == "Customer";
      assert ProcessingOrder[..15][5] == "Employee";
    }
  }

  lemma ParentsEarlierBelow20(i: nat)
    requires 16 <= i < 20 && i < |TableEntries|
    ensures ParentsEarlier(TableEntries[i].value.fks, ProcessingOrder, i)
  {
    if i == 16 {
      assert ProcessingOrder[..16][11] == "Shopping_Cart";
      assert ProcessingOrder[..16][7] == "Car";
    } else if i == 17 {
      assert ProcessingOrder[..17][12] == "Wishlist";
      assert ProcessingOrder[..17][7] == "Car";
    } else if i == 18 {
      assert ProcessingOrder[..18][6] == "Customer";
      assert ProcessingOrder[..18][7] == "Car";
    } else if i == 19 {
      assert ProcessingOrder[..19][6] == "Customer";
      assert ProcessingOrder[..19][7] == "Car";
    }
  }

  lemma ParentsEarlierBelow24(i: nat)
    requires 20 <= i < 24 && i < |TableEntries|
    ensures ParentsEarlier(TableEntries[i].value.fks, ProcessingOrder, i)
  {
    if i == 20 {
      assert ProcessingOrder[..20][15] == "Order";
      assert ProcessingOrder[..20][7] == "Car";
    } else if i == 21 {
      assert ProcessingOrder[..21][15] == "Order";
    } else if i == 22 {
      assert ProcessingOrder[..22][15] == "Order";
      assert ProcessingOrder[..22][7] == "Car";
    } else if i == 23 {
      assert ProcessingOrder[..23][14] == "Customer_Activity_Log";
      assert ProcessingOrder[..23][17] == "Wishlist_Item";
      assert ProcessingOrder[..23][16] == "Cart_Item";
    }
  }

  /** The configuration is well formed: every table in the processing order
      is configured, every configured table is processed once, and every
      foreign key names a distinct column and a parent processed earlier. */
  lemma ConfigWellFormed()
    ensures WellFormed(TableConfigs, ProcessingOrder)
  {
    EntriesInProcessingOrder();
    ProcessingOrderDistinct();
    assert DistinctKeys(TableEntries);
    forall i | 0 <= i < |ProcessingOrder|
      ensures ProcessingOrder[i] in TableConfigs
      ensures TableConfigs[ProcessingOrder[i]] == TableEntries[i].value
    {
      EntriesMapLookup(TableEntries, i);
    }
    forall k | k in TableConfigs
      ensures k in ProcessingOrder
    {
      var i :| 0 <= i < |TableEntries| && TableEntries[i].key == k;
      assert ProcessingOrder[i] == k;
    }
    forall i | 0 <= i < |ProcessingOrder|
      ensures ParentsEarlier(TableConfigs[ProcessingOrder[i]].fks, ProcessingOrder, i)
    {
      if i < 10 {
        ParentsEarlierBelow10(i);
      } else if i < 13 {
        ParentsEarlierBelow13(i);
      } else if i < 16 {
        ParentsEarlierBelow16(i);
      } else if i < 20 {
        ParentsEarlierBelow20(i);
      } else {
        ParentsEarlierBelow24(i);
      }
    }
  }

  /** The table at position `i` of the processing order is configured by the
      entry at the same position. */
  lemma ConfigAt(i: nat)
    requires i < |ProcessingOrder|
    ensures ProcessingOrder[i] in TableConfigs && TableConfigs[ProcessingOrder[i]] == TableEntries[i].value
  {
    EntriesInProcessingOrder();
    ProcessingOrderDistinct();
    assert DistinctKeys(TableEntries);
    EntriesMapLookup(TableEntries, i);
  }

  /** `Order` has no natural key, and `Order_Item`, `Payment_Transaction`
      and `Shipping_Logistics` refer to it by row number in `order_id`. */
  lemma OrderChildren()
    ensures "Order" in TableConfigs && TableConfigs["Order"].naturalKeyInCsv.None?
    ensures forall k | k in {"Order_Item", "Payment_Transaction", "Shipping_Logistics"} ::
      k in TableConfigs && |TableConfigs[k].fks| > 0 && TableConfigs[k].fks[0] == ByIndex("order_id", "Order")
  {
    ConfigAt(15);
    assert ProcessingOrder[15] == "Order";
    ConfigAt(20);
    assert ProcessingOrder[20] == "Order_Item";
    ConfigAt(21);
    assert ProcessingOrder[21] == "Payment_Transaction";
    ConfigAt(22);
    assert ProcessingOrder[22] == "Shipping_Logistics";
  }
}
