/** The command-line script's table mapping (which the web application
    carries as an identical copy): for each table its CSV path, SQL
    identifier, header-to-column mapping and id column, in insertion order. */
module LoadConfig {
  import opened Basics
  import opened Rows
  import opened Session
  import opened ReconcileConfig

  /** A header mapped to the column of the same name. */
  function Same(name: string): ColumnMapping
  {
    ColumnMapping(name, name)
  }

  /** `csv_mappings`, in dictionary order. */
  const MainConfigs: seq<TableConfig> := [
    TableConfig("Car_Condition_Rating", "data/car_condition_rating.csv", "car_condition_rating",
      [Same("rating_code"), Same("description")],
      "condition_id"),
    TableConfig("Engine_Type_Lookup", "data/engine_type_lookup.csv", "engine_type_lookup",
      [Same("engine_code"), Same("description")],
      "engine_type_id"),
    TableConfig("Transmission_Type_Lookup", "data/transmission_type_lookup.csv", "transmission_type_lookup",
      [Same("type_name"), Same("description")],
      "transmission_type_id"),
    TableConfig("Drivetrain_Type_Lookup", "data/drivetrain_type_lookup.csv", "drivetrain_type_lookup",
      [Same("type_name"), Same("description")],
      "drivetrain_type_id"),
    TableConfig("Auction_Supplier", "data/auction_supplier.csv", "auction_supplier",
      [Same("supplier_name"), Same("contact_person"), Same("phone_number"), Same("email"), Same("website"),
        Same("location")],
      "supplier_id"),
    TableConfig("Employee", "data/employee.csv", "employee",
      [Same("first_name"), Same("last_name"), Same("email"), Same("password_hash"), Same("phone_number"),
        Same("job_title"), Same("hire_date"), Same("is_active")],
      "employee_id"),
    TableConfig("Customer", "data/customer.csv", "customer",
      [Same("first_name"), Same("last_name"), Same("email"), Same("password_hash"), Same("phone_number"),
        Same("address_line1"), Same("address_line2"), Same("city"), Same("state_province"),
        Same("postal_code"), Same("country"), Same("last_login_date"), Same("total_orders_count"),
        Same("total_spent_jpy"), Same("last_activity_date"), Same("loyalty_score"),
        Same("preferred_contact_method")],
      "customer_id"),
    TableConfig("Car", "data/car.csv", "car",
      [Same("vin"), Same("chassis_code"), Same("make"), Same("model"), Same("year"), Same("color"),
        Same("engine_type_id"), Same("transmission_type_id"), Same("drivetrain_type_id"),
        Same("steering_side"), Same("mileage_km"), Same("condition_id"), Same("current_listing_price_jpy"),
        Same("photos_url"), Same("description"), Same("status"), Same("auction_lot_number"),
        Same("supplier_id"), Same("view_count"), Same("add_to_cart_count"),
        ColumnMapping("add_to_wishlist", "add_to_wishlist_count")],
      "car_id"),
    TableConfig("Salary", "data/salary.csv", "salary",
      [Same("employee_id"), Same("salary_amount"), Same("from_date"), Same("to_date")],
      "salary_id"),
    TableConfig("Saved_Address", "data/saved_address.csv", "saved_address",
      [Same("customer_id"), Same("address_label"), Same("shipping_address_line1"),
        Same("shipping_address_line2"), Same("shipping_city"), Same("shipping_state_province"),
        Same("shipping_postal_code"), Same("shipping_country")],
      "saved_address_id"),
    TableConfig("Customer_Preference", "data/customer_preference.csv", "customer_preference",
      [Same("customer_id"), Same("preferred_make"), Same("preferred_model"), Same("min_year"),
        Same("max_year"), Same("max_budget_jpy"), Same("preferred_specs"), Same("preferred_condition")],
      "preference_id"),
    TableConfig("Shopping_Cart", "data/shopping_cart.csv", "shopping_cart",
      [Same("customer_id")],
      "cart_id"),
    TableConfig("Wishlist", "data/wishlist.csv", "wishlist",
      [Same("customer_id")],
      "wishlist_id"),
    TableConfig("Search_History", "data/search_history.csv", "search_history",
      [Same("customer_id"), Same("search_query"), Same("search_timestamp"), Same("result_count"),
        Same("filter_applied")],
      "search_id"),
    TableConfig("Customer_Activity_Log", "data/customer_activity_log.csv", "customer_activity_log",
      [Same("customer_id"), Same("activity_type"), Same("activity_timestamp"), Same("details"),
        Same("ip_address"), Same("user_agent")],
      "activity_id"),
    TableConfig("Order", "data/order.csv", "\"order\"",
      [Same("customer_id"), Same("total_amount_jpy"), Same("order_status"), Same("payment_status"),
        Same("currency"), Same("exchange_rate_at_order_time"), Same("managed_by_employee_id")],
      "order_id"),
    TableConfig("Cart_Item", "data/cart_item.csv", "cart_item",
      [Same("cart_id"), Same("car_id"), Same("quantity")],
      "cart_item_id"),
    TableConfig("Wishlist_Item", "data/wishlist_item.csv", "wishlist_item",
      [Same("wishlist_id"), Same("car_id"), Same("notification_preference")],
      "wishlist_item_id"),
    TableConfig("Product_View_History", "data/product_view_history.csv", "product_view_history",
      [Same("customer_id"), Same("car_id"), Same("view_timestamp"), Same("time_on_page_seconds"),
        Same("source")],
      "product_view_id"),
    TableConfig("Review", "data/review.csv", "review",
      [Same("customer_id"), Same("car_id"), Same("rating"), Same("comment"), Same("is_approved")],
      "review_id"),
    TableConfig("Order_Item", "data/order_item.csv", "order_item",
      [Same("order_id"), Same("car_id"), Same("unit_price_jpy"), Same("quantity"), Same("item_status"),
        Same("customs_documentation_status")],
      "order_item_id"),
    TableConfig("Payment_Transaction", "data/payment_transaction.csv", "payment_transaction",
      [Same("order_id"), Same("amount_jpy"), Same("payment_method"), Same("transaction_status"),
        Same("payment_gateway_ref_id")],
      "transaction_id"),
    TableConfig("Shipping_Logistics", "data/shipping_logistics.csv", "shipping_logistics",
      [Same("order_item_id"), Same("shipping_company_name"), Same("tracking_number"), Same("ship_date"),
        Same("estimated_arrival_date"), Same("actual_arrival_date"), Same("current_location"),
        Same("shipping_cost_jpy"), Same("delivery_status"), Same("container_id")],
      "shipping_id")
  ]

  /** The web application's copy of the mapping, keyed by table. */
  const AppConfigs: map<string, TableConfig> :=
    EntriesMap(seq(|MainConfigs|, i requires 0 <= i < |MainConfigs| => Entry(MainConfigs[i].key, MainConfigs[i])))

  /** The script inserts the tables in the reconciler's processing order,
      which adds one table the script does not load. */
  lemma MainKeysFollowProcessingOrder()
    ensures |MainConfigs| == 23 && |ProcessingOrder| == 24
    ensures forall i | 0 <= i < |MainConfigs| :: MainConfigs[i].key == ProcessingOrder[i]
  {
  }

  /** A table list that follows a well-formed processing order lists every
      parent a table refers to before that table. */
  lemma PrefixRespectsParents(configs: map<string, ReconcileTable>, order: seq<string>, keys: seq<string>)
    requires WellFormed(configs, order)
    requires |keys| <= |order| && forall i | 0 <= i < |keys| :: keys[i] == order[i]
    ensures forall i | 0 <= i < |keys| :: keys[i] in configs
    ensures forall i, f | 0 <= i < |keys| && 0 <= f < |configs[keys[i]].fks| ::
              ListedBefore(keys, i, configs[keys[i]].fks[f].parentKey)
  {
    forall i | 0 <= i < |keys| ensures keys[i] in configs {
      ParentEarlier(configs, order, keys, i, 0);
    }
    forall i, f | 0 <= i < |keys| && 0 <= f < |configs[keys[i]].fks|
      ensures ListedBefore(keys, i, configs[keys[i]].fks[f].parentKey)
    {
      ParentEarlier(configs, order, keys, i, f);
    }
  }

  /** `p` is among the first `i` keys. */
  predicate ListedBefore(keys: seq<string>, i: nat, p: string)
  {
    exists j | 0 <= j < i && j < |keys| :: keys[j] == p
  }

  lemma ParentEarlier(configs: map<string, ReconcileTable>, order: seq<string>, keys: seq<string>, i: nat, f: nat)
    requires WellFormed(configs, order)
    requires |keys| <= |order| && forall i | 0 <= i < |keys| :: keys[i] == order[i]
    requires i < |keys|
    ensures keys[i] in configs
    ensures f < |configs[keys[i]].fks| ==> ListedBefore(keys, i, configs[keys[i]].fks[f].parentKey)
  {
    assert keys[i] == order[i];
    assert KeysMatch(configs, order);
    if f < |configs[keys[i]].fks| {
      assert ParentsEarlier(configs[order[i]].fks, order, i);
      var parent := configs[order[i]].fks[f].parentKey;
      assert parent in order[..i];
      var j :| 0 <= j < i && order[..i][j] == parent;
      assert keys[j] == parent;
    }
  }

  /** Every key of the mapping finds its own entry in the web application's
      copy. */
  lemma AppConfigsLookup()
    ensures forall i | 0 <= i < |MainConfigs| :: MainConfigs[i].key in AppConfigs && AppConfigs[MainConfigs[i].key] == MainConfigs[i]
  {
    var es := seq(|MainConfigs|, i requires 0 <= i < |MainConfigs| => Entry(MainConfigs[i].key, MainConfigs[i]));
    MainKeysFollowProcessingOrder();
    ProcessingOrderDistinct();
    forall i | 0 <= i < |MainConfigs| ensures MainConfigs[i].key in AppConfigs && AppConfigs[MainConfigs[i].key] == MainConfigs[i] {
      EntriesMapLookup(es, i);
    }
  }
}
