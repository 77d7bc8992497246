/** The database both services work on, as in-memory tables updated in place.
    Each service method runs as one transaction: it either commits all of its
    writes or restores the tables it touched. */
module Persistence {
  import opened Entities

  class Database {
    var bags: map<BagId, Bag>
    var orders: map<OrderId, Order>
    var customers: set<CustomerId>
    var stores: map<StoreId, Store>

    /** The tables as a value. */
    function State(): Tables
      reads this
    {
      Tables(bags, orders, customers, stores)
    }

    ghost predicate Valid()
      reads this
    {
      WellFormed(State())
    }

    /** A database with the given customers and stores and no bags or orders. */
    constructor (customers: set<CustomerId>, stores: map<StoreId, Store>)
      requires forall id :: id in stores ==> stores[id].storeId == id
      ensures Valid()
      ensures State() == Tables(map[], map[], customers, stores)
    {
      this.bags := map[];
      this.orders := map[];
      this.customers := customers;
      this.stores := stores;
    }
  }
}
