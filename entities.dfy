/** The records the core reads and writes: surprise bags, orders, stores and
    customers, and the four tables of the database that hold them. */
module Entities {

  type BagId = string
  type OrderId = string
  type CustomerId = string
  type StoreId = string
  type UserId = string

  /** Milliseconds since the epoch. */
  type Millis = int

  datatype BagStatus = Available | SoldOut | Cancelled

  datatype OrderStatus = Pending | Confirmed | Cancelled

  /** A surprise bag.  The prices are floating point in the TypeScript entity and are not
      modelled; the quantity is an unconstrained integer column. */
  datatype Bag = Bag(
    bagId: BagId,
    name: string,
    description: string,
    quantity: int,
    mealType: string,
    allergenInfo: seq<string>,
    pickupStart: Millis,
    pickupEnd: Millis,
    status: BagStatus,
    storeId: StoreId)

  datatype Order = Order(
    orderId: OrderId,
    orderDate: Millis,
    status: OrderStatus,
    bagId: BagId,
    customerId: CustomerId,
    pickupCode: string)

  /** A store and the id of the user who owns it. */
  datatype Store = Store(storeId: StoreId, ownerId: UserId)

  /** The database: bags, orders and stores by primary key, and the ids of the
      customers. */
  datatype Tables = Tables(
    bags: map<BagId, Bag>,
    orders: map<OrderId, Order>,
    customers: set<CustomerId>,
    stores: map<StoreId, Store>)

  /** Primary keys agree with the records and every foreign key resolves: an
      order's bag and customer exist, and a bag's store exists.  The database's
      foreign-key constraints (with ON DELETE CASCADE) keep this true. */
  ghost predicate WellFormed(t: Tables)
  {
    && (forall id :: id in t.bags ==> t.bags[id].bagId == id && t.bags[id].storeId in t.stores)
    && (forall id :: id in t.orders ==>
          && t.orders[id].orderId == id
          && t.orders[id].bagId in t.bags
          && t.orders[id].customerId in t.customers)
    && (forall id :: id in t.stores ==> t.stores[id].storeId == id)
  }
}
