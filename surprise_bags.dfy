/** The surprise-bag service: creating a bag for a store its caller owns,
    looking a bag up, patching it, deleting it, and setting its inventory.  It
    writes the same bag records the order engine reads. */
module SurpriseBags {
  import opened Results
  import opened Entities
  import opened Persistence
  import OrderRules
  import OrderInvariants

  /** The fields a store supplies for a new bag (the floating-point prices are
      not modelled). */
  datatype BagFields = BagFields(
    name: string,
    description: string,
    quantity: int,
    mealType: string,
    allergenInfo: seq<string>,
    pickupStart: Millis,
    pickupEnd: Millis,
    status: BagStatus)

  /** A partial update: a field that is None keeps its stored value. */
  datatype BagPatch = BagPatch(
    name: Option<string>,
    description: Option<string>,
    quantity: Option<int>,
    mealType: Option<string>,
    allergenInfo: Option<seq<string>>,
    pickupStart: Option<Millis>,
    pickupEnd: Option<Millis>,
    status: Option<BagStatus>)

  function FieldsOf(b: Bag): BagFields
  {
    BagFields(b.name, b.description, b.quantity, b.mealType, b.allergenInfo,
              b.pickupStart, b.pickupEnd, b.status)
  }

  /** The bag a store creates from the supplied fields. */
  function NewBag(bagId: BagId, fields: BagFields, storeId: StoreId): (b: Bag)
    ensures b.bagId == bagId && b.storeId == storeId
    ensures FieldsOf(b) == fields
  {
    Bag(bagId, fields.name, fields.description, fields.quantity, fields.mealType,
        fields.allergenInfo, fields.pickupStart, fields.pickupEnd, fields.status, storeId)
  }

  function Pick<T>(o: Option<T>, stored: T): T
  {
    match o
    case Some(v) => v
    case None => stored
  }

  /** A stored bag with a partial update merged in. */
  function Patched(b: Bag, p: BagPatch): (b': Bag)
    ensures b'.bagId == b.bagId && b'.storeId == b.storeId
  {
    b.(name := Pick(p.name, b.name),
       description := Pick(p.description, b.description),
       quantity := Pick(p.quantity, b.quantity),
       mealType := Pick(p.mealType, b.mealType),
       allergenInfo := Pick(p.allergenInfo, b.allergenInfo),
       pickupStart := Pick(p.pickupStart, b.pickupStart),
       pickupEnd := Pick(p.pickupEnd, b.pickupEnd),
       status := Pick(p.status, b.status))
  }

  const NoChange := BagPatch(None, None, None, None, None, None, None, None)

  /** The patch that sets every field. */
  function FullPatch(f: BagFields): BagPatch
  {
    BagPatch(Some(f.name), Some(f.description), Some(f.quantity), Some(f.mealType),
             Some(f.allergenInfo), Some(f.pickupStart), Some(f.pickupEnd), Some(f.status))
  }

  /** An empty patch changes nothing, applying a patch twice is the same as
      once, and a patch that sets every field yields the bag created from those
      fields. */
  lemma PatchLaws(b: Bag, p: BagPatch, f: BagFields)
    ensures Patched(b, NoChange) == b
    ensures Patched(Patched(b, p), p) == Patched(b, p)
    ensures Patched(b, FullPatch(f)) == NewBag(b.bagId, f, b.storeId)
  {
  }

  /** A field the patch leaves out keeps its stored value, one it sets takes
      the new value. */
  lemma PatchKeepsAbsentFields(b: Bag, p: BagPatch)
    ensures p.name.None? ==> Patched(b, p).name == b.name
    ensures p.name.Some? ==> Patched(b, p).name == p.name.value
    ensures p.description.None? ==> Patched(b, p).description == b.description
    ensures p.description.Some? ==> Patched(b, p).description == p.description.value
    ensures p.quantity.None? ==> Patched(b, p).quantity == b.quantity
    ensures p.quantity.Some? ==> Patched(b, p).quantity == p.quantity.value
    ensures p.mealType.None? ==> Patched(b, p).mealType == b.mealType
    ensures p.mealType.Some? ==> Patched(b, p).mealType == p.mealType.value
    ensures p.allergenInfo.None? ==> Patched(b, p).allergenInfo == b.allergenInfo
    ensures p.allergenInfo.Some? ==> Patched(b, p).allergenInfo == p.allergenInfo.value
    ensures p.pickupStart.None? ==> Patched(b, p).pickupStart == b.pickupStart
    ensures p.pickupStart.Some? ==> Patched(b, p).pickupStart == p.pickupStart.value
    ensures p.pickupEnd.None? ==> Patched(b, p).pickupEnd == b.pickupEnd
    ensures p.pickupEnd.Some? ==> Patched(b, p).pickupEnd == p.pickupEnd.value
    ensures p.status.None? ==> Patched(b, p).status == b.status
    ensures p.status.Some? ==> Patched(b, p).status == p.status.value
  {
  }

  /** A bag after its inventory is set: the quantity is exactly the given
      value, a zero quantity withdraws the bag (CANCELLED), any other value
      leaves the status alone, and nothing else changes. */
  function Restocked(b: Bag, quantity: int): (b': Bag)
    ensures b'.quantity == quantity
    ensures quantity == 0 ==> b'.status == BagStatus.Cancelled
    ensures quantity != 0 ==> b'.status == b.status
    ensures b'.(quantity := b.quantity, status := b.status) == b
  {
    var b' := b.(quantity := quantity);
    if quantity == 0 then b'.(status := BagStatus.Cancelled) else b'
  }

  /** Setting the inventory to zero takes the bag off sale; setting it to a
      positive number reopens it only if it was AVAILABLE already: a SOLD_OUT
      bag that is restocked stays SOLD_OUT and cannot be reserved. */
  lemma RestockAndReservation(b: Bag, quantity: int)
    ensures OrderRules.Reservable(Restocked(b, quantity)) <==> quantity > 0 && b.status == BagStatus.Available
  {
  }

  /** Setting a non-negative inventory keeps the bag status invariant of the
      order engine unless the bag was SOLD_OUT and the new quantity is
      positive. */
  lemma RestockAndConsistency(b: Bag, quantity: int)
    requires OrderInvariants.Consistent(b) && quantity >= 0
    ensures OrderInvariants.Consistent(Restocked(b, quantity))
            <==> !(b.status == BagStatus.SoldOut && quantity > 0)
  {
  }

  /** The orders table after a bag is deleted: the database cascades the
      deletion to the bag's orders. */
  function WithoutBagOrders(orders: map<OrderId, Order>, bagId: BagId): (m: map<OrderId, Order>)
    ensures forall id :: id in m <==> id in orders && orders[id].bagId != bagId
    ensures forall id :: id in m ==> m[id] == orders[id]
  {
    map id | id in orders && orders[id].bagId != bagId :: orders[id]
  }

  class SurpriseBagService {
    const db: Database

    constructor (db: Database)
      ensures this.db == db
    {
      this.db := db;
    }

    /** A user creates a bag for a store; only the store's owner may.  bagId
        is the fresh id the database assigns. */
    method Create(fields: BagFields, storeId: StoreId, userId: UserId, bagId: BagId)
      returns (r: Result<Bag>)
      requires db.Valid() && bagId !in db.bags
      modifies db
      ensures db.Valid()
      ensures storeId !in old(db.stores) ==> r == Err(NotFound(MissingStore))
      ensures storeId in old(db.stores) && old(db.stores[storeId].ownerId) != userId ==> r == Err(Forbidden)
      ensures r.Ok? <==> storeId in old(db.stores) && old(db.stores[storeId].ownerId) == userId
      ensures r.Err? ==> db.State() == old(db.State())
      ensures r.Ok? ==>
                && r.value == NewBag(bagId, fields, storeId)
                && db.State() == old(db.State()).(bags := old(db.bags)[bagId := r.value])
    {
      if storeId !in db.stores {
        return Err(NotFound(MissingStore));
      }
      var store := db.stores[storeId];
      if store.ownerId != userId {
        return Err(Forbidden);
      }
      var bag := NewBag(bagId, fields, store.storeId);
      db.bags := db.bags[bagId := bag];
      return Ok(bag);
    }

    /** Look a bag up by id.  Reads only. */
    method FindOne(id: BagId) returns (r: Result<Bag>)
      ensures id !in db.bags ==> r == Err(NotFound(MissingBag))
      ensures id in db.bags ==> r == Ok(db.bags[id])
    {
      if id !in db.bags {
        return Err(NotFound(MissingBag));
      }
      return Ok(db.bags[id]);
    }

    /** Merge a partial update into a stored bag. */
    method Update(id: BagId, patch: BagPatch) returns (r: Result<Bag>)
      requires db.Valid()
      modifies db
      ensures db.Valid()
      ensures id !in old(db.bags) ==> r == Err(NotFound(MissingBag)) && db.State() == old(db.State())
      ensures id in old(db.bags) ==>
                && r == Ok(Patched(old(db.bags[id]), patch))
                && db.State() == old(db.State()).(bags := old(db.bags)[id := r.value])
    {
      if id !in db.bags {
        return Err(NotFound(MissingBag));
      }
      var bag := Patched(db.bags[id], patch);
      db.bags := db.bags[id := bag];
      return Ok(bag);
    }

    /** Delete a bag; its orders go with it.  Deleting nothing is NotFound. */
    method Remove(id: BagId) returns (r: Result<()>)
      requires db.Valid()
      modifies db
      ensures db.Valid()
      ensures id !in old(db.bags) ==> r == Err(NotFound(MissingBag)) && db.State() == old(db.State())
      ensures id in old(db.bags) ==>
                && r == Ok(())
                && db.bags == old(db.bags) - {id}
                && db.orders == WithoutBagOrders(old(db.orders), id)
                && db.customers == old(db.customers) && db.stores == old(db.stores)
    {
      var affected := if id in db.bags then 1 else 0;
      db.orders := WithoutBagOrders(db.orders, id);
      db.bags := db.bags - {id};
      if affected == 0 {
        return Err(NotFound(MissingBag));
      }
      return Ok(());
    }

    /** Set a bag's quantity; zero withdraws it. */
    method UpdateInventory(id: BagId, quantity: int) returns (r: Result<Bag>)
      requires db.Valid()
      modifies db
      ensures db.Valid()
      ensures id !in old(db.bags) ==> r == Err(NotFound(MissingBag)) && db.State() == old(db.State())
      ensures id in old(db.bags) ==>
                && r == Ok(Restocked(old(db.bags[id]), quantity))
                && db.State() == old(db.State()).(bags := old(db.bags)[id := r.value])
    {
      if id !in db.bags {
        return Err(NotFound(MissingBag));
      }
      var bag := db.bags[id];
      bag := bag.(quantity := quantity);
      if quantity == 0 {
        bag := bag.(status := BagStatus.Cancelled);
      }
      db.bags := db.bags[id := bag];
      return Ok(bag);
    }
  }
}
