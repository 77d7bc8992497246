/** What the order engine keeps true across any sequence of reservations,
    confirmations and cancellations: units are neither created nor lost, a
    bag's quantity never goes negative, SOLD_OUT means "none left", and an
    order's status only moves forward while the rest of it never changes. */
module OrderInvariants {
  import opened Results
  import opened Entities
  import opened OrderRules

  /** The orders on a bag that still hold a unit of it. */
  ghost function Live(t: Tables, bagId: BagId): set<OrderId>
  {
    set id | id in t.orders && t.orders[id].bagId == bagId && t.orders[id].status != OrderStatus.Cancelled
  }

  /** The units of a bag: those still on the shelf plus those held by orders. */
  ghost function Units(t: Tables, bagId: BagId): int
    requires bagId in t.bags
  {
    t.bags[bagId].quantity + |Live(t, bagId)|
  }

  /** The status invariant of a bag: the quantity is not negative and, unless
      the bag was withdrawn, it is SOLD_OUT exactly when none are left. */
  predicate Consistent(b: Bag)
  {
    b.quantity >= 0 && (b.status != BagStatus.Cancelled ==> (b.status == BagStatus.SoldOut <==> b.quantity == 0))
  }

  ghost predicate AllConsistent(t: Tables)
  {
    forall id :: id in t.bags ==> Consistent(t.bags[id])
  }

  /** The order statuses an order may move to: PENDING to CONFIRMED, either
      of them to CANCELLED, and never back. */
  predicate Advances(from: OrderStatus, to: OrderStatus)
  {
    from == to
    || (from == OrderStatus.Pending && to != OrderStatus.Pending)
    || (from == OrderStatus.Confirmed && to == OrderStatus.Cancelled)
  }

  /** One request to the order engine.  Pickup checks change nothing and are
      left out of traces. */
  datatype Op =
    | ReserveOp(customerId: CustomerId, bagId: BagId, code: string, orderId: OrderId, now: Millis)
    | ConfirmOp(orderId: OrderId, storeId: StoreId)
    | CancelOp(orderId: OrderId, customerId: CustomerId, now: Millis)

  function Apply(t: Tables, op: Op): (t': Tables)
    requires WellFormed(t)
    ensures WellFormed(t')
    ensures t'.bags.Keys == t.bags.Keys
    ensures op.ReserveOp? ==> t'.orders.Keys <= t.orders.Keys + {op.orderId}
    ensures !op.ReserveOp? ==> t'.orders.Keys == t.orders.Keys
  {
    match op
    case ReserveOp(customerId, bagId, code, orderId, now) => Reserve(t, customerId, bagId, code, orderId, now).after
    case ConfirmOp(orderId, storeId) => Confirm(t, orderId, storeId).after
    case CancelOp(orderId, customerId, now) => Cancel(t, orderId, customerId, now).after
  }

  /** The tables after a sequence of requests, each applied in its own
      transaction (a failed one changes nothing). */
  function Run(t: Tables, ops: seq<Op>): (t': Tables)
    requires WellFormed(t)
    ensures WellFormed(t')
    ensures t'.bags.Keys == t.bags.Keys
    decreases |ops|
  {
    if ops == [] then t else Run(Apply(t, ops[0]), ops[1..])
  }

  /** Every reservation in the trace gets an order id the database has not
      used: none is already a key of the orders table and no two coincide. */
  ghost predicate FreshIds(t: Tables, ops: seq<Op>)
  {
    && (forall i :: 0 <= i < |ops| && ops[i].ReserveOp? ==> ops[i].orderId !in t.orders)
    && (forall i, j :: 0 <= i < j < |ops| && ops[i].ReserveOp? && ops[j].ReserveOp? ==>
          ops[i].orderId != ops[j].orderId)
  }

  lemma FreshIdsTail(t: Tables, ops: seq<Op>)
    requires WellFormed(t) && ops != [] && FreshIds(t, ops)
    ensures FreshIds(Apply(t, ops[0]), ops[1..])
  {
  }

  // ---------------------------------------------------------------------------
  // Conservation of units, step by step and over traces

  /** Live orders after one order is written into the orders table. */
  lemma LiveAfterWrite(t: Tables, t': Tables, b: BagId, id: OrderId, o: Order)
    requires t'.orders == t.orders[id := o]
    ensures Live(t', b) == (Live(t, b) - {id}) + (if o.bagId == b && o.status != OrderStatus.Cancelled then {id} else {})
  {
  }

  lemma ReserveKeepsUnits(t: Tables, customerId: CustomerId, bagId: BagId, code: string,
                          orderId: OrderId, now: Millis, b: BagId)
    requires orderId !in t.orders && b in t.bags
    ensures var t' := Reserve(t, customerId, bagId, code, orderId, now).after;
            b in t'.bags && Units(t', b) == Units(t, b)
  {
    var s := Reserve(t, customerId, bagId, code, orderId, now);
    if s.result.Ok? {
      LiveAfterWrite(t, s.after, b, orderId, s.result.value);
      assert orderId !in Live(t, b);
    }
  }

  lemma ConfirmKeepsUnits(t: Tables, orderId: OrderId, storeId: StoreId, b: BagId)
    requires WellFormed(t) && b in t.bags
    ensures var t' := Confirm(t, orderId, storeId).after;
            b in t'.bags && Units(t', b) == Units(t, b)
  {
    var s := Confirm(t, orderId, storeId);
    if s.result.Ok? {
      assert Live(s.after, b) == Live(t, b);
    }
  }

  lemma CancelKeepsUnits(t: Tables, orderId: OrderId, customerId: CustomerId, now: Millis, b: BagId)
    requires WellFormed(t) && b in t.bags
    ensures var t' := Cancel(t, orderId, customerId, now).after;
            b in t'.bags && Units(t', b) == Units(t, b)
  {
    var s := Cancel(t, orderId, customerId, now);
    if s.result.Ok? {
      var t' := s.after;
      if b == t.orders[orderId].bagId {
        assert Live(t', b) == Live(t, b) - {orderId};
        assert orderId in Live(t, b);
      } else {
        assert Live(t', b) == Live(t, b);
      }
    }
  }

  lemma ApplyKeepsUnits(t: Tables, op: Op, b: BagId)
    requires WellFormed(t) && b in t.bags
    requires op.ReserveOp? ==> op.orderId !in t.orders
    ensures b in Apply(t, op).bags && Units(Apply(t, op), b) == Units(t, b)
  {
    match op
    case ReserveOp(customerId, bagId, code, orderId, now) =>
      ReserveKeepsUnits(t, customerId, bagId, code, orderId, now, b);
    case ConfirmOp(orderId, storeId) =>
      ConfirmKeepsUnits(t, orderId, storeId, b);
    case CancelOp(orderId, customerId, now) =>
      CancelKeepsUnits(t, orderId, customerId, now, b);
  }

  /** No sequence of requests creates or loses a unit of any bag: the units on
      the shelf plus those held by live orders stay the same. */
  lemma {:induction false} RunKeepsUnits(t: Tables, ops: seq<Op>, b: BagId)
    requires WellFormed(t) && FreshIds(t, ops) && b in t.bags
    ensures b in Run(t, ops).bags && Units(Run(t, ops), b) == Units(t, b)
    decreases |ops|
  {
    if ops != [] {
      ApplyKeepsUnits(t, ops[0], b);
      FreshIdsTail(t, ops);
      RunKeepsUnits(Apply(t, ops[0]), ops[1..], b);
    }
  }

  // ---------------------------------------------------------------------------
  // Quantities never go negative; SOLD_OUT means none left

  lemma ApplyKeepsQuantity(t: Tables, op: Op, b: BagId)
    requires WellFormed(t) && b in t.bags && t.bags[b].quantity >= 0
    ensures Apply(t, op).bags[b].quantity >= 0
  {
  }

  /** A bag whose quantity is not negative never goes negative, whatever the
      requests. */
  lemma {:induction false} RunKeepsQuantity(t: Tables, ops: seq<Op>, b: BagId)
    requires WellFormed(t) && b in t.bags && t.bags[b].quantity >= 0
    ensures Run(t, ops).bags[b].quantity >= 0
    decreases |ops|
  {
    if ops != [] {
      ApplyKeepsQuantity(t, ops[0], b);
      RunKeepsQuantity(Apply(t, ops[0]), ops[1..], b);
    }
  }

  /** No overselling: starting from a bag with q >= 0 units and no live orders
      on it, no sequence of requests leaves more than q live orders on it. */
  lemma NoOverselling(t: Tables, ops: seq<Op>, b: BagId)
    requires WellFormed(t) && FreshIds(t, ops) && b in t.bags
    requires t.bags[b].quantity >= 0 && Live(t, b) == {}
    ensures |Live(Run(t, ops), b)| <= t.bags[b].quantity
  {
    RunKeepsUnits(t, ops, b);
    RunKeepsQuantity(t, ops, b);
  }

  lemma ApplyKeepsConsistent(t: Tables, op: Op)
    requires WellFormed(t) && AllConsistent(t)
    ensures AllConsistent(Apply(t, op))
  {
  }

  /** The bag status invariant holds after any sequence of requests if it
      held before. */
  lemma {:induction false} RunKeepsConsistent(t: Tables, ops: seq<Op>)
    requires WellFormed(t) && AllConsistent(t)
    ensures AllConsistent(Run(t, ops))
    decreases |ops|
  {
    if ops != [] {
      ApplyKeepsConsistent(t, ops[0]);
      RunKeepsConsistent(Apply(t, ops[0]), ops[1..]);
    }
  }

  // ---------------------------------------------------------------------------
  // Orders only move forward

  lemma ApplyAdvances(t: Tables, op: Op, id: OrderId)
    requires WellFormed(t) && id in t.orders
    requires op.ReserveOp? ==> op.orderId !in t.orders
    ensures id in Apply(t, op).orders
    ensures Advances(t.orders[id].status, Apply(t, op).orders[id].status)
    ensures Apply(t, op).orders[id].(status := t.orders[id].status) == t.orders[id]
  {
  }

  /** Across any sequence of requests an existing order is never removed, its
      status only moves forward, and everything else about it (bag, customer,
      date and pickup code) stays as it was created. */
  lemma {:induction false} RunAdvances(t: Tables, ops: seq<Op>, id: OrderId)
    requires WellFormed(t) && FreshIds(t, ops) && id in t.orders
    ensures id in Run(t, ops).orders
    ensures Advances(t.orders[id].status, Run(t, ops).orders[id].status)
    ensures Run(t, ops).orders[id].(status := t.orders[id].status) == t.orders[id]
    decreases |ops|
  {
    if ops != [] {
      ApplyAdvances(t, ops[0], id);
      FreshIdsTail(t, ops);
      RunAdvances(Apply(t, ops[0]), ops[1..], id);
    }
  }
}
