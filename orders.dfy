/** The order handlers of backend/controllers/orderController.js over the order collection. */
module Orders {
  import opened Base
  import opened Seqs
  import opened Records
  import opened OrderModel
  import opened Accounts

  /** The `{ success, message }` body every handler here answers with. */
  datatype Ack = Ack(success: bool, message: string)

  /** The message of a failed schema validation (`error.message`). */
  const ValidationFailed: string := "order validation failed"

  /** The fields of a checkout request body; the client may leave any of them out. */
  datatype OrderRequest = OrderRequest(
    orderId: Option<string>,
    items: Option<seq<LineItem>>,
    amount: Option<int>,
    address: Option<Address>,
    status: Option<string>)

  /** The document `placeOrder` builds: the client's `order_id`, items, amount and address as
      sent, method "COD", not paid, and no `status` (a client-sent status is ignored). */
  function CodDoc(userId: RecordId, req: OrderRequest, now: int): (doc: OrderDoc)
    ensures doc.paymentMethod == Some("COD") && doc.payment == Some(false) && doc.status == None
    ensures doc.orderId == req.orderId && doc.amount == req.amount && doc.items == req.items
  {
    OrderDoc(req.orderId, Some(userId), req.items, req.amount, req.address, None,
             Some("COD"), Some(false), Some(now))
  }

  /** `order.items.filter(item => item._id.toString() !== itemId)` */
  function Remaining(items: seq<LineItem>, itemId: string): (r: seq<LineItem>)
    ensures IsSubsequence(r, items)
    ensures forall it :: it in r <==> it in items && it.Id() != itemId
  {
    FilterIsSubsequence(items, (it: LineItem) => it.Id() != itemId);
    Filter(items, (it: LineItem) => it.Id() != itemId)
  }

  /** An order of items that all carry `itemId` is emptied by cancelling `itemId`; so is an order
      with no items. */
  lemma RemainingEmpty(items: seq<LineItem>, itemId: string)
    ensures Remaining(items, itemId) == [] <==> forall i :: 0 <= i < |items| ==> items[i].Id() == itemId
  {
    var r := Remaining(items, itemId);
    if r == [] {
      forall i | 0 <= i < |items| ensures items[i].Id() == itemId {
        assert items[i] in items;
      }
    } else {
      assert r[0] in items && r[0].Id() != itemId;
    }
  }

  /** Cancelling an id no item carries keeps the item list as it is. */
  lemma RemainingUnknownItem(items: seq<LineItem>, itemId: string)
    requires forall i :: 0 <= i < |items| ==> items[i].Id() != itemId
    ensures Remaining(items, itemId) == items
  {
    FilterKeepsAll(items, (it: LineItem) => it.Id() != itemId);
  }

  /** `cancelOrderItem` on a collection of orders: the reply and the new collection. */
  function CancelItem(orders: map<RecordId, Order>, orderId: RecordId, itemId: string): (Ack, map<RecordId, Order>)
  {
    if orderId !in orders then (Ack(false, "Order not found"), orders)
    else
      var rest := Remaining(orders[orderId].items, itemId);
      if rest == [] then (Ack(true, "Order cancelled completely"), orders - {orderId})
      else if !Storable(orders[orderId].(items := rest)) then (Ack(false, ValidationFailed), orders)
      else (Ack(true, "Item cancelled successfully"), orders[orderId := orders[orderId].(items := rest)])
  }

  /** Cancelling on an unknown order answers "Order not found" and changes nothing; otherwise the
      order either loses exactly the items carrying `itemId` (the others kept in order, the amount
      and every other field and record untouched) or, when none would remain, is deleted. Saving
      the reduced list validates the record, so a record the schema rejects (an empty `status`
      left by an update) fails with the validation error and nothing changes. */
  lemma CancelItemEffect(orders: map<RecordId, Order>, orderId: RecordId, itemId: string)
    ensures var (ack, after) := CancelItem(orders, orderId, itemId);
      && (orderId !in orders ==> ack == Ack(false, "Order not found") && after == orders)
      && (orderId in orders ==>
            (ack.success <==> Storable(orders[orderId]) || forall it :: it in orders[orderId].items ==> it.Id() == itemId))
      && (orderId in orders && !ack.success ==> ack == Ack(false, ValidationFailed))
      && (!ack.success ==> after == orders)
      && after.Keys <= orders.Keys
      && (forall k :: k in orders && k != orderId ==> k in after && after[k] == orders[k])
      && (orderId in after && ack.success ==>
            && ack.message == "Item cancelled successfully"
            && after[orderId].items != []
            && IsSubsequence(after[orderId].items, orders[orderId].items)
            && (forall it :: it in after[orderId].items <==> it in orders[orderId].items && it.Id() != itemId)
            && after[orderId] == orders[orderId].(items := after[orderId].items)
            && after[orderId].amount == orders[orderId].amount)
      && (orderId in orders && orderId !in after ==>
            ack.message == "Order cancelled completely"
            && forall it :: it in orders[orderId].items ==> it.Id() == itemId)
  {
    if orderId in orders {
      RemainingEmpty(orders[orderId].items, itemId);
    }
  }

  class OrderStore {
    var orders: map<RecordId, Order>
    var nextId: RecordId

    /** Record ids are below the next one to be issued, and every stored record has the
        `order_id` and `paymentMethod` its validation required. */
    ghost predicate Valid()
      reads this
    {
      forall id :: id in orders ==> id < nextId && KeyFieldsSet(orders[id])
    }

    constructor ()
      ensures Valid() && orders == map[]
    {
      orders := map[];
      nextId := 0;
    }

    /** `new orderModel(doc).save()`: validate, then store under a fresh id that comes last in
        natural order. Nothing is stored when validation fails. */
    method Save(doc: OrderDoc) returns (saved: Option<RecordId>)
      requires Valid()
      modifies this
      ensures Valid()
      ensures Build(doc).None? ==> saved == None && orders == old(orders) && nextId == old(nextId)
      ensures Build(doc).Some? ==>
        && saved == Some(old(nextId))
        && old(nextId) !in old(orders)
        && orders == old(orders)[old(nextId) := Build(doc).value]
    {
      var built := Build(doc);
      if built.None? {
        return None;
      }
      saved := Some(nextId);
      orders := orders[nextId := built.value];
      nextId := nextId + 1;
    }

    /** `placeOrder`: store a COD order built from the request, then empty the user's cart. A
        document that fails validation stores nothing and leaves the cart. The client's
        `order_id` and `amount` are stored as sent, and no other order is consulted. */
    method PlaceOrder(users: UserStore, userId: RecordId, req: OrderRequest, now: int) returns (ack: Ack)
      requires Valid() && users.Valid()
      modifies this, users
      ensures Valid() && users.Valid()
      ensures Build(CodDoc(userId, req, now)).None? ==>
        ack == Ack(false, ValidationFailed) && orders == old(orders) && users.users == old(users.users)
      ensures Build(CodDoc(userId, req, now)).Some? ==>
        && ack == Ack(true, "Order Placed")
        && old(nextId) !in old(orders)
        && orders == old(orders)[old(nextId) := Build(CodDoc(userId, req, now)).value]
        && orders[old(nextId)].paymentMethod == "COD" && !orders[old(nextId)].payment
        && orders[old(nextId)].status == DefaultStatus
        && orders[old(nextId)].orderId == req.orderId.value
        && orders[old(nextId)].amount == req.amount.value
        && (userId in old(users.users) ==>
              users.users == old(users.users)[userId := old(users.users)[userId].(cartData := [])])
        && (userId !in old(users.users) ==> users.users == old(users.users))
    {
      var saved := Save(CodDoc(userId, req, now));
      if saved.None? {
        return Ack(false, ValidationFailed);
      }
      users.ClearCart(userId);
      ack := Ack(true, "Order Placed");
    }

    /** `allOrders`: every stored order with its record id, in natural order. */
    function AllOrders(): (r: seq<(RecordId, Order)>)
      reads this
      requires Valid()
      ensures forall i :: 0 <= i < |r| ==> r[i].0 in orders && orders[r[i].0] == r[i].1
      ensures forall id :: id in orders ==> (id, orders[id]) in r
      ensures forall i, j :: 0 <= i < j < |r| ==> r[i].0 < r[j].0
    {
      Listing(orders, nextId)
    }

    /** `userOrders`: exactly the stored orders whose `userId` is the requester's, in natural
        order. */
    function UserOrders(userId: RecordId): (r: seq<(RecordId, Order)>)
      reads this
      requires Valid()
      ensures forall id :: id in orders && orders[id].userId == userId ==> (id, orders[id]) in r
      ensures forall e :: e in r ==> e.0 in orders && orders[e.0] == e.1 && e.1.userId == userId
      ensures IsSubsequence(r, AllOrders())
    {
      var all := AllOrders();
      assert forall e :: e in all ==> e.0 in orders && orders[e.0] == e.1;
      FilterIsSubsequence(all, (e: (RecordId, Order)) => e.1.userId == userId);
      Filter(all, (e: (RecordId, Order)) => e.1.userId == userId)
    }

    /** `updateStatus`: overwrite the status of that record with any string; every other field
        and record is untouched, and the answer is success even when no record has that id. */
    method UpdateStatus(orderId: RecordId, status: string) returns (ack: Ack)
      requires Valid()
      modifies this
      ensures Valid() && nextId == old(nextId)
      ensures ack == Ack(true, "Status Updated")
      ensures orderId in old(orders) ==> orders == old(orders)[orderId := old(orders)[orderId].(status := status)]
      ensures orderId !in old(orders) ==> orders == old(orders)
    {
      if orderId in orders {
        orders := orders[orderId := orders[orderId].(status := status)];
      }
      ack := Ack(true, "Status Updated");
    }

    /** `cancelOrderItem`: find the order, filter out the items carrying `itemId`, then delete
        the order when none remain or save the reduced list, which validates it. */
    method CancelOrderItem(orderId: RecordId, itemId: string) returns (ack: Ack)
      requires Valid()
      modifies this
      ensures Valid() && nextId == old(nextId)
      ensures (ack, orders) == CancelItem(old(orders), orderId, itemId)
    {
      if orderId !in orders {
        return Ack(false, "Order not found");
      }
      var order := orders[orderId];
      var updatedItems := Remaining(order.items, itemId);
      if |updatedItems| == 0 {
        orders := orders - {orderId};
        return Ack(true, "Order cancelled completely");
      }
      order := order.(items := updatedItems);
      if !Storable(order) {
        return Ack(false, ValidationFailed);
      }
      orders := orders[orderId := order];
      ack := Ack(true, "Item cancelled successfully");
    }

    /** `deleteOrder`: "Order not found" on a missing id; otherwise exactly that record goes. */
    method DeleteOrder(orderId: RecordId) returns (ack: Ack)
      requires Valid()
      modifies this
      ensures Valid() && nextId == old(nextId)
      ensures orderId !in old(orders) ==> ack == Ack(false, "Order not found") && orders == old(orders)
      ensures orderId in old(orders) ==> ack == Ack(true, "Order deleted successfully") && orders == old(orders) - {orderId}
    {
      if orderId !in orders {
        return Ack(false, "Order not found");
      }
      orders := orders - {orderId};
      ack := Ack(true, "Order deleted successfully");
    }
  }

  /** Cancelling the last items of an order removes it from the admin listing. */
  method CancelLastItemUnlists(store: OrderStore, orderId: RecordId, itemId: string)
    requires store.Valid() && orderId in store.orders
    requires forall it :: it in store.orders[orderId].items ==> it.Id() == itemId
    modifies store
    ensures store.Valid()
    ensures forall e :: e in store.AllOrders() ==> e.0 != orderId
  {
    RemainingEmpty(store.orders[orderId].items, itemId);
    var ack := store.CancelOrderItem(orderId, itemId);
    assert orderId !in store.orders;
  }

  /** Two checkouts with the same `order_id` are both stored, as two records. */
  method SameOrderIdTwice(store: OrderStore, users: UserStore, userId: RecordId, req: OrderRequest, now: int)
    requires store.Valid() && users.Valid()
    requires Build(CodDoc(userId, req, now)).Some?
    modifies store, users
    ensures store.Valid()
    ensures exists a, b :: a in store.orders && b in store.orders && a != b &&
              store.orders[a].orderId == req.orderId.value && store.orders[b].orderId == req.orderId.value
  {
    var first := store.nextId;
    var ack1 := store.PlaceOrder(users, userId, req, now);
    var second := store.nextId;
    var ack2 := store.PlaceOrder(users, userId, req, now);
    assert ack1.success && ack2.success;
    assert first in store.orders && second in store.orders && first != second;
  }
}
