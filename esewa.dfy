/** The eSewa payment handlers of backend/controllers/esewaController.js. The gateway's answers to
    the initiate and status-check calls are inputs. */
module Esewa {
  import opened Base
  import opened Records
  import opened OrderModel
  import opened Orders

  /** What the initiate call gives back: nothing (a falsy value), a thrown error, or an HTTP
      answer with the redirect URL it was sent to. */
  datatype GatewayInit = NoAnswer | InitThrew | InitAnswered(status: int, url: string)

  /** The reply of `EsewaInitiatePayment`: the redirect URL (HTTP 200), a failure with its status
      code, or no reply at all. */
  datatype InitReply = Redirect(url: string) | Failed(code: int, message: string) | NoReply

  /** What the status-check call gives back: a thrown error, or an HTTP answer with the payment
      status the gateway reports. */
  datatype StatusCheck = CheckThrew | CheckAnswered(status: int, reported: string)

  /** The reply of `paymentStatus`: an HTTP status code and a message. */
  datatype StatusReply = StatusReply(code: int, message: string)

  /** The document `EsewaInitiatePayment` saves: the request's fields as sent (its `status`
      included, so the default applies only when none was sent), paid, method "eSewa". */
  function EsewaDoc(userId: RecordId, req: OrderRequest, now: int): (doc: OrderDoc)
    ensures doc.paymentMethod == Some("eSewa") && doc.payment == Some(true) && doc.status == req.status
    ensures doc.orderId == req.orderId && doc.amount == req.amount && doc.items == req.items
  {
    OrderDoc(req.orderId, Some(userId), req.items, req.amount, req.address, req.status,
             Some("eSewa"), Some(true), Some(now))
  }

  /** `EsewaInitiatePayment`: an order is stored only when the gateway answers 200, and then it is
      already marked paid. A falsy answer or a thrown error gives 400; any other status falls
      through the handler, which then sends nothing. */
  method InitiatePayment(store: OrderStore, userId: RecordId, req: OrderRequest,
                         gateway: GatewayInit, now: int) returns (reply: InitReply)
    requires store.Valid()
    modifies store
    ensures store.Valid()
    ensures gateway.NoAnswer? ==>
      reply == Failed(400, "Error sending data to eSewa") && store.orders == old(store.orders)
    ensures gateway.InitThrew? ==>
      reply == Failed(400, "Error initiating payment") && store.orders == old(store.orders)
    ensures gateway.InitAnswered? && gateway.status != 200 ==>
      reply == NoReply && store.orders == old(store.orders)
    ensures gateway.InitAnswered? && gateway.status == 200 && Build(EsewaDoc(userId, req, now)).None? ==>
      reply == Failed(400, "Error initiating payment") && store.orders == old(store.orders)
    ensures gateway.InitAnswered? && gateway.status == 200 && Build(EsewaDoc(userId, req, now)).Some? ==>
      && reply == Redirect(gateway.url)
      && old(store.nextId) !in old(store.orders)
      && store.orders == old(store.orders)[old(store.nextId) := Build(EsewaDoc(userId, req, now)).value]
      && store.orders[old(store.nextId)].payment
      && store.orders[old(store.nextId)].paymentMethod == "eSewa"
    ensures reply.Redirect? <==> store.orders != old(store.orders)
  {
    match gateway
    case NoAnswer =>
      return Failed(400, "Error sending data to eSewa");
    case InitThrew =>
      return Failed(400, "Error initiating payment");
    case InitAnswered(status, url) =>
      if status == 200 {
        var saved := store.Save(EsewaDoc(userId, req, now));
        if saved.None? {
          return Failed(400, "Error initiating payment");
        }
        assert store.orders[saved.value] == Build(EsewaDoc(userId, req, now)).value;
        return Redirect(url);
      }
      reply := NoReply;
  }

  /** The order's `order_id` is `orderId`. */
  predicate HasOrderId(o: Order, orderId: string) {
    o.orderId == orderId
  }

  /** `orderModel.findOne({ order_id })`: the first record in natural order with that `order_id`;
      the record id is not used. */
  function FindByOrderId(orders: map<RecordId, Order>, orderId: string, bound: nat): (r: Option<RecordId>)
    ensures r.Some? ==> r.value in orders && orders[r.value].orderId == orderId
    ensures r.Some? ==> forall k :: k < r.value && k in orders ==> orders[k].orderId != orderId
    ensures r.None? ==> forall k :: k < bound && k in orders ==> orders[k].orderId != orderId
  {
    FindFirst(orders, (o: Order) => HasOrderId(o, orderId), bound)
  }

  /** The record after a confirmed payment: the reported status, paid; nothing else changes. */
  function Confirmed(o: Order, reported: string): (c: Order)
    ensures c.status == reported && c.payment
    ensures c.(status := o.status, payment := o.payment) == o
  {
    o.(status := reported, payment := true)
  }

  /** `paymentStatus` on a collection whose record ids are below `bound`: the reply and the new
      collection. `order.save()` validates the record again, so a reported status that is empty
      fails the schema's `required` check and ends in the handler's `catch`. */
  function Reconcile(orders: map<RecordId, Order>, bound: nat, orderId: string, check: StatusCheck)
    : (StatusReply, map<RecordId, Order>)
  {
    match FindByOrderId(orders, orderId, bound)
    case None => (StatusReply(404, "Transaction not found"), orders)
    case Some(id) =>
      match check
      case CheckThrew => (StatusReply(500, "Server error"), orders)
      case CheckAnswered(status, reported) =>
        if status != 200 then (StatusReply(400, "Payment verification failed"), orders)
        else if !Storable(Confirmed(orders[id], reported)) then (StatusReply(500, "Server error"), orders)
        else
          (StatusReply(200, "Transaction status updated successfully"),
           orders[id := Confirmed(orders[id], reported)])
  }

  /** An unknown `order_id` gives 404, and every reply but 200 leaves every record as it was; a
      200 reply comes only from a 200 check and confirms one record with that `order_id`. */
  lemma ReconcileEffect(orders: map<RecordId, Order>, bound: nat, orderId: string, check: StatusCheck)
    requires forall k :: k in orders ==> k < bound
    ensures var (reply, after) := Reconcile(orders, bound, orderId, check);
      && ((forall k :: k in orders ==> orders[k].orderId != orderId) ==>
            reply == StatusReply(404, "Transaction not found") && after == orders)
      && (reply.code != 200 ==> after == orders)
      && (reply.code == 200 ==>
            && check.CheckAnswered? && check.status == 200
            && exists id :: id in orders && orders[id].orderId == orderId
                 && after == orders[id := Confirmed(orders[id], check.reported)])
  {
    var r := FindByOrderId(orders, orderId, bound);
    if r.Some? {
      assert orders[r.value].orderId == orderId;
    }
  }

  /** When `id` is the first record in natural order with that `order_id`, the outcome is decided
      by the gateway's answer: a thrown check gives 500; a non-200 answer gives 400; a 200 answer
      confirms exactly record `id` with the reported status and paid, unless that status is empty,
      which the save rejects with 500. Nothing changes except on the 200 reply. */
  lemma {:induction false} ReconcileFound(orders: map<RecordId, Order>, bound: nat, orderId: string,
                                          check: StatusCheck, id: RecordId)
    requires forall k :: k in orders ==> k < bound
    requires id in orders && orders[id].orderId == orderId
    requires forall k :: k in orders && k < id ==> orders[k].orderId != orderId
    requires KeyFieldsSet(orders[id])
    ensures var (reply, after) := Reconcile(orders, bound, orderId, check);
      && (check.CheckThrew? ==> reply == StatusReply(500, "Server error") && after == orders)
      && (check.CheckAnswered? && check.status != 200 ==>
            reply == StatusReply(400, "Payment verification failed") && after == orders)
      && (check.CheckAnswered? && check.status == 200 && check.reported == "" ==>
            reply == StatusReply(500, "Server error") && after == orders)
      && (check.CheckAnswered? && check.status == 200 && check.reported != "" ==>
            && reply == StatusReply(200, "Transaction status updated successfully")
            && after == orders[id := Confirmed(orders[id], check.reported)]
            && after[id].status == check.reported && after[id].payment)
  {
  }

  /** Running `paymentStatus` twice with the same gateway answer gives the same collection and
      the same reply as running it once. */
  lemma {:induction false} ReconcileIdempotent(orders: map<RecordId, Order>, bound: nat, orderId: string, check: StatusCheck)
    ensures var (reply1, once) := Reconcile(orders, bound, orderId, check);
      Reconcile(once, bound, orderId, check) == (reply1, once)
  {
    var (reply1, once) := Reconcile(orders, bound, orderId, check);
    var p := (o: Order) => HasOrderId(o, orderId);
    if once != orders {
      var id := FindByOrderId(orders, orderId, bound).value;
      assert once == orders[id := Confirmed(orders[id], check.reported)];
      assert forall k :: k in orders ==> p(orders[k]) == p(once[k]);
      FirstFromStable(orders, once, p, 0, bound);
      assert once[id := Confirmed(once[id], check.reported)] == once;
    }
  }

  /** `paymentStatus`: find the order by its `order_id`, ask the gateway, and on a 200 answer set
      the reported status and mark it paid, then save. */
  method PaymentStatus(store: OrderStore, orderId: string, check: StatusCheck) returns (reply: StatusReply)
    requires store.Valid()
    modifies store
    ensures store.Valid() && store.nextId == old(store.nextId)
    ensures (reply, store.orders) == Reconcile(old(store.orders), old(store.nextId), orderId, check)
  {
    var found := FindByOrderId(store.orders, orderId, store.nextId);
    if found.None? {
      return StatusReply(404, "Transaction not found");
    }
    var id := found.value;
    var order := store.orders[id];
    match check
    case CheckThrew =>
      reply := StatusReply(500, "Server error");
    case CheckAnswered(status, reported) =>
      if status == 200 {
        order := order.(status := reported);
        order := order.(payment := true);
        if !Storable(order) {
          return StatusReply(500, "Server error");
        }
        store.orders := store.orders[id := order];
        reply := StatusReply(200, "Transaction status updated successfully");
      } else {
        reply := StatusReply(400, "Payment verification failed");
      }
  }
}
