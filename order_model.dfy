/** The order record (backend/models/orderModel.js) and the cart it is placed from. */
module OrderModel {
  import opened Base
  import opened Records
  import opened Catalogue

  /** The schema's default for `status`. */
  const DefaultStatus: string := "Order Placed"

  /** One ordered product: a copy of the catalogue product with the chosen size and quantity. */
  datatype LineItem = LineItem(product: Product, size: string, quantity: int) {
    /** `item._id.toString()`: a line item carries its product's id. */
    function Id(): string { product.id }
  }

  /** The delivery form the shop submits as the order's address. */
  datatype Address = Address(
    firstName: string, lastName: string, email: string, street: string,
    city: string, state: string, phone: string)

  /** A stored order. `status` is any string; `paymentMethod` is "COD" or "eSewa" as the
      handlers write it; `date` is the creation time in milliseconds. */
  datatype Order = Order(
    orderId: string,
    userId: RecordId,
    items: seq<LineItem>,
    amount: int,
    address: Address,
    status: string,
    paymentMethod: string,
    payment: bool,
    date: int)

  /** The fields handed to `new orderModel({...})`, any of which may be missing. */
  datatype OrderDoc = OrderDoc(
    orderId: Option<string>,
    userId: Option<RecordId>,
    items: Option<seq<LineItem>>,
    amount: Option<int>,
    address: Option<Address>,
    status: Option<string>,
    paymentMethod: Option<string>,
    payment: Option<bool>,
    date: Option<int>)

  /** Mongoose's `required` check on a string path: the value is present and not empty. */
  predicate RequiredString(v: Option<string>) {
    v.Some? && v.value != ""
  }

  /** The schema's `required` checks, applied after the defaults: `order_id`, `paymentMethod`
      and `status` (which defaults to "Order Placed" only when missing) must be non-empty strings;
      `userId`, `amount`, `address`, `payment` and `date` must be present. `items` is an array
      path, which defaults to `[]`, and an empty array passes `required`. */
  predicate HasRequiredFields(doc: OrderDoc) {
    && RequiredString(doc.orderId) && doc.userId.Some? && doc.amount.Some?
    && doc.address.Some? && doc.status.GetOr(DefaultStatus) != ""
    && RequiredString(doc.paymentMethod) && doc.payment.Some? && doc.date.Some?
  }

  /** The required strings that only a new document sets: `order_id` and `paymentMethod` are
      non-empty. Later updates never touch them. */
  predicate KeyFieldsSet(o: Order) {
    o.orderId != "" && o.paymentMethod != ""
  }

  /** An order the schema accepts: its required strings are non-empty. */
  predicate Storable(o: Order) {
    KeyFieldsSet(o) && o.status != ""
  }

  /** Validating a new document against the schema: a missing `status` takes the default and
      missing `items` become `[]`; validation fails when a required field is missing or a required
      string is empty. Two documents may share an `order_id`: nothing here or in the store
      compares it with other records. */
  function Build(doc: OrderDoc): (r: Option<Order>)
    ensures r.Some? <==> HasRequiredFields(doc)
    ensures r.Some? ==> Storable(r.value)
    ensures r.Some? ==> r.value.status == doc.status.GetOr(DefaultStatus)
    ensures r.Some? ==> r.value.items == doc.items.GetOr([])
    ensures r.Some? ==> Some(r.value.orderId) == doc.orderId && Some(r.value.amount) == doc.amount
  {
    if HasRequiredFields(doc) then
      Some(Order(doc.orderId.value, doc.userId.value, doc.items.GetOr([]), doc.amount.value,
                 doc.address.value, doc.status.GetOr(DefaultStatus), doc.paymentMethod.value,
                 doc.payment.value, doc.date.value))
    else None
  }

  /** The document that stores `o` as it is. */
  function ToDoc(o: Order): OrderDoc {
    OrderDoc(Some(o.orderId), Some(o.userId), Some(o.items), Some(o.amount), Some(o.address),
             Some(o.status), Some(o.paymentMethod), Some(o.payment), Some(o.date))
  }

  /** An order passes validation unchanged exactly when its required strings are non-empty;
      its status may be any such string, not only the values the admin dropdown offers. */
  lemma BuildToDoc(o: Order)
    ensures Storable(o) ==> Build(ToDoc(o)) == Some(o)
    ensures !Storable(o) ==> Build(ToDoc(o)) == None
  {
  }

  /** A validated document keeps every supplied field verbatim and only fills in the defaults of
      `status` and `items`. */
  lemma ToDocOfBuild(doc: OrderDoc)
    requires HasRequiredFields(doc)
    ensures ToDoc(Build(doc).value) ==
      doc.(status := Some(doc.status.GetOr(DefaultStatus)), items := Some(doc.items.GetOr([])))
  {
  }

  /** One cart line: a product id and the quantity chosen per size (`cartData[productId][size]`). */
  datatype SizeQuantity = SizeQuantity(size: string, quantity: int)
  datatype CartLine = CartLine(productId: string, sizes: seq<SizeQuantity>)

  /** A cart, in the order its keys are enumerated. */
  type Cart = seq<CartLine>
}
