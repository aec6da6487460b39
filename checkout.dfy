/** The checkout page (frontend/src/pages/PlaceOrder.jsx): the delivery form's field rules, the
    flattening of the cart into order items, the order's amount, and when the cart is cleared. */
module Checkout {
  import opened Base
  import opened Text
  import opened Seqs
  import opened Catalogue
  import opened OrderModel
  import opened Orders
  import opened Esewa

  /** First and last name: `^[A-Za-z]+$`, at least 2 characters. */
  function PersonNameValid(s: string): (ok: bool)
    ensures ok <==> |s| >= 2 && forall i :: 0 <= i < |s| ==> IsAsciiLetter(s[i])
  {
    LettersOnly(s) && |s| >= 2
  }

  /** Street: `min(5)`, at least 5 UTF-16 code units. Five characters always suffice, three
      never do; in between it depends on how many lie outside the Basic Multilingual Plane. */
  function StreetValid(s: string): (ok: bool)
    ensures ok <==> Utf16Length(s) >= 5
    ensures |s| >= 5 ==> ok
    ensures ok ==> |s| >= 3
  {
    Utf16Length(s) >= 5
  }

  /** Phone: `^\d{10}$`. */
  function PhoneValid(s: string): (ok: bool)
    ensures ok <==> |s| == 10 && forall i :: 0 <= i < |s| ==> '0' <= s[i] <= '9'
  {
    |s| == 10 && AllIn(s, IsDigit)
  }

  /** The whole form schema; the email rule is the library's and is passed in. Every field is
      `required`, so a valid form has no empty field. */
  function FormValid(form: Address, isEmail: string -> bool): (ok: bool)
    ensures ok ==> && form.firstName != "" && form.lastName != "" && form.email != ""
                   && form.street != "" && form.city != "" && form.state != "" && form.phone != ""
    ensures ok ==> isEmail(form.email)
  {
    && PersonNameValid(form.firstName) && PersonNameValid(form.lastName)
    && form.email != "" && isEmail(form.email)
    && StreetValid(form.street) && LettersAndSpaces(form.city) && LettersAndSpaces(form.state)
    && PhoneValid(form.phone)
  }

  /** `products.find(product => product._id === id)`: the first product with that id. */
  function FindProduct(products: seq<Product>, id: string): (r: Option<Product>)
    ensures r.Some? ==> r.value in products && r.value.id == id
    ensures r.None? <==> forall p :: p in products ==> p.id != id
  {
    if products == [] then None
    else if products[0].id == id then Some(products[0])
    else FindProduct(products[1..], id)
  }

  /** `find` returns the first product with the id: every product before the one found has
      another id. */
  lemma {:induction false} FindProductIsFirst(products: seq<Product>, id: string)
    requires FindProduct(products, id).Some?
    ensures exists i :: 0 <= i < |products| && products[i] == FindProduct(products, id).value
                        && forall j :: 0 <= j < i ==> products[j].id != id
  {
    if products[0].id != id {
      FindProductIsFirst(products[1..], id);
      var i :| 0 <= i < |products[1..]| && products[1..][i] == FindProduct(products, id).value
               && forall j :: 0 <= j < i ==> products[1..][j].id != id;
      assert products[i + 1] == FindProduct(products, id).value;
      assert forall j :: 1 <= j < i + 1 ==> products[j] == products[1..][j - 1];
    } else {
      assert products[0] == FindProduct(products, id).value;
    }
  }

  /** The items one size list of a cart line contributes: one per size with a positive quantity,
      when the product is known. */
  function LineItems(product: Option<Product>, sizes: seq<SizeQuantity>): seq<LineItem>
    decreases |sizes|
  {
    if sizes == [] then []
    else
      var last := sizes[|sizes| - 1];
      LineItems(product, sizes[..|sizes| - 1])
      + (if last.quantity > 0 && product.Some? then [LineItem(product.value, last.size, last.quantity)] else [])
  }

  /** The order items of a cart: every cart line in turn. */
  function Flatten(cart: Cart, products: seq<Product>): seq<LineItem>
    decreases |cart|
  {
    if cart == [] then []
    else
      var line := cart[|cart| - 1];
      Flatten(cart[..|cart| - 1], products) + LineItems(FindProduct(products, line.productId), line.sizes)
  }

  /** Each item of one cart line is the known product with one of the line's sizes and its
      positive quantity, and each such size yields an item. */
  lemma {:induction false} LineItemsExactly(product: Option<Product>, sizes: seq<SizeQuantity>, it: LineItem)
    ensures it in LineItems(product, sizes) <==>
      product.Some? && it.product == product.value && it.quantity > 0 &&
      SizeQuantity(it.size, it.quantity) in sizes
    decreases |sizes|
  {
    if sizes != [] {
      var init := sizes[..|sizes| - 1];
      LineItemsExactly(product, init, it);
      assert sizes == init + [sizes[|sizes| - 1]];
    }
  }

  /** The loop emits exactly one item per (product id, size) cart entry with a positive quantity
      whose product id is found in `products`, carrying that product, size and quantity. */
  lemma {:induction false} FlattenExactly(cart: Cart, products: seq<Product>, it: LineItem)
    ensures it in Flatten(cart, products) <==>
      exists line :: line in cart && FindProduct(products, line.productId) == Some(it.product)
        && it.quantity > 0 && SizeQuantity(it.size, it.quantity) in line.sizes
    decreases |cart|
  {
    if cart != [] {
      var init, line := cart[..|cart| - 1], cart[|cart| - 1];
      FlattenExactly(init, products, it);
      LineItemsExactly(FindProduct(products, line.productId), line.sizes, it);
      assert cart == init + [line];
    }
  }

  /** The sizes of a cart line with a positive quantity (`cartItems[items][item] > 0`), in order. */
  function PositiveSizes(sizes: seq<SizeQuantity>): (r: seq<SizeQuantity>)
    ensures forall e :: e in r <==> e in sizes && e.quantity > 0
  {
    Filter(sizes, (e: SizeQuantity) => e.quantity > 0)
  }

  /** `items` holds, index by index, the order item for each entry of `pos` with product `p`. */
  predicate ItemsFor(p: Product, items: seq<LineItem>, pos: seq<SizeQuantity>) {
    && |items| == |pos|
    && forall i :: 0 <= i < |pos| ==> items[i] == LineItem(p, pos[i].size, pos[i].quantity)
  }

  /** Appending one entry, kept only when its quantity is positive, keeps the correspondence. */
  lemma ItemsForAppend(p: Product, items: seq<LineItem>, pos: seq<SizeQuantity>, last: SizeQuantity)
    requires ItemsFor(p, items, pos)
    ensures ItemsFor(p, items + (if last.quantity > 0 then [LineItem(p, last.size, last.quantity)] else []),
                     pos + (if last.quantity > 0 then [last] else []))
  {
  }

  /** One cart line with a known product yields, in order, one item per size with a positive
      quantity, carrying that size and quantity; an unknown product yields nothing. */
  lemma {:induction false} LineItemsInOrder(product: Option<Product>, sizes: seq<SizeQuantity>)
    ensures product.None? ==> LineItems(product, sizes) == []
    ensures product.Some? ==> ItemsFor(product.value, LineItems(product, sizes), PositiveSizes(sizes))
    decreases |sizes|
  {
    if sizes != [] {
      var init, last := sizes[..|sizes| - 1], sizes[|sizes| - 1];
      LineItemsInOrder(product, init);
      assert sizes == init + [last];
      var q := (e: SizeQuantity) => e.quantity > 0;
      FilterAppend(init, [last], q);
      assert Filter([last], q) == (if q(last) then [last] else []) + Filter([], q);
      if product.Some? {
        ItemsForAppend(product.value, LineItems(product, init), PositiveSizes(init), last);
      }
    }
  }

  /** The number of (product id, size) cart entries with a positive quantity whose product is
      known. */
  function KnownEntries(cart: Cart, products: seq<Product>): nat
    decreases |cart|
  {
    if cart == [] then 0
    else
      var line := cart[|cart| - 1];
      KnownEntries(cart[..|cart| - 1], products)
      + (if FindProduct(products, line.productId).Some? then |PositiveSizes(line.sizes)| else 0)
  }

  /** The cart yields exactly one order item per counted entry: no entry is dropped or doubled. */
  lemma {:induction false} FlattenCount(cart: Cart, products: seq<Product>)
    ensures |Flatten(cart, products)| == KnownEntries(cart, products)
    decreases |cart|
  {
    if cart != [] {
      var line := cart[|cart| - 1];
      FlattenCount(cart[..|cart| - 1], products);
      LineItemsInOrder(FindProduct(products, line.productId), line.sizes);
    }
  }

  /** Every order item has a positive quantity and comes from a known product. */
  lemma FlattenQuantitiesPositive(cart: Cart, products: seq<Product>)
    ensures forall it :: it in Flatten(cart, products) ==> it.quantity > 0 && it.product in products
  {
    forall it | it in Flatten(cart, products) ensures it.quantity > 0 && it.product in products {
      FlattenExactly(cart, products, it);
    }
  }

  /** The nested `for ... in` loop of `onSubmitHandler`, pushing onto `orderItems`. */
  method BuildOrderItems(cart: Cart, products: seq<Product>) returns (orderItems: seq<LineItem>)
    ensures orderItems == Flatten(cart, products)
  {
    orderItems := [];
    var i := 0;
    while i < |cart|
      invariant 0 <= i <= |cart|
      invariant orderItems == Flatten(cart[..i], products)
    {
      var line := cart[i];
      var j := 0;
      while j < |line.sizes|
        invariant 0 <= j <= |line.sizes|
        invariant orderItems == Flatten(cart[..i], products)
                                + LineItems(FindProduct(products, line.productId), line.sizes[..j])
      {
        var entry := line.sizes[j];
        if entry.quantity > 0 {
          var itemInfo := FindProduct(products, line.productId);
          if itemInfo.Some? {
            orderItems := orderItems + [LineItem(itemInfo.value, entry.size, entry.quantity)];
          }
        }
        assert line.sizes[..j + 1][..j] == line.sizes[..j];
        j := j + 1;
      }
      assert line.sizes[..j] == line.sizes;
      assert cart[..i + 1][..i] == cart[..i];
      i := i + 1;
    }
    assert cart[..i] == cart;
  }

  /** The payment method chosen on the page. */
  datatype PayMethod = Cod | Esewa

  /** What `axios.post` gives the handler: a rejection (a network error, or a status outside
      200-299), or a response with its status and the body's `success` flag. */
  datatype PostResult = Rejected | Resolved(status: int, success: bool)

  /** The order body the page posts. */
  datatype Submission = Submission(payWith: PayMethod, request: OrderRequest)

  /** `handleSubmit(onSubmitHandler)`: nothing is sent unless the form passes the schema; then the
      request carries the generated id, the form as address, the flattened cart, and the cart
      amount plus the delivery fee, and no status. */
  method Submit(form: Address, isEmail: string -> bool, payWith: PayMethod, orderId: string,
                cart: Cart, products: seq<Product>, cartAmount: int, deliveryFee: int)
    returns (sent: Option<Submission>)
    ensures sent.Some? <==> FormValid(form, isEmail)
    ensures sent.Some? ==>
      && sent.value.payWith == payWith
      && sent.value.request == OrderRequest(Some(orderId), Some(Flatten(cart, products)),
                                            Some(cartAmount + deliveryFee), Some(form), None)
  {
    if !FormValid(form, isEmail) {
      return None;
    }
    var orderItems := BuildOrderItems(cart, products);
    var orderData := OrderRequest(Some(orderId), Some(orderItems), Some(cartAmount + deliveryFee), Some(form), None);
    sent := Some(Submission(payWith, orderData));
  }

  /** Whether `onSubmitHandler` calls `clearCart`: for COD on a resolved response whose body
      says success, for eSewa on a resolved response with status 200. */
  function ClearsCart(payWith: PayMethod, result: PostResult): (clears: bool)
    ensures clears ==> result.Resolved? && 200 <= result.status < 300
    ensures payWith == Cod ==> (clears <==> result.Resolved? && 200 <= result.status < 300 && result.success)
    ensures payWith == Esewa ==> (clears <==> result.Resolved? && result.status == 200)
  {
    match result
    case Rejected => false
    case Resolved(status, success) =>
      if !(200 <= status < 300) then false
      else if payWith == Cod then success
      else status == 200
  }

  /** How axios sees a reply of `placeOrder`: always HTTP 200 with the body's `success`. */
  function CodResult(ack: Ack): (r: PostResult)
    ensures r.Resolved? && r.status == 200
    ensures r.success <==> ack.success
  {
    Resolved(200, ack.success)
  }

  /** How axios sees a reply of `EsewaInitiatePayment`: the redirect is a 200, a failure a 400
      (a rejection), and no reply at all never resolves. */
  function EsewaResult(reply: InitReply): (r: PostResult)
    ensures r.Resolved? && r.status == 200 <==> reply.Redirect? || (reply.Failed? && reply.code == 200)
    ensures reply.NoReply? ==> r.Rejected?
    ensures reply.Failed? && !(200 <= reply.code < 300) ==> r.Rejected?
  {
    match reply
    case Redirect(_) => Resolved(200, false)
    case Failed(code, _) => if 200 <= code < 300 then Resolved(code, false) else Rejected
    case NoReply => Rejected
  }

  /** The page clears the cart after a COD checkout exactly when the backend stored the order,
      and after an eSewa checkout exactly when the backend redirected, which it does only after
      storing the order (its failures are all 400). */
  lemma CartClearedOnlyAfterBackendSuccess(ack: Ack, reply: InitReply)
    requires reply.Failed? ==> reply.code == 400
    ensures ClearsCart(Cod, CodResult(ack)) <==> ack.success
    ensures ClearsCart(Esewa, EsewaResult(reply)) <==> reply.Redirect?
  {
  }
}
