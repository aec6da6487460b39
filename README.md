# Ecommerce-forever storefront: order lifecycle, checkout and catalogue logic in Dafny

This project models the sequential logic of the Ecommerce-forever storefront: a customer shop,
an admin console and a REST backend over a document database, with eSewa as payment gateway.

- **Order store** (`Orders`, `Esewa`, `OrderModel`). The order collection is a map from record id
  to `Order`. Record ids are naturals issued in insertion order, so ascending id order is the
  collection's natural order. The handlers are methods of `Orders.OrderStore`:
  - place a cash-on-delivery order and empty the user's cart;
  - list all orders, or one user's orders;
  - overwrite a status;
  - cancel the items carrying one id, deleting the order when none remain;
  - delete an order.

  The eSewa handlers take the store as a parameter. One starts a payment and stores a paid order
  when the gateway answers 200. The other reconciles a payment by `order_id`. Every gateway answer
  is an input.
- **Accounts** (`Accounts`). Registration, login and admin login over a user collection, whose
  users carry their cart. The duplicate-email check is case-insensitive and runs before the name,
  email and password checks.
- **Catalogue** (`Catalogue`, `AdminList`). The collection page does three things:
  - it toggles categories and sub-categories;
  - it runs a multi-term search over name, category, sub-category and description;
  - it filters by category and sub-category, then sorts in place by price.

  The admin list filters by name or category, ignoring case.
- **Checkout** (`Checkout`). The delivery-form field rules. The nested loop that flattens the cart
  into order items. The amount, which is the cart amount plus the delivery fee. And when the page
  clears the cart.
- **Newsletter** (`Newsletter`) subscription with its 400/409/200 replies, and the **policy
  accordion** (`Policy`), which has at most one open card.
- Helpers: `Text` covers character classes, ASCII lower-casing, `includes`, `trim` and
  `split(/\s+/)`. `Seqs` covers `filter` and subsequences. `Records` covers natural-order scans
  and listings. `Base` holds `Option`.

Gateway answers, bcrypt comparison, the email-syntax check, password hashing, the clock and the
generated order id are all parameters. A token is represented by the record id it is issued for.

The model keeps these behaviours of the code as written:
- `placeOrder` does not reject a duplicate `order_id`. Two orders may share one
  (`Orders.SameOrderIdTwice`).
- The eSewa order is stored with `payment == true` when the payment is initiated, before any
  confirmation.
- `status` is any string. The admin update does not restrict it, and it runs no schema
  validation, so it may even store an empty status. A later save of that record, when an item is
  cancelled, fails validation; a confirmed eSewa payment overwrites the status before saving.
- A new order validates with `items` missing (the array path defaults to `[]`) or empty, and
  fails with an empty `order_id`, `paymentMethod` or `status`.
- `amount` is stored as the client sent it. It is never recomputed, including after a
  cancellation.
- When the gateway answers the initiate call with a status other than 200, the handler falls
  through without sending a reply (`Esewa.NoReply`).
- Cancelling removes every line item whose `_id` equals `itemId`. A line item is a copy of the
  product, so its `_id` is the product's id, and all sizes of that product are removed together.

## Model

| member | source | states |
|---|---|---|
| `OrderModel.Build` | backend/models/orderModel.js:3-13 | a new document validates exactly when `order_id` and `paymentMethod` are non-empty strings, `userId`, `amount`, `address`, `payment` and `date` are present, and `status` is non-empty after its default; a missing `status` becomes "Order Placed" and missing `items` become `[]`; a validated order keeps `order_id` and `amount` as given |
| `OrderModel.BuildToDoc` | backend/models/orderModel.js:3-13 | an order passes validation unchanged exactly when its `order_id`, `status` and `paymentMethod` are non-empty, and fails otherwise; the status may be any non-empty string, not only the dropdown's values |
| `OrderModel.ToDocOfBuild` | backend/models/orderModel.js:4-12 | a validated document keeps every supplied field verbatim and only fills in the defaults of `status` and `items` |
| `Orders.CodDoc` | backend/controllers/orderController.js:8-18 | the COD document carries the client's `order_id`, items and amount verbatim, method "COD", not paid, and no status |
| `Orders.OrderStore.Save` | backend/controllers/orderController.js:20-21 | saving stores the validated order under a fresh id that comes last in natural order, or stores nothing when validation fails |
| `Orders.OrderStore.PlaceOrder` | backend/controllers/orderController.js:6-30 | adds exactly one order (COD, unpaid, default status, client `order_id` and `amount`) and empties that user's cart; a failed validation changes neither |
| `Orders.OrderStore.AllOrders` | backend/controllers/orderController.js:34-37 | lists every stored order with its id, each once, in natural order |
| `Orders.OrderStore.UserOrders` | backend/controllers/orderController.js:45-49 | lists exactly the orders whose `userId` is the requester's, as a subsequence of the full listing |
| `Orders.OrderStore.UpdateStatus` | backend/controllers/orderController.js:57-61 | overwrites only that record's `status` with any string; reports success even for an unknown id, which changes nothing |
| `Orders.Remaining` | backend/controllers/orderController.js:79 | the remaining items are exactly those whose id differs from `itemId`, in their original order |
| `Orders.RemainingEmpty` | backend/controllers/orderController.js:79-85 | cancellation empties an order exactly when every item carries `itemId` |
| `Orders.RemainingUnknownItem` | backend/controllers/orderController.js:79-91 | cancelling an id that no item carries leaves the item list as it was |
| `Orders.CancelItemEffect` | backend/controllers/orderController.js:68-96 | unknown order: "Order not found", nothing changes; otherwise the order is deleted when no item would remain, or else the reduced order is saved, which validates it: a record with an empty `status` fails with the validation error and nothing changes, and any other loses exactly the matching items and keeps its amount; other records untouched |
| `Orders.OrderStore.CancelOrderItem` | backend/controllers/orderController.js:68-96 | the handler's reply and new collection are those of the cancellation function |
| `Orders.CancelLastItemUnlists` | backend/controllers/orderController.js:82-84 | after cancelling an order's last items it no longer appears in the admin listing |
| `Orders.SameOrderIdTwice` | backend/controllers/orderController.js:8-21 | two checkouts with the same `order_id` both succeed and leave two records sharing it |
| `Orders.OrderStore.DeleteOrder` | backend/controllers/orderController.js:99-117 | a missing id gives "Order not found" and no change; otherwise exactly that record is removed |
| `Esewa.EsewaDoc` | backend/controllers/esewaController.js:45-55 | the eSewa document carries the request's fields and status as sent, paid, method "eSewa" |
| `Esewa.InitiatePayment` | backend/controllers/esewaController.js:3-70 | falsy gateway answer or thrown error: 400, nothing stored; non-200 answer: no reply, nothing stored; 200: exactly one paid eSewa order stored and its redirect URL returned |
| `Esewa.FindByOrderId` | backend/controllers/esewaController.js:76 | finds the first record in natural order whose `order_id` matches, or reports that none does |
| `Esewa.Confirmed` | backend/controllers/esewaController.js:92-93 | a confirmed order has the reported status and is paid; no other field differs |
| `Esewa.ReconcileEffect` | backend/controllers/esewaController.js:72-108 | unknown `order_id` gives 404; any non-200 reply leaves every record unchanged; a 200 reply comes only from a 200 check and changes exactly one record with that `order_id`, to the reported status and paid |
| `Esewa.ReconcileFound` | backend/controllers/esewaController.js:82-107 | for the first record with that `order_id`, whatever its current `status` (every stored record has a non-empty `order_id` and `paymentMethod`): a thrown check gives 500 "Server error", a non-200 check 400 "Payment verification failed", both without change; a 200 check with a non-empty status gives 200 and sets exactly that record's status and payment; an empty reported status fails the save's validation and gives 500 without change |
| `Esewa.ReconcileIdempotent` | backend/controllers/esewaController.js:91-94 | running the reconciliation twice with the same gateway answer gives the same reply and the same collection as running it once |
| `Esewa.PaymentStatus` | backend/controllers/esewaController.js:72-108 | the handler's reply and new collection are those of the reconciliation function, whose outcomes the two lemmas above state |
| `Text.LettersAndSpaces` | backend/controllers/userController.js:46-49 | a name is accepted exactly when it is non-empty and made only of ASCII letters and white space (the checkout form applies the same rule to city and state) |
| `Accounts.PasswordAccepted` | backend/controllers/userController.js:57 | a password is accepted exactly when it has at least 8 characters, all letters, digits or `@$!%*?&`, with at least one of each kind |
| `Accounts.UserStore.FindByEmail` | backend/controllers/userController.js:14 | finds a user whose email equals the given one ignoring case, or reports that none does |
| `Accounts.UserStore.Login` | backend/controllers/userController.js:11-32 | no user with that email (ignoring case): 404 "User doesn't exist"; that user's hash matches: token; otherwise 400 "Invalid credentials" |
| `Accounts.UserStore.Register` | backend/controllers/userController.js:35-77 | an existing email (ignoring case) is refused before any validation; then name, email and password rules in order; a refusal stores nothing, success stores exactly one user; emails stay unique ignoring case |
| `Accounts.UserStore.ClearCart` | backend/controllers/orderController.js:23 | empties that user's cart and nothing else; an unknown user id changes nothing |
| `Accounts.AdminLogin` | backend/controllers/userController.js:80-94 | admin login succeeds exactly when both email and password equal the configured ones |
| `Catalogue.Toggle` | frontend/src/pages/Collection.jsx:15-29 | after a toggle the value is selected exactly when it was not before; every other value keeps its membership |
| `Catalogue.ToggleTwice` | frontend/src/pages/Collection.jsx:15-29 | toggling a value twice restores the selected set |
| `Text.Lower` | frontend/src/pages/Collection.jsx:36 | lower-casing keeps the length and lower-cases each ASCII letter in place |
| `Text.Trim` | frontend/src/pages/Collection.jsx:36 | trimming yields a slice `s[a..b]` of the input with no white space at either end, and everything cut away before `a` and after `b` is white space |
| `Text.SplitOnSpaces` | frontend/src/pages/Collection.jsx:36 | the split yields at least one piece; no piece holds white space, and the pieces joined with single spaces give the input with each run of white space collapsed to one space |
| `Text.SplitTrimmed` | frontend/src/pages/Collection.jsx:36 | the terms of a trimmed non-empty search are non-empty and contain no white space |
| `Catalogue.SearchableHoldsFields` | frontend/src/pages/Collection.jsx:39-46 | the searchable string contains the lower-cased name, category, sub-category and description (or "" when there is none), and its length is theirs plus three separators |
| `Catalogue.SearchTermsAreWords` | frontend/src/pages/Collection.jsx:36 | the search terms, joined with single spaces, are the lower-cased trimmed search with runs of white space collapsed; no term holds white space; a blank search gives the single term "", any other only non-empty terms |
| `Catalogue.BlankSearchKeepsAll` | frontend/src/pages/Collection.jsx:35-48 | a non-empty search of white space only yields the single term "", so it keeps every product |
| `Catalogue.VisibleIff` | frontend/src/pages/Collection.jsx:35-60 | a product is shown exactly when it is in the catalogue, matches every search term when search is active, and is in the selected categories and sub-categories when those are non-empty |
| `Catalogue.VisibleIsSubsequence` | frontend/src/pages/Collection.jsx:32-60 | the filtered products are a subsequence of the catalogue, in catalogue order |
| `Catalogue.InsertAt` | frontend/src/pages/Collection.jsx:63-69 | one insertion pass: given the first `i` elements in price order, the first `i + 1` end up in order and the array keeps the same elements |
| `Catalogue.SortByPrice` | frontend/src/pages/Collection.jsx:63-69 | the in-place sort leaves the array ordered by price in the chosen direction and a permutation of what it was |
| `Catalogue.Refresh` | frontend/src/pages/Collection.jsx:31-76 | "low-high" output is non-decreasing in price and "high-low" output non-increasing, both permutations of the filtered products; any other sort type shows the filtered products in catalogue order |
| `AdminList.FilteredList` | admin/src/pages/List.jsx:46-54 | the list keeps exactly the products whose lower-cased name or category contains the lower-cased term, as a subsequence of the list |
| `AdminList.EmptyTermListsAll` | admin/src/pages/List.jsx:48-52 | an empty search term lists every product |
| `AdminList.CaseOfTermIrrelevant` | admin/src/pages/List.jsx:48-51 | changing the letter case of the search term does not change the list |
| `Checkout.PersonNameValid` | frontend/src/pages/PlaceOrder.jsx:15-16 | a first or last name is valid exactly when it has at least 2 characters, all ASCII letters |
| `Checkout.StreetValid` | frontend/src/pages/PlaceOrder.jsx:18 | a street is valid exactly when its JavaScript length (UTF-16 code units) is at least 5: five characters always suffice, fewer than three never do |
| `Text.Utf16Length` | frontend/src/pages/PlaceOrder.jsx:18 | a string's JavaScript length lies between its character count and twice it, and equals the character count exactly when no character lies outside the Basic Multilingual Plane |
| `Checkout.FormValid` | frontend/src/pages/PlaceOrder.jsx:14-22 | a form that passes the schema has no empty field, and its email passes the email check |
| `Checkout.PhoneValid` | frontend/src/pages/PlaceOrder.jsx:21 | a phone number is valid exactly when it is 10 decimal digits |
| `Checkout.FindProduct` | frontend/src/pages/PlaceOrder.jsx:54 | the lookup returns a catalogue product with that id, or nothing exactly when no product has it |
| `Checkout.FindProductIsFirst` | frontend/src/pages/PlaceOrder.jsx:54 | the product found is the first in the catalogue with that id |
| `Checkout.LineItemsExactly` | frontend/src/pages/PlaceOrder.jsx:52-58 | one cart line yields an item exactly for each size with a positive quantity, when its product is known |
| `Checkout.FlattenExactly` | frontend/src/pages/PlaceOrder.jsx:51-62 | an order item occurs exactly when some cart line's product id is found, with that product, and the line holds that size with that positive quantity |
| `Checkout.LineItemsInOrder` | frontend/src/pages/PlaceOrder.jsx:52-58 | a cart line with a known product yields, in order, exactly one item per size with a positive quantity, carrying that size and quantity; an unknown product yields no item |
| `Checkout.FlattenCount` | frontend/src/pages/PlaceOrder.jsx:51-62 | the number of order items equals the number of (product id, size) entries with a positive quantity and a known product, so no entry is dropped or doubled |
| `Seqs.FilterCounts` | frontend/src/pages/Collection.jsx:38-60 | a filter keeps every occurrence of an element that passes the test and none of one that fails |
| `Checkout.FlattenQuantitiesPositive` | frontend/src/pages/PlaceOrder.jsx:53-58 | every order item has a positive quantity and a catalogue product; unknown product ids are skipped |
| `Checkout.BuildOrderItems` | frontend/src/pages/PlaceOrder.jsx:49-62 | the nested loop builds exactly the flattened cart |
| `Checkout.Submit` | frontend/src/pages/PlaceOrder.jsx:45-69 | nothing is sent unless the form is valid; the request carries the generated id, the form as address, the flattened cart and amount = cart amount + delivery fee |
| `Checkout.CodResult` | frontend/src/pages/PlaceOrder.jsx:72-73 | a `placeOrder` reply always resolves with status 200, and the page reads `success` from its body |
| `Checkout.EsewaResult` | frontend/src/pages/PlaceOrder.jsx:81-82 | an initiate reply resolves with status 200 exactly for the redirect (or a failure coded 200, which the handler never sends); a 400 failure rejects; no reply at all is taken as a rejection, since the request never resolves |
| `Checkout.ClearsCart` | frontend/src/pages/PlaceOrder.jsx:71-89 | the cart is cleared only on a resolved response: for COD when the body says success, for eSewa when the status is 200 |
| `Checkout.CartClearedOnlyAfterBackendSuccess` | frontend/src/pages/PlaceOrder.jsx:71-89 | the page clears the cart after COD exactly when the backend stored the order, and after eSewa exactly when it redirected |
| `Newsletter.Subscribers.Subscribe` | backend/routes/newsLetter.js:6-27 | a missing or empty email gives 400 and an already subscribed one 409, both without change; a new email is appended, with 200; no email is held twice |
| `Newsletter.SubscribeTwice` | backend/routes/newsLetter.js:15-22 | after a successful subscription, the same email again is refused and adds nothing |
| `Policy.TogglePolicy` | frontend/src/components/OurPolicy.jsx:32-34 | toggling the open card closes it; toggling in any other state opens that card |
| `Policy.Expanded` | frontend/src/components/OurPolicy.jsx:43 | a card is rendered open exactly when its index is the open index |
| `Policy.AtMostOneOpen` | frontend/src/components/OurPolicy.jsx:30-43 | exactly one card is open when the open index is a card, none otherwise |
| `Policy.ClicksStayOnCards` | frontend/src/components/OurPolicy.jsx:30-50 | after any series of clicks on the rendered cards, the open index is a card or none, and at most one card is open |
| `Policy.ClickTwiceFromClosed` | frontend/src/components/OurPolicy.jsx:33 | from all closed, clicking the same card twice closes everything again |

## Left out

- Rendering, toasts, navigation and React hook plumbing are UI. The HTTP transport is modelled
  only as `Checkout.PostResult`.
- Storage failures are not modelled. This covers every `catch` branch that reports a database
  error with its `error.message`, and the cast error a malformed record id raises. Record ids are
  naturals. The storage failures modelled are schema validation of a new order, whose message is
  represented by the constant "order validation failed", the validation of the reduced order
  when `cancelOrderItem` saves it (the same constant stands for its message), and the validation
  of the confirmed order when `paymentStatus` saves it.
- Whether the order save and the cart update in `placeOrder` happen atomically is a storage
  concern. The model runs them in sequence.
- bcrypt, JWT signing, `validator.isEmail`, yup's `.email()` and the `esewajs` calls are library
  code. They are parameters, and a token is the record id it is issued for.
- `getCartAmount`, `delivery_fee` and `clearCart` come from the shop context, which is not part of
  this model. The two amounts are inputs.
- The order id is a random UUID, so it is an input.
- backend/models/userModel.js is not part of this model. New users are stored with an empty cart.
- The auth middleware is not modelled. The requester's user id is a parameter, and the admin
  guard is left out.
- `deleteOrder` is not registered in backend/routes/orderRoute.js:2, although the admin page
  posts to `/api/order/delete`. The model includes the handler and does not model routing.
- Request bodies with missing fields are modelled for order creation and for the newsletter's
  email. In registration, login, status updates, cancellations and payment checks every field
  is a string. So registration without a name is not modelled: `nameRegex.test(undefined)` tests
  the text "undefined", which passes.
- Text.Lower: lower-cases ASCII letters only, because full Unicode case mapping is out of scope.
  `EqualsIgnoreCase` inherits this limit.
- Accounts.UserStore.FindByEmail: compares emails case-insensitively as strings. It ignores the
  regular-expression metacharacters that an unescaped email would carry into the query.
- Catalogue.SortByPrice: does not state stability. JavaScript's sort keeps products of equal
  price in their order, and the model proves only sortedness and permutation.
- Prices are integers, so floating-point comparison in the sort is out of scope.
- The cart's keys are enumerated in sequence order. JavaScript's rule that integer-like keys come
  first is not modelled.
- `item.description || ""` is modelled for a missing description. Other falsy values are not
  modelled.
- `userId` is a record id, so the schema's `required` check on it can only fail when it is
  missing. The auth middleware sets it from the verified token, so it is never the empty string.
- Esewa.PaymentStatus: models the gateway-reported status as always present. A missing status
  would fail the save's validation, like an empty one does.
- A request that never resolves is treated like a rejection in `Checkout.EsewaResult`. Either way
  the page does not clear the cart.
