# ecart store core in Dafny

This project models the store core of the ecart e-commerce backend (a Django
REST API). It covers:

- the checkout handler, which writes an order, its shipping address, one
  item per cart line and the stock decrements;
- order lookup with its access check;
- the paid and delivered transitions;
- the review handler, which keeps a product's review count and mean rating;
- the catalogue queries: products of a category subtree, second-level
  categories, and the five best-rated products;
- product edit and delete;
- the integrity rules of store/models.py: unique columns, foreign keys,
  CASCADE and RESTRICT deletes, and the category tree;
- the derived order totals;
- the account serializers: registration fields, the user row
  `create_user` writes, the login guard chain, and the display name and
  admin flag.

The files, in dependency order:

| file | module | contents |
|---|---|---|
| `wrappers.dfy` | `Wrappers` | `Option` and `Result` |
| `tables.dfy` | `Tables` | an auto-increment table: rows by id, with ascending id as creation order |
| `text.dfy` | `Text` | code-point string order, `str(n)`, Python's `isspace` and `strip` |
| `ratings.dfy` | `Ratings` | sums and arithmetic means of review ratings |
| `sorting.dfy` | `Sorting` | an insertion sort under a strict partial order, standing for `ORDER BY` |
| `models.dfy` | `Models` | one datatype per Django model, row defaults, derived totals, integrity predicates |
| `catalog.dfy` | `Catalog` | the category tree and the three catalogue queries |
| `orders.dfy` | `Orders` | the cart payload, the rows a checkout creates, the stock arithmetic, order lookup, paid and delivered |
| `database.dfy` | `Database` | the ten tables as one value `Db`, plus `Consistent`: the schema integrity and, for every product, a review count and rating that agree with its reviews |
| | | the state each write handler leads to, and lemmas that each write keeps `Consistent` |
| `store.dfy` | `Store` | class `Store` with one field per table; each handler is a method proved against the state `Database` describes |
| `accounts.dfy` | `Accounts` | the account serializers |

How the model maps the source:

- **State.** The class `Store.Store` holds the database. Its handlers update
  the table fields in place; the source works the same way, through
  `create`, `save` and `delete`.
- **Invariant.** Every handler requires and preserves `Valid()`, which is
  `Consistent()` of the current tables.
- **Handler contracts.** Each handler's `ensures` gives the whole new state.
  It is stated as a function of the old state: `Database.Placed`,
  `Database.Reviewed`, `Db.WithoutProducts`, `Db.WithoutCategory`, or a
  single-row update.
- **Proved properties.** What those functions mean is proved in lemmas next
  to them.
- **Parameters.** The clock (`now`), Django's `authenticate` and the e-mail
  syntax check are parameters.
- **Numbers.** Decimal prices and ratings are `real`, so there is no
  rounding.

Where the code behaves otherwise than a reader of the store's intent would
expect, the model follows the code:

- **Empty cart.** A checkout with an empty cart creates an order and its
  address. The guard meant to refuse it (`store/views.py:132`) can never
  fire, and its response is not returned.
- **No transaction.** A checkout is not all-or-nothing. A line naming a
  missing product fails the request, and the order, the address and the
  earlier lines' items and stock decrements stay written.
- **Negative stock.** Stock can go below zero.
- **Product delete.** Deleting a product cascades to its order items,
  because `OrderItem.product` is `on_delete=CASCADE`. The delete is not
  refused.
- **Rating check.** A review is refused only for a rating equal to 0. A
  negative rating is accepted.
- **Category query.** The products-of-a-category query does not filter
  inactive products.
- **Registration.** The uniqueness checks compare the trimmed values as
  sent, and `create_user` stores them normalised. So an address that
  differs from a stored one only in the case of its domain is stored a
  second time (see "Findings"). A username that collides only once
  normalised passes the serializer, and the database refuses it with an
  integrity error.

## Model

| member | source | states |
|---|---|---|
| Store.Store.PlaceOrder | store/views.py:126-169 | Lists the new state in full: the order, then its address, then per cart line up to the first unknown product an item and the stock taken. Succeeds with the new order's id exactly when every line's product exists; an empty cart succeeds; the database stays consistent. |
| Store.Store.TakeStock | store/views.py:160-169 | The loop over the cart lines: it stops at the first line whose product is missing; the items inserted are those of the lines before it, and the stock is deducted line by line. |
| Store.Store.CheckoutLines | store/views.py:160-169 | The same loop on values, proved with loop invariants against `FirstMissing`, `LineItems` and `Deduct`. |
| Database.PlacedInSteps | store/views.py:138-169 | A checkout is the order and address written, then the lines checked out one by one; each stage leaves a consistent database. |
| Database.PlacedOrder | store/views.py:138-157 | The new order id was unused; the order is owned by the caller and unpaid; it has exactly one shipping address, which carries the order's shipping charge. |
| Database.PlacedItemsExactly | store/views.py:160-165 | Reading the new order's items back gives exactly one item per processed cart line, in cart order, with the line's product and quantity. |
| Database.PlacedStock | store/views.py:160-169 | No product appears or disappears. Each product's stock is its old stock minus the total quantity the new order holds of it, with no floor; nothing else about any product changes. |
| Database.CheckoutConsistent | store/views.py:160-169 | Checking out lines whose products exist, into an existing order, keeps the database consistent (induction over the lines). |
| Database.StockTaken | store/views.py:163-169 | One loop step, which adds an item row and lowers its product's stock by the quantity, keeps the database consistent. |
| Orders.NewOrder | store/views.py:138-144 | The created order is owned by the caller and neither paid nor delivered. Its transaction id is the request's, or the caller's id in decimal when the key is absent. Tax, shipping charge and payment method come from the request. |
| Orders.NewAddress | store/views.py:147-157 | The address belongs to the new order and to the caller. Its name, address, city, state, zipcode and country are the request's `shippingAddress` values, and it carries the order's shipping charge. |
| Orders.FirstMissing | store/views.py:160-161 | The index of the first cart line whose product does not exist (the cart's length when all exist): every earlier line's product exists. |
| Orders.DeductClosedForm | store/views.py:160-169 | Taking stock line by line equals, per product, the old row with its stock lowered by the total quantity the lines ask of it. |
| Orders.QuantityOfUnnamed | store/views.py:160-169 | Items that all name other products ask nothing of a product, so with `DeductClosedForm` a product the cart does not name keeps its stock. |
| Tables.InsertAllRows | store/views.py:160-165 | Inserting the item rows one by one keeps every earlier row and puts the new rows, in cart order, under consecutive ids from the table's next id. |
| Orders.PlacedTotalItems | store/models.py:368-372 | `total_items` of a placed order is the sum of the cart's line quantities. |
| Orders.GetOrder | store/views.py:201-227 | The order is returned iff it exists and the caller is staff or its creator (and every item's product has an image, without which rendering raises into the same handler). A missing order reads "Order does not exist!". "Not authorized" is returned iff the order exists and the caller is neither staff nor the owner. |
| Orders.Paid | store/views.py:236-241 | The order becomes paid at `now`; every other field is unchanged, and a second call only overwrites the timestamp. |
| Orders.Delivered | store/views.py:255-260 | The order becomes delivered at `now`; every other field is unchanged. |
| Store.Store.MarkPaid | store/views.py:236-241 | A missing order is an error that changes nothing; otherwise only that order row changes, to `Paid`; the database stays consistent. |
| Store.Store.MarkDelivered | store/views.py:255-260 | A missing order is an error that changes nothing; otherwise only that order row changes, to `Delivered`; the database stays consistent. |
| Database.OrderRewritten | store/views.py:236-260 | Rewriting an existing order row keeps the database consistent. |
| Store.Store.AddReview | store/views.py:413-454 | A missing product is an error. The check for an earlier review by the same user comes before the zero-rating check. Each refusal changes nothing. Otherwise the review is stored under the user's first name, and the state is `Reviewed`: its product's count and mean are recomputed from all of its reviews. The database stays consistent. |
| Store.Store.SumRatings | store/views.py:449-451 | The running total over the reviews is the sum of their ratings (loop invariant). |
| Database.ReviewAppended | store/views.py:438-447 | After a review is accepted, the product's reviews are the old ones plus the new one at the end, and its count grows by exactly one. Its count and rating agree with its reviews. No other product's reviews change. |
| Database.ReviewStored | store/views.py:419-454 | Storing a first review by this user, with the aggregates recomputed, keeps the database consistent, including at most one review per user and product. |
| Database.RatingUpdate | store/views.py:446-453 | Recomputing the mean from scratch equals updating the previous mean incrementally by the new rating. |
| Ratings.MeanAppend | store/views.py:449-453 | The mean of the ratings plus one more equals the running-mean update of the old mean. |
| Ratings.MeanBounds | store/views.py:449-453 | The mean lies between the lowest and the highest rating bound. |
| Store.Edited | store/views.py:338-344 | The seven request fields are written over the product; its type, category, owner, review aggregates and flags are kept. |
| Store.Store.UpdateProduct | store/views.py:333-346 | A missing product is an error. A slug another product has is an integrity error and writes nothing. Otherwise only that product row changes, to `Edited`, and the database stays consistent. |
| Database.ProductEdited | store/views.py:336-346 | Replacing a product by one with the same type, category and aggregates and a slug no other product has keeps the database consistent. |
| Store.EditShowsInOrders | store/models.py:403-431 | An order item's name, price, slug, brand and subtotal are its product's current values: editing the product changes them in orders placed earlier, and leaves the items of other products as they were. |
| Models.Subtotal | store/models.py:403-406 | An item's subtotal is zero for quantity 0 and its product's current discount price for quantity 1; `RepricingMovesTotal` gives how it follows the price. |
| Models.TotalItems | store/models.py:368-372 | `total_items` of no items is 0. Without negative quantities it is non-negative and at least each item's quantity. |
| Models.TotalPrice | store/models.py:358-366 | `total_price` of an order without items is its shipping charge plus tax. |
| Models.TotalPriceCoversCharges | store/models.py:358-366 | Without negative quantities or prices, `total_price` is at least the shipping charge plus tax (induction over the items). |
| Models.Details | store/models.py:408-431 | An item's name, price, slug and brand are its product's current title, discount price, slug and brand. |
| Models.RepricingMovesTotal | store/models.py:403-416 | Changing a product's discount price moves an order's `total_price` by the price difference times the quantity the order holds of it. |
| Models.FirstImage | store/models.py:418-421 | An item's image is the product's image row with the smallest id, i.e. the first created; there is none exactly when the product has no image row. |
| Store.Store.DeleteProduct | store/views.py:277-280 | A missing product is an error that changes nothing. Otherwise the product and every row that points at it go (`WithoutProducts`); the database stays consistent. |
| Database.ProductsRemoved | store/views.py:279-280 | Deleting products removes exactly the images, specification values, reviews and order items that point at them, all of which are CASCADE. The remaining products keep their reviews, and the result is consistent. |
| Store.Store.DeleteCategory | store/models.py:23-25 | Deleting a category removes the category, its whole subtree and the products filed under any of them; the database stays consistent. |
| Database.CategoryRemoved | store/models.py:23-25 | After the delete, a category remains iff it is not below the deleted one, and a product remains iff its category is not below it; the result is consistent. |
| Store.Store.DeleteProductType | store/models.py:79-101 | A product type still referenced by a product or a specification cannot be deleted (RESTRICT). Otherwise only that row goes, and the database stays consistent. |
| Database.ProductTypeRemoved | store/models.py:79-101 | Removing a product type nothing refers to keeps the database consistent. |
| Store.Store.DeleteSpecification | store/models.py:196 | A specification still referenced by a specification value cannot be deleted (RESTRICT). Otherwise only that row goes. |
| Database.SpecificationRemoved | store/models.py:196 | Removing a specification no value refers to keeps the database consistent. |
| Store.Store.AddCategory | store/models.py:13-30 | A new category needs an existing parent (or none) and an unused name and slug; it is active, one level below its parent. Anything else is an integrity error that writes nothing. |
| Database.CategoryAdded | store/models.py:13-25 | Such an insert keeps names and slugs unique and the tree well formed. |
| Store.Store.AddProductType | store/models.py:52-63 | A new product type needs an unused name and is active by default; otherwise an integrity error that writes nothing. |
| Database.ProductTypeAdded | store/models.py:52-58 | Inserting a product type with an unused name keeps the database consistent. |
| Store.Store.AddSpecification | store/models.py:79-86 | A new specification needs an existing product type and an unused name; otherwise an integrity error that writes nothing. |
| Database.SpecificationAdded | store/models.py:79-86 | Such an insert keeps the database consistent. |
| Store.Store.AddProduct | store/models.py:101-167 | A new product needs an existing type and category and an unused slug, and gets the model's defaults; otherwise an integrity error that writes nothing. |
| Models.NewProduct | store/models.py:101-167 | A new product has no stock, no reviews and no rating, and is in stock and active. Its type, category, creator, title, brand, description, slug, regular price and discount price are the given values. |
| Database.ProductAdded | store/models.py:101-123 | Inserting such a product keeps slugs unique, foreign keys valid and the review aggregates right. |
| Store.Store.AddSpecValue | store/models.py:195-201 | A specification value needs an existing product and specification; otherwise an integrity error that writes nothing. |
| Database.SpecValueAdded | store/models.py:195-196 | Such an insert keeps the database consistent. |
| Store.Store.UploadImage | store/views.py:365-377 | An image of an existing product is stored with the product's title as its alternative text. A missing product is an error that changes nothing. |
| Database.ImageAdded | store/models.py:216-218 | Inserting an image of an existing product keeps the database consistent. |
| Catalog.CategoryBySlug | store/views.py:107 | Returns the category with this slug. It returns none exactly when no category has the slug. |
| Catalog.ProductsInCategory | store/views.py:105-110 | An unknown slug is `DoesNotExist`. Otherwise the result holds exactly the products whose category is the slug's category or lies anywhere below it, newest first. |
| Catalog.DescendantsLeast | store/views.py:107-109 | `get_descendants(include_self=True)` is the least set that contains the category and every child of its members. |
| Catalog.UnderTopDown | store/views.py:107-109 | A category is in the subtree iff it is the root of the subtree or is in the subtree of one of the root's children. |
| Catalog.UnderLevel | store/models.py:23-25 | A descendant is deeper than each of its proper ancestors, so the parent links have no cycle. |
| Catalog.TreeOrderIsStrict | store/models.py:32-33 | The tree order (parent's name, then name, as `order_insertion_by` keeps siblings) is a strict order. |
| Catalog.CategoryList | store/views.py:116 | Holds exactly the level-1 categories, each once, in tree order; siblings are in name order. |
| Catalog.Ranked | store/views.py:71-72 | Holds exactly the active products rated at least 3, each once, with ratings non-increasing. |
| Catalog.TopProducts | store/views.py:71-73 | At most five products, each active and rated at least 3, each once, with ratings non-increasing. |
| Catalog.TopProductsAreTop | store/views.py:71-73 | A qualifying product left out means the list is full and every listed product is rated at least as high. |
| Tables.Table.IdsNewestFirst | store/models.py:177-180 | The ids of the matching rows, each once, strictly decreasing, which is newest first. |
| Tables.SelectInsert | store/models.py:284-287 | A new row comes last in every creation-ordered selection it matches, and the other selections do not change. |
| Tables.SelectInsertAll | store/models.py:433-436 | Rows inserted in sequence that all match a selection are appended to it in that sequence. |
| Text.DecimalRoundTrip | store/views.py:140 | The decimal string stored as the default transaction id reads back as the caller's id. |
| Text.TrimSlice | accounts/serializers.py:87-89 | Trimming a field removes only whitespace: the result is the slice of the input between a blank prefix and a blank suffix. |
| Accounts.CleanChars | accounts/serializers.py:87-89 | A present text field that is blank is refused as blank. Otherwise it succeeds with the trimmed value iff that value's length is within the limits. Too long and too short are each reported iff they hold. An absent field passes as absent. |
| Accounts.DisplayName | accounts/serializers.py:65-71 | The display name is the first name, or the username when the first name is empty. |
| Accounts.IsAdmin | accounts/serializers.py:73-76 | The user serializer's admin flag is the staff flag. |
| Accounts.LoginName | accounts/serializers.py:163-169 | The login serializer's name is the validated first name, or the username when the first name is empty. |
| Accounts.LoginIsAdmin | accounts/serializers.py:171-174 | The login serializer's admin flag is the validated staff flag. |
| Accounts.NamesAgree | accounts/serializers.py:163-174 | The login serializer's name and admin flag equal the user serializer's for the same user, and the admin flag is `is_staff`. |
| Accounts.Login | accounts/serializers.py:93-148 | Success iff both fields pass their checks and are present, and `authenticate` of the trimmed values finds an active user; the result is that user's id, email, username, first name and staff flag. Otherwise, in order: field errors, missing username, missing password, no such user, deactivated, each iff its condition holds. |
| Accounts.UsernameCheckedFirst | accounts/serializers.py:109-119 | A login without a username gives the same answer whatever `authenticate` would say. |
| Accounts.EmailField | accounts/serializers.py:14-22 | The email is accepted iff it is present, non-blank, an address, and no user has it. When refused: required iff absent, blank iff blank, invalid iff not an address, taken iff a user has it; no other error. |
| Accounts.UsernameField | accounts/serializers.py:25-33 | The username is accepted iff it is present, non-blank and no user has it. When refused: required iff absent, blank iff blank, taken iff a user has it; no other error. |
| Accounts.PasswordField | accounts/serializers.py:37-39 | The password is accepted iff it is present, non-blank and 8 to 128 characters once trimmed. When refused: required, blank, too short and too long each iff it holds; no other error. |
| Accounts.Validate | accounts/serializers.py:10-39 | The request is valid iff all three fields pass, and then yields the trimmed address and username. Otherwise every field's errors are reported together, each field exactly with its own errors. |
| Accounts.CreateUser | accounts/serializers.py:45-47 | `create_user` stores the normalised username and the normalised address, active, non-staff, with an empty first name. It fails with an integrity error iff some user already has the normalised username. |
| Accounts.NormalizeEmailIdempotent | accounts/serializers.py:47 | Normalising a stored address again changes nothing. |
| Accounts.Register | accounts/serializers.py:10-47 | The serializer's errors are returned iff validation fails. Otherwise registration fails with an integrity error iff the normalised username is taken, and else succeeds with the normalised username and address. |
| Accounts.RegistrationKeepsUsernamesUnique | accounts/serializers.py:25-33 | Usernames stay unique: a registration that would store a taken username fails, in the serializer or in the database. |
| Accounts.DuplicateEmailRegistered | accounts/serializers.py:14-22 | With "a@x.com" stored, registering "a@X.com" succeeds and stores "a@x.com" a second time. |
| Accounts.RegisterChecked | accounts/serializers.py:14-47 | With the uniqueness checks run on the normalised values, registration succeeds iff validation passes and never ends in an integrity error. |
| Accounts.CheckedRegistrationKeepsUnique | accounts/serializers.py:13-33 | With the corrected checks, registration keeps both e-mail addresses and usernames unique. |

## Findings

| source | as written | input that shows it | evidently intended | confidence | as-written member | corrected member |
|---|---|---|---|---|---|---|
| accounts/serializers.py:14-47 | The e-mail uniqueness check compares the address as sent. `create_user` then stores it with a lower-cased domain. `auth_user.email` has no unique constraint. | A user with "a@x.com" exists, and a registration sends "a@X.com", username "v" and password "secret123". | No two users share an address, as the comment at line 13 states. The check should compare the address as it will be stored. | high; proved, not executed | Accounts.DuplicateEmailRegistered | Accounts.CheckedRegistrationKeepsUnique |

## Left out

- **Admin, staff and login checks.** The JWT authentication, the permission
  classes and the admin-only routes are outside the model. Callers are
  assumed to pass them. The staff flag reaches `GetOrder` as a parameter.
- **Paying another user's order.** Marking an order paid has no owner
  check: any signed-in user may pay any order. The model reproduces this by
  taking no caller at all.
- **Responses, request parsing and HTTP status codes.** JSON response
  bodies and HTTP status codes are not modelled.
- **The checkout response.** The checkout serializes its response without
  the request, and an item's image URL needs the request. So a non-empty
  order fails with a server error after all its rows are written. The
  model ends at the writes.
- **The uncaught lookups.** `DoesNotExist` from a missing product, order or
  slug escapes the handler in the source (HTTP 500). It is the `Failure`
  result here.
- **Null and malformed request values.** Nullable columns, JSON `null`,
  non-numeric ids or quantities, and missing request keys are not
  modelled. Cart quantities are any integer.
- **Missing keys in a checkout.** A missing request key raises `KeyError`,
  and what was written before it stays. The `shippingAddress` keys are read
  after the order is created, so a missing one leaves an order with no
  address. A line without `product` or `qty` fails after the earlier
  lines' items and stock decrements are written. The model's checkout
  request always carries every key.
- **An image upload without a file.** `request.FILES.get("image")` gives
  no file rather than raising, and the image row is stored without one.
  Reading that image's URL then raises inside the order lookup's
  catch-all, which answers "Order does not exist!". `Orders.GetOrder` only
  sees whether a product has an image row, so it returns such an order.
- **Integer width.** `count_in_stock`, `num_reviews` and `quantity` are
  32-bit `IntegerField` columns. Values outside their range are refused by
  the database. The model's integers are unbounded.
- **Timestamps other than paid and delivered.** `created_at` and
  `updated_at` are not fields. Creation order is the ascending id of
  `Tables`. `now` is a parameter.
- **Ties in the best-rated list.** `Catalog.Ranked` orders products of equal
  rating in an unspecified order, because the source's query does not fix
  one either. Its contract states only the non-increasing order.
- **The tree library's own fields.** `lft`, `rght` and `tree_id` of the
  category tree are left out. The tree is modelled as parent links plus
  the stored `level`; a new category's level is one more than its parent's.
- **Moving a category.** Moving a category to another parent through the
  admin is not modelled.
- **Pagination and the product list.** The paginated product list, the
  product-detail lookup, the order history and the all-orders listings
  are not modelled. They are plain reads.
- **Creating a product through the view.** `CreateProductView` takes its
  slug from the clock and creates a default image. Products enter the
  model through `Store.Store.AddProduct` instead.
- **Image defaults.** The image default `images/default.png` and image URLs
  are not modelled.
- **Concurrency.** The read-modify-write on the stock count and on the
  rating recomputation can race. Each handler is one atomic step here.
- **The checkout loop's writes.** `Store.Store.TakeStock` computes the item
  rows and stock counts on values, through `CheckoutLines`, and writes
  both tables once. The source writes each row as it goes. Without
  concurrency the end state is the same, and the failing line's partial
  writes are kept either way.
- **Cascading deletes.** `Store.Store.Commit` writes back every table at
  the end of a cascading delete, where the database deletes row by row.
- **Decimal precision.** Prices and ratings are exact `real` values. The
  database rounds them to 2 decimal places, and overflow of
  `max_digits=7` is not modelled.
- **Recording the login time.** `update_last_login` changes only the login
  timestamp, which is not modelled.
- **User creation and passwords.** Password hashing is left out. The
  username's NFKC normalisation in `create_user` is the parameter
  `normalizeUsername`. Django's own username validator and 150-character
  limit are not checked by the serializer, which declares its own
  `username` field. What the database then does with a longer username
  depends on the database and is not modelled.
- Accounts.NormalizeEmail: lowers only the ASCII letters of the domain.
  Python's `str.lower` also lowers other letters.
- **Other users with the same address.** Existing users that share an
  address, for instance ones created before the fix, are not considered
  by `Accounts.RegisterChecked`.
- **Field validators.** The null-character and surrogate validators of the
  text fields are left out.
- **E-mail syntax.** The address syntax check is the parameter `isEmail`.
- **Inactive users at login.** Django's default authentication backend
  already returns no user for an inactive account. The deactivated branch
  is therefore reachable only with another backend. The model keeps
  `authenticate` abstract and keeps the branch.
- **Deleting a user.** `DeleteUserView` (accounts/views.py:190-204)
  deletes a user, and the deletion cascades to that user's reviews,
  products, orders and shipping addresses. The cascade removes reviews
  without recomputing their products' `num_reviews` and `rating`. So the
  review-aggregate part of `Consistent` holds across the modelled handlers
  only, not across the whole program. User deletion is not modelled.
- **Admin-site edits.** Edits through the admin site bypass the review
  aggregates too. They are outside the model.
- **The order-items guard.** The "No Order Items" branch is dead code (see
  above). The model reproduces its effect, which is no effect at all.
