/** The store's database as one value: a table per Django model of
    store/models.py, the integrity the schema enforces, the cascades its
    `on_delete` rules perform, and the state each write handler of
    store/views.py leads to. `Store.Store` performs these writes step by
    step; here they are stated whole and their consequences proved. */
module Database {
  import opened Wrappers
  import opened Tables
  import opened Models
  import opened Orders
  import Catalog
  import Ratings

  datatype Db = Db(
    categories: Table<Category>,
    productTypes: Table<ProductType>,
    specifications: Table<ProductSpecification>,
    products: Table<Product>,
    specValues: Table<ProductSpecificationValue>,
    images: Table<ProductImage>,
    reviews: Table<Review>,
    orders: Table<Order>,
    orderItems: Table<OrderItem>,
    addresses: Table<ShippingAddress>)
  {
    /** Unique columns are unique, foreign keys point at rows, the category
        tree is a tree, and every product's review count and rating agree
        with its reviews. */
    ghost predicate Consistent() {
      Coherent(categories, productTypes, specifications, products, specValues, images, reviews,
               orders, orderItems, addresses)
    }

    /** Deleting the products `gone`: their images, specification values,
        reviews and order items go with them (all are on_delete=CASCADE). */
    function WithoutProducts(gone: set<ProductId>): Db
      requires Consistent()
    {
      this.(products := products.Without(gone),
            specValues := specValues.Where((v: ProductSpecificationValue) => v.product !in gone),
            images := images.Where((im: ProductImage) => im.product !in gone),
            reviews := reviews.Where((rv: Review) => rv.product !in gone),
            orderItems := orderItems.Where((it: OrderItem) => it.product !in gone))
    }

    /** The products whose category lies in `cats`. */
    function ProductsIn(cats: set<CategoryId>): set<ProductId> {
      set p | p in products.rows && products.rows[p].category in cats
    }

    /** Deleting category `c`: its children go with it (the parent link is
        on_delete=CASCADE), and so do the products of every category removed. */
    function WithoutCategory(c: CategoryId): Db
      requires Consistent()
    {
      var sub := Catalog.Descendants(categories.rows, c);
      WithoutProducts(ProductsIn(sub)).(categories := categories.Without(sub))
    }
  }


  /** A database with no rows; every table's first id is 1. */
  function Empty(): (db: Db)
    ensures db.Consistent()
    ensures db.products.rows == map[] && db.categories.rows == map[] && db.orders.rows == map[]
  {
    Db(Table(map[], 1), Table(map[], 1), Table(map[], 1), Table(map[], 1), Table(map[], 1),
       Table(map[], 1), Table(map[], 1), Table(map[], 1), Table(map[], 1), Table(map[], 1))
  }

  // ---------------------------------------------------------------------
  // The state each write leads to

  /** After `AddOrderItemsView.post`: the new order and its shipping
      address, then an item per cart line with the product's stock taken,
      up to the first line whose product does not exist. */
  ghost function Placed(db: Db, user: UserId, cart: Cart): Db
    requires db.orders.Valid() && db.addresses.Valid() && db.orderItems.Valid()
  {
    var order := db.orders.next;
    var k := FirstMissing(db.products.rows, cart.lines);
    db.(orders := db.orders.Insert(NewOrder(user, cart)),
        addresses := db.addresses.Insert(NewAddress(order, user, cart)),
        orderItems := db.orderItems.InsertAll(LineItems(order, cart.lines[..k])),
        products := db.products.(rows := Deduct(db.products.rows, cart.lines[..k])))
  }

  /** The order and its shipping address written, before any cart line. */
  ghost function Opened(db: Db, user: UserId, cart: Cart): Db
    requires db.orders.Valid() && db.addresses.Valid()
  {
    db.(orders := db.orders.Insert(NewOrder(user, cart)),
        addresses := db.addresses.Insert(NewAddress(db.orders.next, user, cart)))
  }

  /** The item rows of order `order` for `lines`, with their stock taken. */
  ghost function Checkout(db: Db, order: OrderId, lines: seq<CartLine>): Db
    requires db.orderItems.Valid()
    requires forall i | 0 <= i < |lines| :: lines[i].product in db.products.rows
  {
    db.(orderItems := db.orderItems.InsertAll(LineItems(order, lines)),
        products := db.products.(rows := Deduct(db.products.rows, lines)))
  }

  /** After `CreateProductReviewView.post` accepted `rv`: the review is
      stored, and its product's count and rating are recomputed from all of
      the product's reviews. */
  ghost function Reviewed(db: Db, rv: Review): Db
    requires db.Consistent() && rv.product in db.products.rows
  {
    var reviews := db.reviews.Insert(rv);
    SelectInsert(db.reviews, rv, (x: Review) => x.product == rv.product);
    var all := ReviewsOf(reviews, rv.product);
    var p := db.products.rows[rv.product];
    db.(reviews := reviews,
        products := db.products.(rows := db.products.rows[rv.product :=
          p.(numReviews := |all|, rating := Some(Ratings.Mean(RatingsOf(all))))]))
  }

  // ---------------------------------------------------------------------
  // What the writes establish

  /** A placed order is new, owned by its buyer and unpaid, and has exactly
      one shipping address, which carries the order's shipping charge. */
  lemma PlacedOrder(db: Db, user: UserId, cart: Cart)
    requires db.orders.Valid() && db.addresses.Valid() && db.orderItems.Valid()
    requires AddressesOk(db.addresses.rows, db.orders.rows)
    ensures var after := Placed(db, user, cart);
            var order := db.orders.next;
            && order in after.orders.rows && order !in db.orders.rows
            && after.orders.rows[order].createdBy == user && !after.orders.rows[order].isPaid
            && db.addresses.next in after.addresses.rows
            && after.addresses.rows[db.addresses.next].order == order
            && after.addresses.rows[db.addresses.next].shippingCharge == after.orders.rows[order].shippingCharge
            && forall a | a in after.addresses.rows && after.addresses.rows[a].order == order ::
                 a == db.addresses.next
  {
  }

  /** The placed order holds exactly the items of the cart lines up to the
      first unknown product, in cart order. */
  lemma PlacedItemsExactly(db: Db, user: UserId, cart: Cart)
    requires db.orders.Valid() && db.addresses.Valid() && db.orderItems.Valid()
    requires OrderItemsOk(db.orderItems.rows, db.products.rows, db.orders.rows)
    ensures var k := FirstMissing(db.products.rows, cart.lines);
            ItemsOf(Placed(db, user, cart).orderItems, db.orders.next)
              == LineItems(db.orders.next, cart.lines[..k])
  {
    var k := FirstMissing(db.products.rows, cart.lines);
    PlacedItems(db.orderItems, db.orders.next, LineItems(db.orders.next, cart.lines[..k]));
  }

  /** Every product's stock dropped by the quantity the placed order holds of
      it, and by nothing else; no product appears or disappears. */
  lemma PlacedStock(db: Db, user: UserId, cart: Cart)
    requires db.orders.Valid() && db.addresses.Valid() && db.orderItems.Valid()
    requires OrderItemsOk(db.orderItems.rows, db.products.rows, db.orders.rows)
    ensures var after := Placed(db, user, cart);
            && after.products.rows.Keys == db.products.rows.Keys
            && forall p | p in db.products.rows ::
                 after.products.rows[p] == db.products.rows[p].(countInStock :=
                   db.products.rows[p].countInStock - QuantityOf(ItemsOf(after.orderItems, db.orders.next), p))
  {
    var after := Placed(db, user, cart);
    var order := db.orders.next;
    var k := FirstMissing(db.products.rows, cart.lines);
    PlacedItemsExactly(db, user, cart);
    forall p | p in db.products.rows
      ensures after.products.rows[p] == db.products.rows[p].(countInStock :=
                db.products.rows[p].countInStock - QuantityOf(ItemsOf(after.orderItems, order), p))
    {
      DeductClosedForm(db.products.rows, cart.lines[..k], order, p);
    }
  }

  /** An accepted review is appended to its product's reviews, and the
      product's count and rating then agree with them; every other product's
      reviews stay as they were. */
  lemma ReviewAppended(db: Db, rv: Review)
    requires db.Consistent() && rv.product in db.products.rows
    ensures var after := Reviewed(db, rv);
            && ReviewsOf(after.reviews, rv.product) == ReviewsOf(db.reviews, rv.product) + [rv]
            && AggregatesMatch(after.products.rows[rv.product], ReviewsOf(after.reviews, rv.product))
            && after.products.rows[rv.product].numReviews == db.products.rows[rv.product].numReviews + 1
            && forall p | p != rv.product :: ReviewsOf(after.reviews, p) == ReviewsOf(db.reviews, p)
  {
    SelectInsert(db.reviews, rv, (x: Review) => x.product == rv.product);
    forall p | p != rv.product ensures ReviewsOf(Reviewed(db, rv).reviews, p) == ReviewsOf(db.reviews, p) {
      SelectInsert(db.reviews, rv, (x: Review) => x.product == p);
    }
  }

  /** Recomputing the rating from scratch agrees with updating the previous
      mean by the new rating. */
  lemma RatingUpdate(db: Db, rv: Review)
    requires db.Consistent() && rv.product in db.products.rows
    requires db.products.rows[rv.product].numReviews > 0
    ensures var before := db.products.rows[rv.product];
            var after := Reviewed(db, rv).products.rows[rv.product];
            before.rating.Some? && after.rating.Some?
            && after.rating.value == Ratings.RunningMean(before.rating.value, before.numReviews, rv.rating)
  {
    var rs := ReviewsOf(db.reviews, rv.product);
    ReviewAppended(db, rv);
    AggregatesOf(db, rv.product);
    RatingAfterAppend(db.products.rows[rv.product], rs, rv, Reviewed(db, rv).products.rows[rv.product]);
  }

  /** Deleting products removes exactly the rows that point at them and
      leaves the remaining products' reviews as they were. */
  lemma ProductsRemoved(db: Db, gone: set<ProductId>)
    requires db.Consistent()
    ensures var after := db.WithoutProducts(gone);
            && after.Consistent()
            && after.products.rows.Keys == db.products.rows.Keys - gone
            && (forall id | id in db.images.rows ::
                  id in after.images.rows <==> db.images.rows[id].product !in gone)
            && (forall id | id in db.specValues.rows ::
                  id in after.specValues.rows <==> db.specValues.rows[id].product !in gone)
            && (forall id | id in db.reviews.rows ::
                  id in after.reviews.rows <==> db.reviews.rows[id].product !in gone)
            && (forall id | id in db.orderItems.rows ::
                  id in after.orderItems.rows <==> db.orderItems.rows[id].product !in gone)
            && (forall p | p in after.products.rows :: ReviewsOf(after.reviews, p) == ReviewsOf(db.reviews, p))
  {
    var after := db.WithoutProducts(gone);
    var rows := after.products.rows;
    assert rows == db.products.rows - gone;
    ProductsOfDb(db);
    ProductsShrunk(db.products.rows, db.productTypes.rows, db.categories.rows, gone);
    DependentsRemoved(db, gone);
    ReviewsRemoved(db.reviews, db.products.rows, gone);
  }

  lemma ProductsShrunk(
    products: map<ProductId, Product>, types: map<ProductTypeId, ProductType>,
    cats: map<CategoryId, Category>, gone: set<ProductId>)
    requires ProductsOk(products, types, cats)
    ensures ProductsOk(products - gone, types, cats)
  {
  }

  /** Values, images and order items of the deleted products go, and the
      rest still point at products that remain. */
  lemma DependentsRemoved(db: Db, gone: set<ProductId>)
    requires db.Consistent()
    ensures var rest := db.products.rows - gone;
            && SpecValuesOk(db.specValues.Where((v: ProductSpecificationValue) => v.product !in gone).rows,
                            rest, db.specifications.rows)
            && ImagesOk(db.images.Where((im: ProductImage) => im.product !in gone).rows, rest)
            && OrderItemsOk(db.orderItems.Where((it: OrderItem) => it.product !in gone).rows, rest, db.orders.rows)
  {
  }

  /** Reviews of the deleted products go; every remaining product keeps its
      reviews, so its aggregates still match. */
  lemma ReviewsRemoved(reviews: Table<Review>, products: map<ProductId, Product>, gone: set<ProductId>)
    requires reviews.Valid() && ReviewsOk(reviews, products)
    ensures var after := reviews.Where((rv: Review) => rv.product !in gone);
            && ReviewsOk(after, products - gone)
            && forall p | p in products - gone :: ReviewsOf(after, p) == ReviewsOf(reviews, p)
  {
    var after := reviews.Where((rv: Review) => rv.product !in gone);
    forall p | p in products - gone ensures ReviewsOf(after, p) == ReviewsOf(reviews, p) {
      SelectWhere(reviews, (rv: Review) => rv.product !in gone, (x: Review) => x.product == p);
    }
    var rest := products - gone;
    forall p | p in rest ensures AggregatesMatch(rest[p], ReviewsOf(after, p)) {
      assert AggregatesMatch(products[p], ReviewsOf(reviews, p));
    }
  }

  /** Deleting a category removes exactly the categories below it and the
      products filed under them, and leaves a consistent database. */
  lemma CategoryRemoved(db: Db, c: CategoryId)
    requires db.Consistent() && c in db.categories.rows
    ensures var after := db.WithoutCategory(c);
            && after.Consistent()
            && (forall d | d in db.categories.rows ::
                  d in after.categories.rows <==> !Catalog.Under(db.categories.rows, d, c))
            && (forall p | p in db.products.rows ::
                  p in after.products.rows <==> !Catalog.Under(db.categories.rows, db.products.rows[p].category, c))
  {
    var cats := db.categories.rows;
    var sub := Catalog.Descendants(cats, c);
    var gone := db.ProductsIn(sub);
    var mid := db.WithoutProducts(gone);
    ProductsRemoved(db, gone);
    CategoriesOfDb(db);
    SubtreeRemoved(cats, c);
    ProductsOfDb(db);
    ProductsOutsideSubtree(db.products.rows, db.productTypes.rows, cats, sub, gone);
    CategoriesReplaced(mid, db.categories.Without(sub));
  }

  // ---------------------------------------------------------------------
  // Each write keeps the database consistent

  lemma CategoryAdded(db: Db, c: Category)
    requires db.Consistent()
    requires match c.parent
             case None => c.level == 0
             case Some(p) => p in db.categories.rows && c.level == db.categories.rows[p].level + 1
    requires CategoryNamesFree(db.categories.rows, c.name, c.slug)
    ensures db.(categories := db.categories.Insert(c)).Consistent()
  {
  }

  lemma ProductTypeAdded(db: Db, t: ProductType)
    requires db.Consistent()
    requires TypeNameFree(db.productTypes.rows, t.name)
    ensures db.(productTypes := db.productTypes.Insert(t)).Consistent()
  {
  }

  lemma SpecificationAdded(db: Db, s: ProductSpecification)
    requires db.Consistent() && s.productType in db.productTypes.rows
    requires SpecNameFree(db.specifications.rows, s.name)
    ensures db.(specifications := db.specifications.Insert(s)).Consistent()
  {
  }

  lemma ProductAdded(db: Db, p: Product)
    requires db.Consistent()
    requires p.numReviews == 0 && p.rating == None
    requires p.productType in db.productTypes.rows && p.category in db.categories.rows
    requires SlugUnused(db.products.rows, p.slug)
    ensures db.(products := db.products.Insert(p)).Consistent()
  {
    var grown := db.products.Insert(p).rows;
    ProductInserted(db.products, p, db.productTypes.rows, db.categories.rows);
    ReferencesKept(db, grown);
    AggregatesOfNewProduct(db.reviews, db.products, p);
  }

  lemma SpecValueAdded(db: Db, v: ProductSpecificationValue)
    requires db.Consistent()
    requires v.product in db.products.rows && v.specification in db.specifications.rows
    ensures db.(specValues := db.specValues.Insert(v)).Consistent()
  {
  }

  lemma ImageAdded(db: Db, im: ProductImage)
    requires db.Consistent() && im.product in db.products.rows
    ensures db.(images := db.images.Insert(im)).Consistent()
  {
  }

  /** A checkout is the order opened, then the lines up to the first
      missing product checked out; from a consistent database it leads to a
      consistent one. */
  lemma PlacedInSteps(db: Db, user: UserId, cart: Cart)
    requires db.Consistent()
    ensures var k := FirstMissing(db.products.rows, cart.lines);
            && Opened(db, user, cart).Consistent()
            && Placed(db, user, cart) == Checkout(Opened(db, user, cart), db.orders.next, cart.lines[..k])
            && Placed(db, user, cart).Consistent()
  {
    var k := FirstMissing(db.products.rows, cart.lines);
    OrderOpened(db, NewOrder(user, cart), NewAddress(db.orders.next, user, cart));
    CheckoutConsistent(Opened(db, user, cart), db.orders.next, cart.lines[..k]);
  }

  /** One more line checked out: its item row, and its product's stock
      taken. */
  lemma CheckoutStep(db: Db, order: OrderId, lines: seq<CartLine>, line: CartLine)
    requires db.orderItems.Valid()
    requires forall i | 0 <= i < |lines| :: lines[i].product in db.products.rows
    requires line.product in db.products.rows
    ensures var before := Checkout(db, order, lines);
            var p := before.products.rows[line.product];
            Checkout(db, order, lines + [line])
              == before.(orderItems := before.orderItems.Insert(OrderItem(line.product, order, line.quantity)),
                         products := before.products.(rows := before.products.rows[line.product :=
                           p.(countInStock := p.countInStock - line.quantity)]))
  {
    var it := OrderItem(line.product, order, line.quantity);
    assert (lines + [line])[..|lines|] == lines;
    assert LineItems(order, lines + [line]) == LineItems(order, lines) + [it];
    InsertAllSnoc(db.orderItems, LineItems(order, lines), it);
  }

  lemma {:induction false} CheckoutConsistent(db: Db, order: OrderId, lines: seq<CartLine>)
    requires db.Consistent() && order in db.orders.rows
    requires forall i | 0 <= i < |lines| :: lines[i].product in db.products.rows
    ensures Checkout(db, order, lines).Consistent()
  {
    if lines != [] {
      var init := lines[..|lines| - 1];
      var line := lines[|lines| - 1];
      var mid := Checkout(db, order, init);
      CheckoutConsistent(db, order, init);
      CheckoutStep(db, order, init, line);
      assert init + [line] == lines;
      assert mid.orders == db.orders && mid.products.rows.Keys == db.products.rows.Keys;
      StockTaken(mid, OrderItem(line.product, order, line.quantity));
    }
  }

  lemma OrderOpened(db: Db, o: Order, a: ShippingAddress)
    requires db.Consistent() && a.order == db.orders.next
    ensures db.(orders := db.orders.Insert(o), addresses := db.addresses.Insert(a)).Consistent()
  {
  }

  /** One step of the checkout loop: an item row, and the stock taken from
      its product. */
  lemma StockTaken(db: Db, it: OrderItem)
    requires db.Consistent()
    requires it.order in db.orders.rows && it.product in db.products.rows
    ensures var p := db.products.rows[it.product];
            db.(orderItems := db.orderItems.Insert(it),
                products := db.products.(rows := db.products.rows[it.product :=
                  p.(countInStock := p.countInStock - it.quantity)])).Consistent()
  {
  }

  lemma ReviewStored(db: Db, rv: Review)
    requires db.Consistent() && rv.product in db.products.rows
    requires !HasReviewed(db.reviews.rows, rv.product, rv.createdBy)
    ensures Reviewed(db, rv).Consistent()
  {
    var after := Reviewed(db, rv);
    ReviewAppended(db, rv);
    ReviewRowsOk(db.reviews, db.products.rows, rv);
    AggregatesAfterReview(db.reviews, db.products.rows, rv, after.reviews, after.products.rows);
    ReferencesKept(db, after.products.rows);
    ProductsOkReplaced(db.products.rows, db.productTypes.rows, db.categories.rows, rv.product,
                       after.products.rows[rv.product]);
  }

  lemma OrderRewritten(db: Db, pk: OrderId, o: Order)
    requires db.Consistent() && pk in db.orders.rows
    ensures db.(orders := db.orders.(rows := db.orders.rows[pk := o])).Consistent()
  {
  }

  lemma ProductEdited(db: Db, pk: ProductId, p: Product)
    requires db.Consistent() && pk in db.products.rows
    requires p.productType == db.products.rows[pk].productType && p.category == db.products.rows[pk].category
    requires p.numReviews == db.products.rows[pk].numReviews && p.rating == db.products.rows[pk].rating
    requires SlugUnused(db.products.rows - {pk}, p.slug)
    ensures db.(products := db.products.(rows := db.products.rows[pk := p])).Consistent()
  {
    ProductReplaced(db, pk, p);
  }

  lemma ProductTypeRemoved(db: Db, t: ProductTypeId)
    requires db.Consistent()
    requires !TypeInUse(db.products.rows, db.specifications.rows, t)
    ensures db.(productTypes := db.productTypes.Without({t})).Consistent()
  {
  }

  lemma SpecificationRemoved(db: Db, s: SpecificationId)
    requires db.Consistent()
    requires !SpecInUse(db.specValues.rows, s)
    ensures db.(specifications := db.specifications.Without({s})).Consistent()
  {
  }

  // ---------------------------------------------------------------------
  // Steps of the proofs above, one table at a time

  /** A product row replaced by one with the same type, category and review
      aggregates and a slug no other product has. */
  lemma ProductReplaced(db: Db, pk: ProductId, p: Product)
    requires db.Consistent() && pk in db.products.rows
    requires p.productType == db.products.rows[pk].productType && p.category == db.products.rows[pk].category
    requires p.numReviews == db.products.rows[pk].numReviews && p.rating == db.products.rows[pk].rating
    requires SlugUnused(db.products.rows - {pk}, p.slug)
    ensures db.(products := db.products.(rows := db.products.rows[pk := p])).Consistent()
  {
    var rows := db.products.rows[pk := p];
    ProductsOkReplaced(db.products.rows, db.productTypes.rows, db.categories.rows, pk, p);
    ReferencesKept(db, rows);
    AggregatesReplaced(db.reviews, db.products.rows, pk, p);
  }

  lemma ProductsOkReplaced(
    products: map<ProductId, Product>, types: map<ProductTypeId, ProductType>,
    cats: map<CategoryId, Category>, pk: ProductId, p: Product)
    requires ProductsOk(products, types, cats) && pk in products
    requires p.productType in types && p.category in cats
    requires SlugUnused(products - {pk}, p.slug)
    ensures ProductsOk(products[pk := p], types, cats)
  {
    forall a | a in products && a != pk ensures products[a].slug != p.slug {
      assert (products - {pk})[a].slug == products[a].slug;
    }
  }

  /** The rows that point at products still point at products when the
      product table keeps at least its ids. */
  lemma ReferencesKept(db: Db, products: map<ProductId, Product>)
    requires db.Consistent() && db.products.rows.Keys <= products.Keys
    ensures SpecValuesOk(db.specValues.rows, products, db.specifications.rows)
    ensures ImagesOk(db.images.rows, products)
    ensures OrderItemsOk(db.orderItems.rows, products, db.orders.rows)
    ensures forall r | r in db.reviews.rows :: db.reviews.rows[r].product in products
  {
  }

  lemma AggregatesReplaced(reviews: Table<Review>, products: map<ProductId, Product>, pk: ProductId, p: Product)
    requires ReviewsOk(reviews, products) && pk in products
    requires p.numReviews == products[pk].numReviews && p.rating == products[pk].rating
    ensures ReviewsOk(reviews, products[pk := p])
  {
  }

  lemma ProductInserted(
    products: Table<Product>, p: Product, types: map<ProductTypeId, ProductType>, cats: map<CategoryId, Category>)
    requires products.Valid() && ProductsOk(products.rows, types, cats)
    requires p.productType in types && p.category in cats
    requires SlugUnused(products.rows, p.slug)
    ensures ProductsOk(products.Insert(p).rows, types, cats)
  {
  }

  lemma AggregatesOfNewProduct(reviews: Table<Review>, products: Table<Product>, p: Product)
    requires products.Valid() && ReviewsOk(reviews, products.rows)
    requires p.numReviews == 0 && p.rating == None
    ensures ReviewsOk(reviews, products.Insert(p).rows)
  {
    SelectNone(reviews.rows, (rv: Review) => rv.product == products.next, reviews.next);
    assert AggregatesMatch(p, ReviewsOf(reviews, products.next));
  }

  /** The stored review points at a product and is the first by its author
      for that product. */
  lemma ReviewRowsOk(reviews: Table<Review>, products: map<ProductId, Product>, rv: Review)
    requires reviews.Valid() && ReviewsOk(reviews, products) && rv.product in products
    requires !HasReviewed(reviews.rows, rv.product, rv.createdBy)
    ensures var rows := reviews.Insert(rv).rows;
            && (forall r | r in rows :: rows[r].product in products)
            && (forall a, b | a in rows && b in rows && a != b ::
                  rows[a].product != rows[b].product || rows[a].createdBy != rows[b].createdBy)
  {
  }

  lemma AggregatesAfterReview(
    reviews: Table<Review>, products: map<ProductId, Product>, rv: Review,
    reviews': Table<Review>, products': map<ProductId, Product>)
    requires ReviewsOk(reviews, products) && rv.product in products
    requires products'.Keys == products.Keys
    requires forall p | p in products && p != rv.product :: products'[p] == products[p]
    requires forall p | p != rv.product :: ReviewsOf(reviews', p) == ReviewsOf(reviews, p)
    requires AggregatesMatch(products'[rv.product], ReviewsOf(reviews', rv.product))
    ensures forall p | p in products' :: AggregatesMatch(products'[p], ReviewsOf(reviews', p))
  {
  }

  lemma AggregatesOf(db: Db, p: ProductId)
    requires db.Consistent() && p in db.products.rows
    ensures AggregatesMatch(db.products.rows[p], ReviewsOf(db.reviews, p))
  {
  }

  lemma CategoriesOfDb(db: Db)
    requires db.Consistent()
    ensures CategoriesOk(db.categories.rows)
  {
  }

  lemma ProductsOfDb(db: Db)
    requires db.Consistent()
    ensures ProductsOk(db.products.rows, db.productTypes.rows, db.categories.rows)
  {
  }

  /** A product whose count and rating agree with its reviews before one more
      review, and with all of them after it, moved its mean as a running
      average would. */
  lemma RatingAfterAppend(before: Product, rs: seq<Review>, rv: Review, after: Product)
    requires AggregatesMatch(before, rs) && before.numReviews > 0
    requires AggregatesMatch(after, rs + [rv])
    ensures before.rating.Some? && after.rating.Some?
    ensures after.rating.value == Ratings.RunningMean(before.rating.value, before.numReviews, rv.rating)
  {
    assert RatingsOf(rs + [rv]) == RatingsOf(rs) + [rv.rating];
    Ratings.MeanAppend(RatingsOf(rs), rv.rating);
  }

  /** Removing a category with everything below it leaves a tree whose names
      and slugs are still unique. */
  lemma SubtreeRemoved(cats: map<CategoryId, Category>, c: CategoryId)
    requires CategoriesOk(cats) && c in cats
    ensures CategoriesOk(cats - Catalog.Descendants(cats, c))
  {
  }

  /** The products left once those filed under the removed categories are
      gone point only at categories that remain. */
  lemma ProductsOutsideSubtree(
    products: map<ProductId, Product>, types: map<ProductTypeId, ProductType>,
    cats: map<CategoryId, Category>, sub: set<CategoryId>, gone: set<ProductId>)
    requires ProductsOk(products, types, cats)
    requires forall p | p in products && products[p].category in sub :: p in gone
    ensures ProductsOk(products - gone, types, cats - sub)
  {
  }

  lemma CategoriesReplaced(db: Db, cats: Table<Category>)
    requires db.Consistent() && cats.Valid() && CategoriesOk(cats.rows)
    requires ProductsOk(db.products.rows, db.productTypes.rows, cats.rows)
    ensures db.(categories := cats).Consistent()
  {
  }

}
