/** The store's database as an object, and the handlers of store/views.py
    that write to it. Each table of `Database.Db` is a field; `Valid` is the
    schema's integrity plus the review aggregates. Each handler is one step,
    proved against the state `Database` says it leads to; a handler that
    fails part way keeps the rows it already wrote, as the source does not
    wrap its writes in a transaction. */
module Store {
  import opened Wrappers
  import opened Tables
  import opened Models
  import opened Orders
  import opened Database
  import Ratings

  /** The fields `UpdateProductView.put` takes from the request. */
  datatype ProductForm = ProductForm(
    title: string,
    brand: Option<string>,
    description: string,
    slug: string,
    regularPrice: real,
    discountPrice: real,
    countInStock: int)

  /** A product with the seven request fields written over it; its type,
      category, owner, review aggregates and flags stay. */
  function Edited(p: Product, f: ProductForm): (r: Product)
    ensures r.title == f.title && r.brand == f.brand && r.description == f.description
    ensures r.slug == f.slug && r.regularPrice == f.regularPrice && r.discountPrice == f.discountPrice
    ensures r.countInStock == f.countInStock
    ensures r.(title := p.title, brand := p.brand, description := p.description, slug := p.slug,
               regularPrice := p.regularPrice, discountPrice := p.discountPrice,
               countInStock := p.countInStock) == p
  {
    p.(title := f.title, brand := f.brand, description := f.description, slug := f.slug,
       regularPrice := f.regularPrice, discountPrice := f.discountPrice, countInStock := f.countInStock)
  }

  /** An order item shows its product as the product is now: editing the
      product changes what each of its items shows, in orders placed before
      the edit too, and the items of other products show what they did. */
  lemma EditShowsInOrders(it: OrderItem, products: map<ProductId, Product>, pk: ProductId, f: ProductForm)
    requires pk in products && it.product in products
    ensures var after := products[pk := Edited(products[pk], f)];
            && (it.product == pk ==>
                  && Details(it, after) == ItemDetails(f.title, f.discountPrice, f.slug, f.brand)
                  && Subtotal(it, after) == f.discountPrice * it.quantity as real)
            && (it.product != pk ==>
                  Details(it, after) == Details(it, products) && Subtotal(it, after) == Subtotal(it, products))
  {
  }

  class Store {
    var categories: Table<Category>
    var productTypes: Table<ProductType>
    var specifications: Table<ProductSpecification>
    var products: Table<Product>
    var specValues: Table<ProductSpecificationValue>
    var images: Table<ProductImage>
    var reviews: Table<Review>
    var orders: Table<Order>
    var orderItems: Table<OrderItem>
    var addresses: Table<ShippingAddress>

    /** The tables as one value. */
    ghost function Snapshot(): Db
      reads this
    {
      Db(categories, productTypes, specifications, products, specValues, images, reviews,
         orders, orderItems, addresses)
    }

    ghost predicate Valid()
      reads this
    {
      Snapshot().Consistent()
    }

    /** An empty database. */
    constructor ()
      ensures Valid() && Snapshot() == Empty()
    {
      var db := Empty();
      categories, productTypes, specifications := db.categories, db.productTypes, db.specifications;
      products, specValues, images, reviews := db.products, db.specValues, db.images, db.reviews;
      orders, orderItems, addresses := db.orders, db.orderItems, db.addresses;
    }

    // -------------------------------------------------------------------
    // Creating rows (the ORM's `create`, with the schema's checks)

    /** A new category, active by default, one level below its parent. A
        missing parent, or a name or slug already in use, is an integrity
        error and writes nothing. */
    method AddCategory(name: string, slug: string, parent: Option<CategoryId>)
      returns (r: Result<CategoryId, Error>)
      requires Valid()
      modifies this
      ensures var db := old(Snapshot());
              var cats := db.categories.rows;
              if && (parent.Some? ==> parent.value in cats)
                 && CategoryNamesFree(cats, name, slug)
              then
                var level := if parent.Some? then cats[parent.value].level + 1 else 0;
                && r == Success(db.categories.next)
                && Snapshot() == db.(categories := db.categories.Insert(Category(name, slug, parent, true, level)))
              else r == Failure(IntegrityError) && Snapshot() == db
      ensures Valid()
    {
      if parent.Some? && parent.value !in categories.rows {
        return Failure(IntegrityError);
      }
      if !CategoryNamesFree(categories.rows, name, slug) {
        return Failure(IntegrityError);
      }
      var level := if parent.Some? then categories.rows[parent.value].level + 1 else 0;
      var c := Category(name, slug, parent, true, level);
      CategoryAdded(Snapshot(), c);
      r := Success(categories.next);
      categories := categories.Insert(c);
    }

    /** A new product type, active by default; its name must be unused. */
    method AddProductType(name: string) returns (r: Result<ProductTypeId, Error>)
      requires Valid()
      modifies this
      ensures var db := old(Snapshot());
              if TypeNameFree(db.productTypes.rows, name)
              then r == Success(db.productTypes.next)
                   && Snapshot() == db.(productTypes := db.productTypes.Insert(ProductType(name, true)))
              else r == Failure(IntegrityError) && Snapshot() == db
      ensures Valid()
    {
      if !TypeNameFree(productTypes.rows, name) {
        return Failure(IntegrityError);
      }
      ProductTypeAdded(Snapshot(), ProductType(name, true));
      r := Success(productTypes.next);
      productTypes := productTypes.Insert(ProductType(name, true));
    }

    /** A new specification of an existing product type; its name must be
        unused. */
    method AddSpecification(productType: ProductTypeId, name: string)
      returns (r: Result<SpecificationId, Error>)
      requires Valid()
      modifies this
      ensures var db := old(Snapshot());
              var specs := db.specifications.rows;
              if productType in db.productTypes.rows && SpecNameFree(specs, name)
              then r == Success(db.specifications.next)
                   && Snapshot() == db.(specifications :=
                        db.specifications.Insert(ProductSpecification(productType, name)))
              else r == Failure(IntegrityError) && Snapshot() == db
      ensures Valid()
    {
      if productType !in productTypes.rows {
        return Failure(IntegrityError);
      }
      if !SpecNameFree(specifications.rows, name) {
        return Failure(IntegrityError);
      }
      SpecificationAdded(Snapshot(), ProductSpecification(productType, name));
      r := Success(specifications.next);
      specifications := specifications.Insert(ProductSpecification(productType, name));
    }

    /** A new product with the model's defaults (nothing in stock, no
        reviews, no rating, in stock and active). Its type and category must
        exist and its slug must be unused. */
    method AddProduct(
      productType: ProductTypeId, category: CategoryId, createdBy: UserId, title: string,
      brand: Option<string>, description: string, slug: string, regularPrice: real, discountPrice: real)
      returns (r: Result<ProductId, Error>)
      requires Valid()
      modifies this
      ensures var db := old(Snapshot());
              var p := NewProduct(productType, category, createdBy, title, brand, description, slug,
                                  regularPrice, discountPrice);
              if && productType in db.productTypes.rows && category in db.categories.rows
                 && SlugUnused(db.products.rows, slug)
              then r == Success(db.products.next) && Snapshot() == db.(products := db.products.Insert(p))
              else r == Failure(IntegrityError) && Snapshot() == db
      ensures Valid()
    {
      if productType !in productTypes.rows || category !in categories.rows || !SlugUnused(products.rows, slug) {
        return Failure(IntegrityError);
      }
      var p := NewProduct(productType, category, createdBy, title, brand, description, slug,
                          regularPrice, discountPrice);
      ProductAdded(Snapshot(), p);
      r := Success(products.next);
      products := products.Insert(p);
    }

    /** A specification value of an existing product for an existing
        specification. */
    method AddSpecValue(product: ProductId, specification: SpecificationId, value: string)
      returns (r: Result<nat, Error>)
      requires Valid()
      modifies this
      ensures var db := old(Snapshot());
              if product in db.products.rows && specification in db.specifications.rows
              then r == Success(db.specValues.next)
                   && Snapshot() == db.(specValues :=
                        db.specValues.Insert(ProductSpecificationValue(product, specification, value)))
              else r == Failure(IntegrityError) && Snapshot() == db
      ensures Valid()
    {
      if product !in products.rows || specification !in specifications.rows {
        return Failure(IntegrityError);
      }
      var v := ProductSpecificationValue(product, specification, value);
      SpecValueAdded(Snapshot(), v);
      r := Success(specValues.next);
      specValues := specValues.Insert(v);
    }

    /** `UploadProductImageView.post`: an image of an existing product, with
        the product's title as its alternative text. */
    method UploadImage(product: ProductId, image: string, isFeature: bool)
      returns (r: Result<nat, Error>)
      requires Valid()
      modifies this
      ensures var db := old(Snapshot());
              if product in db.products.rows
              then r == Success(db.images.next)
                   && Snapshot() == db.(images := db.images.Insert(
                        ProductImage(product, image, Some(db.products.rows[product].title), isFeature)))
              else r == Failure(DoesNotExist) && Snapshot() == db
      ensures Valid()
    {
      if product !in products.rows {
        return Failure(DoesNotExist);
      }
      var im := ProductImage(product, image, Some(products.rows[product].title), isFeature);
      ImageAdded(Snapshot(), im);
      r := Success(images.next);
      images := images.Insert(im);
    }

    // -------------------------------------------------------------------
    // Orders

    /** `AddOrderItemsView.post`: the order, its shipping address, then per
        cart line an item and the stock taken from the line's product. An
        empty cart still yields an order. A line naming a missing product
        fails the request there, keeping the rows already written. */
    method PlaceOrder(user: UserId, cart: Cart) returns (r: Result<OrderId, Error>)
      requires Valid()
      modifies this
      ensures Snapshot() == Placed(old(Snapshot()), user, cart)
      ensures r == if FirstMissing(old(products.rows), cart.lines) == |cart.lines|
                   then Success(old(orders.next)) else Failure(DoesNotExist)
      ensures Valid()
    {
      ghost var db := Snapshot();
      PlacedInSteps(db, user, cart);
      ghost var k := FirstMissing(db.products.rows, cart.lines);
      var oid := orders.next;
      orders := orders.Insert(NewOrder(user, cart));
      addresses := addresses.Insert(NewAddress(oid, user, cart));
      ghost var start := Snapshot();
      assert start == Opened(db, user, cart);
      var n := TakeStock(oid, cart.lines);
      assert Snapshot() == Checkout(start, oid, cart.lines[..n]);
      r := if n == |cart.lines| then Success(oid) else Failure(DoesNotExist);
    }

    /** The loop of `AddOrderItemsView.post`: per line, while its product
        exists, an item row of order `order` and the line's quantity taken
        from the product's stock. Returns how many lines it got through. */
    method TakeStock(order: OrderId, lines: seq<CartLine>) returns (n: nat)
      requires orderItems.Valid()
      modifies this`orderItems, this`products
      ensures n == FirstMissing(old(products.rows), lines)
      ensures orderItems == old(orderItems).InsertAll(LineItems(order, lines[..n]))
      ensures products == old(products).(rows := Deduct(old(products.rows), lines[..n]))
    {
      var items, rows;
      n, items, rows := CheckoutLines(orderItems, products.rows, order, lines);
      orderItems, products := items, products.(rows := rows);
    }

    static method CheckoutLines(
      items0: Table<OrderItem>, rows0: map<ProductId, Product>, order: OrderId, lines: seq<CartLine>)
      returns (n: nat, items: Table<OrderItem>, rows: map<ProductId, Product>)
      requires items0.Valid()
      ensures n == FirstMissing(rows0, lines)
      ensures items == items0.InsertAll(LineItems(order, lines[..n]))
      ensures rows == Deduct(rows0, lines[..n])
    {
      ghost var k := FirstMissing(rows0, lines);
      ghost var done: seq<CartLine> := [];
      n, items, rows := 0, items0, rows0;
      while n < |lines|
        invariant n <= k && done == lines[..n]
        invariant forall i | 0 <= i < |done| :: done[i].product in rows0
        invariant items == items0.InsertAll(LineItems(order, done))
        invariant rows == Deduct(rows0, done)
      {
        var line := lines[n];
        if line.product !in rows {
          return;
        }
        var it := OrderItem(line.product, order, line.quantity);
        assert line.product in rows0;
        LineItemsSnoc(order, done, line);
        InsertAllSnoc(items0, LineItems(order, done), it);
        DeductSnoc(rows0, done, line);
        items := items.Insert(it);
        rows := rows[line.product := rows[line.product].(countInStock := rows[line.product].countInStock - line.quantity)];
        done := done + [line];
        n := n + 1;
      }
    }

    /** `UpdateOrderToPaidView.put`: the order is paid at `now`; a missing
        order is an error. Nothing else changes. */
    method MarkPaid(pk: OrderId, now: Timestamp) returns (r: Result<Order, Error>)
      requires Valid()
      modifies this
      ensures var db := old(Snapshot());
              if pk in db.orders.rows
              then var o := Paid(db.orders.rows[pk], now);
                   r == Success(o) && Snapshot() == db.(orders := db.orders.(rows := db.orders.rows[pk := o]))
              else r == Failure(DoesNotExist) && Snapshot() == db
      ensures Valid()
    {
      if pk !in orders.rows {
        return Failure(DoesNotExist);
      }
      var o := Paid(orders.rows[pk], now);
      OrderRewritten(Snapshot(), pk, o);
      orders := orders.(rows := orders.rows[pk := o]);
      r := Success(o);
    }

    /** `UpdateOrderToDeliveredView.put`: the order is delivered at `now`; a
        missing order is an error. Nothing else changes. */
    method MarkDelivered(pk: OrderId, now: Timestamp) returns (r: Result<Order, Error>)
      requires Valid()
      modifies this
      ensures var db := old(Snapshot());
              if pk in db.orders.rows
              then var o := Delivered(db.orders.rows[pk], now);
                   r == Success(o) && Snapshot() == db.(orders := db.orders.(rows := db.orders.rows[pk := o]))
              else r == Failure(DoesNotExist) && Snapshot() == db
      ensures Valid()
    {
      if pk !in orders.rows {
        return Failure(DoesNotExist);
      }
      var o := Delivered(orders.rows[pk], now);
      OrderRewritten(Snapshot(), pk, o);
      orders := orders.(rows := orders.rows[pk := o]);
      r := Success(o);
    }

    // -------------------------------------------------------------------
    // Reviews

    /** `CreateProductReviewView.post`. A missing product is an error; a
        second review by the same user is refused before the rating is
        looked at; a rating of 0 is refused. Otherwise the review is stored
        under the user's first name, and the product's count and rating are
        recomputed from all of its reviews by a running total. */
    method AddReview(pid: ProductId, user: UserId, firstName: string, rating: real, comment: Option<string>)
      returns (r: Result<nat, Error>)
      requires Valid()
      modifies this
      ensures var db := old(Snapshot());
              if pid !in db.products.rows then r == Failure(DoesNotExist) && Snapshot() == db
              else if HasReviewed(db.reviews.rows, pid, user) then r == Failure(AlreadyReviewed) && Snapshot() == db
              else if rating == 0.0 then r == Failure(RatingRequired) && Snapshot() == db
              else r == Success(db.reviews.next)
                   && Snapshot() == Reviewed(db, Review(pid, user, Some(firstName), rating, comment))
      ensures Valid()
    {
      if pid !in products.rows {
        return Failure(DoesNotExist);
      }
      if HasReviewed(reviews.rows, pid, user) {
        return Failure(AlreadyReviewed);
      }
      if rating == 0.0 {
        return Failure(RatingRequired);
      }
      var rv := Review(pid, user, Some(firstName), rating, comment);
      ghost var db := Snapshot();
      ReviewStored(db, rv);
      r := Success(reviews.next);
      reviews := reviews.Insert(rv);
      var all := ReviewsOf(reviews, pid);
      SelectInsert(db.reviews, rv, (x: Review) => x.product == pid);
      var total := SumRatings(all);
      assert total / |all| as real == Ratings.Mean(RatingsOf(all));
      var p := products.rows[pid];
      products := products.(rows := products.rows[pid := p.(numReviews := |all|, rating := Some(total / |all| as real))]);
    }

    /** The running total the review handler accumulates over a product's
        reviews: the sum of their ratings. */
    static method SumRatings(all: seq<Review>) returns (total: real)
      ensures total == Ratings.Sum(RatingsOf(all))
    {
      total := 0.0;
      var j := 0;
      while j < |all|
        invariant 0 <= j <= |all|
        invariant total == Ratings.Sum(RatingsOf(all)[..j])
      {
        assert RatingsOf(all)[..j + 1][..j] == RatingsOf(all)[..j];
        total := total + all[j].rating;
        j := j + 1;
      }
      assert RatingsOf(all)[..j] == RatingsOf(all);
    }

    // -------------------------------------------------------------------
    // Editing and deleting

    /** `UpdateProductView.put`: the seven request fields are written over the
        product. A missing product is an error; a slug another product has
        makes the save fail with nothing written. */
    method UpdateProduct(pk: ProductId, form: ProductForm) returns (r: Result<Product, Error>)
      requires Valid()
      modifies this
      ensures var db := old(Snapshot());
              if pk !in db.products.rows then r == Failure(DoesNotExist) && Snapshot() == db
              else if !SlugUnused(db.products.rows - {pk}, form.slug) then
                r == Failure(IntegrityError) && Snapshot() == db
              else
                var p := Edited(db.products.rows[pk], form);
                r == Success(p) && Snapshot() == db.(products := db.products.(rows := db.products.rows[pk := p]))
      ensures Valid()
    {
      if pk !in products.rows {
        return Failure(DoesNotExist);
      }
      if !SlugUnused(products.rows - {pk}, form.slug) {
        return Failure(IntegrityError);
      }
      var p := Edited(products.rows[pk], form);
      ProductEdited(Snapshot(), pk, p);
      products := products.(rows := products.rows[pk := p]);
      r := Success(p);
    }

    /** Writes every table of `db` back: the end of a cascading delete. */
    method Commit(db: Db)
      modifies this
      ensures Snapshot() == db
    {
      categories, productTypes, specifications := db.categories, db.productTypes, db.specifications;
      products, specValues, images, reviews := db.products, db.specValues, db.images, db.reviews;
      orders, orderItems, addresses := db.orders, db.orderItems, db.addresses;
    }

    /** `DeleteProductView.delete`: the product goes, and with it every row
        that points at it. A missing product is an error. */
    method DeleteProduct(pk: ProductId) returns (r: Result<(), Error>)
      requires Valid()
      modifies this
      ensures var db := old(Snapshot());
              if pk in db.products.rows then r == Success(()) && Snapshot() == db.WithoutProducts({pk})
              else r == Failure(DoesNotExist) && Snapshot() == db
      ensures Valid()
    {
      if pk !in products.rows {
        return Failure(DoesNotExist);
      }
      var db := Db(categories, productTypes, specifications, products, specValues, images, reviews,
                   orders, orderItems, addresses);
      ProductsRemoved(db, {pk});
      Commit(db.WithoutProducts({pk}));
      r := Success(());
    }

    /** Deleting a category: the category, everything below it, and the
        products filed under any of them. A missing category is an error. */
    method DeleteCategory(c: CategoryId) returns (r: Result<(), Error>)
      requires Valid()
      modifies this
      ensures var db := old(Snapshot());
              if c in db.categories.rows then r == Success(()) && Snapshot() == db.WithoutCategory(c)
              else r == Failure(DoesNotExist) && Snapshot() == db
      ensures Valid()
    {
      if c !in categories.rows {
        return Failure(DoesNotExist);
      }
      var db := Db(categories, productTypes, specifications, products, specValues, images, reviews,
                   orders, orderItems, addresses);
      CategoryRemoved(db, c);
      Commit(db.WithoutCategory(c));
      r := Success(());
    }

    /** Deleting a product type: refused while a product or a specification
        still refers to it (on_delete=RESTRICT). */
    method DeleteProductType(t: ProductTypeId) returns (r: Result<(), Error>)
      requires Valid()
      modifies this
      ensures var db := old(Snapshot());
              if t !in db.productTypes.rows then r == Failure(DoesNotExist) && Snapshot() == db
              else if TypeInUse(db.products.rows, db.specifications.rows, t)
              then r == Failure(RestrictedError) && Snapshot() == db
              else r == Success(()) && Snapshot() == db.(productTypes := db.productTypes.Without({t}))
      ensures Valid()
    {
      if t !in productTypes.rows {
        return Failure(DoesNotExist);
      }
      if TypeInUse(products.rows, specifications.rows, t) {
        return Failure(RestrictedError);
      }
      ProductTypeRemoved(Snapshot(), t);
      productTypes := productTypes.Without({t});
      r := Success(());
    }

    /** Deleting a specification: refused while a value still refers to it
        (on_delete=RESTRICT). */
    method DeleteSpecification(s: SpecificationId) returns (r: Result<(), Error>)
      requires Valid()
      modifies this
      ensures var db := old(Snapshot());
              if s !in db.specifications.rows then r == Failure(DoesNotExist) && Snapshot() == db
              else if SpecInUse(db.specValues.rows, s)
              then r == Failure(RestrictedError) && Snapshot() == db
              else r == Success(()) && Snapshot() == db.(specifications := db.specifications.Without({s}))
      ensures Valid()
    {
      if s !in specifications.rows {
        return Failure(DoesNotExist);
      }
      if SpecInUse(specValues.rows, s) {
        return Failure(RestrictedError);
      }
      SpecificationRemoved(Snapshot(), s);
      specifications := specifications.Without({s});
      r := Success(());
    }
  }
}
