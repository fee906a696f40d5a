/** The store's records (store/models.py): one datatype per Django model,
    the defaults a new row gets, the values an order derives from its items
    at read time, and the integrity rules of the schema (unique columns,
    foreign keys, the category tree). */
module Models {
  import opened Wrappers
  import opened Tables
  import Ratings

  type UserId = nat
  type CategoryId = nat
  type ProductTypeId = nat
  type SpecificationId = nat
  type ProductId = nat
  type OrderId = nat

  /** A point in time; the clock itself is outside the model. */
  type Timestamp = int

  /** A node of the category tree. `level` is the depth the tree library
      stores for every node: 0 for a root, one more than the parent's below. */
  datatype Category = Category(
    name: string, slug: string, parent: Option<CategoryId>, isActive: bool, level: nat)

  datatype ProductType = ProductType(name: string, isActive: bool)

  datatype ProductSpecification = ProductSpecification(productType: ProductTypeId, name: string)

  datatype Product = Product(
    productType: ProductTypeId,
    category: CategoryId,
    createdBy: UserId,
    title: string,
    brand: Option<string>,
    description: string,
    slug: string,
    regularPrice: real,
    discountPrice: real,
    rating: Option<real>,
    numReviews: int,
    countInStock: int,
    inStock: bool,
    isActive: bool)

  datatype ProductSpecificationValue = ProductSpecificationValue(
    product: ProductId, specification: SpecificationId, value: string)

  datatype ProductImage = ProductImage(
    product: ProductId, image: string, altText: Option<string>, isFeature: bool)

  datatype Review = Review(
    product: ProductId, createdBy: UserId, name: Option<string>, rating: real, comment: Option<string>)

  datatype Order = Order(
    createdBy: UserId,
    transactionId: Option<string>,
    paymentMethod: Option<string>,
    tax: real,
    shippingCharge: real,
    isPaid: bool,
    isDelivered: bool,
    paidAt: Option<Timestamp>,
    deliveredAt: Option<Timestamp>)

  datatype OrderItem = OrderItem(product: ProductId, order: OrderId, quantity: int)

  datatype ShippingAddress = ShippingAddress(
    order: OrderId,
    customer: UserId,
    name: Option<string>,
    address: string,
    city: string,
    state: string,
    zipcode: string,
    country: string,
    shippingCharge: real)

  /** How a store operation fails. */
  datatype Error =
    | DoesNotExist       // a lookup by id or slug found no row (uncaught: HTTP 500)
    | IntegrityError     // a unique column or a foreign key would be violated
    | RestrictedError    // an on_delete=RESTRICT reference forbids the delete
    | AlreadyReviewed    // "Product review has already been submitted!"
    | RatingRequired     // "Please select product rating!"
    | NotAuthorized      // "Not authorized to view this order!"
    | OrderDoesNotExist  // "Order does not exist!"

  // ---------------------------------------------------------------------
  // Defaults of a new row

  /** A product as the ORM creates it from the required columns: nothing in
      stock, no reviews, no rating, in stock and visible. */
  function NewProduct(
    productType: ProductTypeId, category: CategoryId, createdBy: UserId, title: string,
    brand: Option<string>, description: string, slug: string, regularPrice: real,
    discountPrice: real): (p: Product)
    ensures p.countInStock == 0 && p.numReviews == 0 && p.rating == None
    ensures p.inStock && p.isActive
    ensures p.productType == productType && p.category == category && p.createdBy == createdBy
    ensures p.title == title && p.brand == brand && p.description == description && p.slug == slug
    ensures p.regularPrice == regularPrice && p.discountPrice == discountPrice
  {
    Product(productType, category, createdBy, title, brand, description, slug,
            regularPrice, discountPrice, None, 0, 0, true, true)
  }

  // ---------------------------------------------------------------------
  // Values an order derives from its items

  /** `order.orderitem_set.all()`: the order's items in creation order. */
  function ItemsOf(items: Table<OrderItem>, order: OrderId): (r: seq<OrderItem>)
    ensures forall it | it in r :: it.order == order
  {
    items.Select((it: OrderItem) => it.order == order)
  }

  ghost predicate ProductsKnown(items: seq<OrderItem>, products: map<ProductId, Product>) {
    forall i | 0 <= i < |items| :: items[i].product in products
  }

  /** `OrderItem.total_price`: the product's current discount price times the
      quantity. */
  function Subtotal(item: OrderItem, products: map<ProductId, Product>): (r: real)
    requires item.product in products
    ensures item.quantity == 0 ==> r == 0.0
    ensures item.quantity == 1 ==> r == products[item.product].discountPrice
  {
    products[item.product].discountPrice * item.quantity as real
  }

  /** No item has a negative quantity or a product with a negative price. */
  ghost predicate NothingNegative(items: seq<OrderItem>, products: map<ProductId, Product>)
    requires ProductsKnown(items, products)
  {
    forall i | 0 <= i < |items| :: 0 <= items[i].quantity && 0.0 <= products[items[i].product].discountPrice
  }

  function SumSubtotals(items: seq<OrderItem>, products: map<ProductId, Product>): (r: real)
    requires ProductsKnown(items, products)
  {
    if items == [] then 0.0
    else SumSubtotals(items[..|items| - 1], products) + Subtotal(items[|items| - 1], products)
  }

  /** `Order.total_items`: the sum of the item quantities. */
  function TotalItems(items: seq<OrderItem>): (r: int)
    ensures items == [] ==> r == 0
    ensures (forall i | 0 <= i < |items| :: 0 <= items[i].quantity) ==>
              0 <= r && forall i | 0 <= i < |items| :: items[i].quantity <= r
  {
    if items == [] then 0 else TotalItems(items[..|items| - 1]) + items[|items| - 1].quantity
  }

  /** `Order.total_price`: the items' subtotals plus shipping and tax. */
  function TotalPrice(order: Order, items: seq<OrderItem>, products: map<ProductId, Product>): (r: real)
    requires ProductsKnown(items, products)
    ensures items == [] ==> r == order.shippingCharge + order.tax
  {
    SumSubtotals(items, products) + order.shippingCharge + order.tax
  }

  /** Without negative quantities or prices, an order's total is at least
      its shipping charge plus tax. */
  lemma {:induction false} TotalPriceCoversCharges(
    order: Order, items: seq<OrderItem>, products: map<ProductId, Product>)
    requires ProductsKnown(items, products) && NothingNegative(items, products)
    ensures order.shippingCharge + order.tax <= TotalPrice(order, items, products)
  {
    SubtotalsNonNegative(items, products);
  }

  lemma {:induction false} SubtotalsNonNegative(items: seq<OrderItem>, products: map<ProductId, Product>)
    requires ProductsKnown(items, products) && NothingNegative(items, products)
    ensures 0.0 <= SumSubtotals(items, products)
  {
    if items != [] {
      var last := items[|items| - 1];
      SubtotalsNonNegative(items[..|items| - 1], products);
      assert 0.0 <= products[last.product].discountPrice && 0 <= last.quantity;
      assert 0.0 <= Subtotal(last, products);
    }
  }

  /** How many units of product `p` the items ask for. */
  function QuantityOf(items: seq<OrderItem>, p: ProductId): int {
    if items == [] then 0
    else QuantityOf(items[..|items| - 1], p)
         + (if items[|items| - 1].product == p then items[|items| - 1].quantity else 0)
  }

  /** The price of an order item is read from its product when the order is
      read, not captured when it was placed: changing a product's discount
      price moves the total of every order that holds it, by the price
      difference times the quantity ordered. */
  lemma {:induction false} RepricingMovesTotal(
    order: Order, items: seq<OrderItem>, products: map<ProductId, Product>, p: ProductId, price: real)
    requires p in products && ProductsKnown(items, products)
    ensures ProductsKnown(items, products[p := products[p].(discountPrice := price)])
    ensures TotalPrice(order, items, products[p := products[p].(discountPrice := price)])
         == TotalPrice(order, items, products)
            + (price - products[p].discountPrice) * QuantityOf(items, p) as real
  {
    var repriced := products[p := products[p].(discountPrice := price)];
    if items != [] {
      var init := items[..|items| - 1];
      var last := items[|items| - 1];
      RepricingMovesTotal(order, init, products, p, price);
      if last.product == p {
        assert Subtotal(last, repriced) == Subtotal(last, products)
          + (price - products[p].discountPrice) * last.quantity as real;
      }
    }
  }

  /** What an order item shows of its product: `OrderItem.name`, `price`,
      `slug` and `brand`, all read from the product row as it is now. */
  datatype ItemDetails = ItemDetails(name: string, price: real, slug: string, brand: Option<string>)

  function Details(item: OrderItem, products: map<ProductId, Product>): (d: ItemDetails)
    requires item.product in products
    ensures var p := products[item.product];
            d.name == p.title && d.price == p.discountPrice && d.slug == p.slug && d.brand == p.brand
  {
    var p := products[item.product];
    ItemDetails(p.title, p.discountPrice, p.slug, p.brand)
  }

  /** `OrderItem.image`: the first image of the item's product in creation
      order, as the id of its row. None stands for the error the source
      raises when the product has no image at all. */
  function FirstImage(images: Table<ProductImage>, p: ProductId): (r: Option<nat>)
    requires images.Valid()
    ensures r == None <==> forall id | id in images.rows :: images.rows[id].product != p
    ensures r.Some? ==> r.value in images.rows && images.rows[r.value].product == p
    ensures r.Some? ==> forall id | id in images.rows && images.rows[id].product == p :: r.value <= id
  {
    var ids := images.Ids((im: ProductImage) => im.product == p);
    if ids == [] then None
    else
      assert ids[0] in ids;
      assert forall id | id in ids :: ids[0] <= id by {
        forall id | id in ids ensures ids[0] <= id {
          var k :| 0 <= k < |ids| && ids[k] == id;
          assert k == 0 || ids[0] < ids[k];
        }
      }
      Some(ids[0])
  }

  // ---------------------------------------------------------------------
  // Aggregates kept on a product by the review handler

  /** `product.review_set.all()` in creation order. */
  function ReviewsOf(reviews: Table<Review>, p: ProductId): seq<Review> {
    reviews.Select((r: Review) => r.product == p)
  }

  function RatingsOf(rs: seq<Review>): (r: seq<real>)
    ensures |r| == |rs| && forall i | 0 <= i < |rs| :: r[i] == rs[i].rating
  {
    seq(|rs|, i requires 0 <= i < |rs| => rs[i].rating)
  }

  /** The product's review count and rating agree with its reviews: the count,
      and the arithmetic mean of their ratings (no rating while there are none). */
  ghost predicate AggregatesMatch(p: Product, rs: seq<Review>) {
    && p.numReviews == |rs|
    && p.rating == (if rs == [] then None else Some(Ratings.Mean(RatingsOf(rs))))
  }

  predicate HasReviewed(reviews: map<nat, Review>, p: ProductId, user: UserId) {
    exists id {:trigger reviews[id].createdBy} | id in reviews :: reviews[id].product == p && reviews[id].createdBy == user
  }

  // ---------------------------------------------------------------------
  // Integrity rules of the schema

  /** Parent links exist, a root has level 0 and a child one more than its
      parent; so the parent links cannot form a cycle. */
  ghost predicate TreeShaped(cats: map<CategoryId, Category>) {
    && (forall c {:trigger cats[c].parent} | c in cats && cats[c].parent.None? :: cats[c].level == 0)
    && (forall c {:trigger cats[c].parent} | c in cats && cats[c].parent.Some? :: cats[c].parent.value in cats)
    && (forall c, p {:trigger cats[c].parent, cats[p].level} | c in cats && p in cats && cats[c].parent == Some(p) ::
          cats[c].level == cats[p].level + 1)
  }

  ghost predicate CategoriesOk(cats: map<CategoryId, Category>) {
    && TreeShaped(cats)
    && (forall a, b {:trigger cats[a].name, cats[b].name} | a in cats && b in cats && a != b ::
          cats[a].name != cats[b].name)
    && (forall a, b {:trigger cats[a].slug, cats[b].slug} | a in cats && b in cats && a != b ::
          cats[a].slug != cats[b].slug)
  }

  ghost predicate ProductTypesOk(types: map<ProductTypeId, ProductType>) {
    forall a, b {:trigger types[a].name, types[b].name} | a in types && b in types && a != b ::
      types[a].name != types[b].name
  }

  ghost predicate SpecificationsOk(
    specs: map<SpecificationId, ProductSpecification>, types: map<ProductTypeId, ProductType>)
  {
    && (forall s {:trigger specs[s].productType} | s in specs :: specs[s].productType in types)
    && (forall a, b {:trigger specs[a].name, specs[b].name} | a in specs && b in specs && a != b ::
          specs[a].name != specs[b].name)
  }

  /** No product has this slug yet. */
  predicate SlugUnused(products: map<ProductId, Product>, slug: string) {
    forall p {:trigger products[p].slug} | p in products :: products[p].slug != slug
  }

  /** A product or a specification still refers to product type `t`. */
  predicate TypeInUse(
    products: map<ProductId, Product>, specs: map<SpecificationId, ProductSpecification>, t: ProductTypeId)
  {
    || (exists p {:trigger products[p].productType} | p in products :: products[p].productType == t)
    || (exists s {:trigger specs[s].productType} | s in specs :: specs[s].productType == t)
  }

  /** A specification value still refers to specification `s`. */
  predicate SpecInUse(values: map<nat, ProductSpecificationValue>, s: SpecificationId) {
    exists v {:trigger values[v].specification} | v in values :: values[v].specification == s
  }

  /** No category has this name, nor this slug. */
  predicate CategoryNamesFree(cats: map<CategoryId, Category>, name: string, slug: string) {
    forall c {:trigger cats[c].name} | c in cats :: cats[c].name != name && cats[c].slug != slug
  }

  /** No product type has this name. */
  predicate TypeNameFree(types: map<ProductTypeId, ProductType>, name: string) {
    forall t {:trigger types[t].name} | t in types :: types[t].name != name
  }

  /** No specification has this name. */
  predicate SpecNameFree(specs: map<SpecificationId, ProductSpecification>, name: string) {
    forall s {:trigger specs[s].name} | s in specs :: specs[s].name != name
  }

  ghost predicate ProductsOk(
    products: map<ProductId, Product>, types: map<ProductTypeId, ProductType>,
    cats: map<CategoryId, Category>)
  {
    && (forall p {:trigger products[p].productType} | p in products :: products[p].productType in types)
    && (forall p {:trigger products[p].category} | p in products :: products[p].category in cats)
    && (forall a, b {:trigger products[a].slug, products[b].slug} | a in products && b in products && a != b ::
          products[a].slug != products[b].slug)
  }

  ghost predicate SpecValuesOk(
    values: map<nat, ProductSpecificationValue>, products: map<ProductId, Product>,
    specs: map<SpecificationId, ProductSpecification>)
  {
    && (forall v {:trigger values[v].product} | v in values :: values[v].product in products)
    && (forall v {:trigger values[v].specification} | v in values :: values[v].specification in specs)
  }

  ghost predicate ImagesOk(images: map<nat, ProductImage>, products: map<ProductId, Product>) {
    forall i {:trigger images[i].product} | i in images :: images[i].product in products
  }

  /** Reviews point at products, a user reviews a product at most once, and
      every product's count and rating agree with its reviews. */
  ghost predicate ReviewsOk(reviews: Table<Review>, products: map<ProductId, Product>) {
    && (forall r {:trigger reviews.rows[r].product} | r in reviews.rows :: reviews.rows[r].product in products)
    && (forall a, b {:trigger reviews.rows[a].createdBy, reviews.rows[b].createdBy}
          | a in reviews.rows && b in reviews.rows && a != b ::
          reviews.rows[a].product != reviews.rows[b].product
          || reviews.rows[a].createdBy != reviews.rows[b].createdBy)
    && (forall p {:trigger ReviewsOf(reviews, p)} | p in products :: AggregatesMatch(products[p], ReviewsOf(reviews, p)))
  }

  ghost predicate OrderItemsOk(
    items: map<nat, OrderItem>, products: map<ProductId, Product>, orders: map<OrderId, Order>)
  {
    && (forall i {:trigger items[i].product} | i in items :: items[i].product in products)
    && (forall i {:trigger items[i].order} | i in items :: items[i].order in orders)
  }

  /** Addresses point at orders, and an order has at most one address. */
  ghost predicate AddressesOk(addresses: map<nat, ShippingAddress>, orders: map<OrderId, Order>) {
    && (forall a {:trigger addresses[a].order} | a in addresses :: addresses[a].order in orders)
    && (forall a, b {:trigger addresses[a].order, addresses[b].order} | a in addresses && b in addresses && a != b ::
          addresses[a].order != addresses[b].order)
  }

  /** The schema's integrity over all ten tables, and the review aggregates. */
  ghost predicate Coherent(
    categories: Table<Category>, productTypes: Table<ProductType>,
    specifications: Table<ProductSpecification>, products: Table<Product>,
    specValues: Table<ProductSpecificationValue>, images: Table<ProductImage>, reviews: Table<Review>,
    orders: Table<Order>, orderItems: Table<OrderItem>, addresses: Table<ShippingAddress>)
  {
    && categories.Valid() && productTypes.Valid() && specifications.Valid()
    && products.Valid() && specValues.Valid() && images.Valid() && reviews.Valid()
    && orders.Valid() && orderItems.Valid() && addresses.Valid()
    && CategoriesOk(categories.rows)
    && ProductTypesOk(productTypes.rows)
    && SpecificationsOk(specifications.rows, productTypes.rows)
    && ProductsOk(products.rows, productTypes.rows, categories.rows)
    && SpecValuesOk(specValues.rows, products.rows, specifications.rows)
    && ImagesOk(images.rows, products.rows)
    && ReviewsOk(reviews, products.rows)
    && OrderItemsOk(orderItems.rows, products.rows, orders.rows)
    && AddressesOk(addresses.rows, orders.rows)
  }
}
