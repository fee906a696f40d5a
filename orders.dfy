/** The values behind the order handlers of store/views.py: what a checkout
    request carries, the rows it creates, the stock it takes, and who may
    read an order back. The handlers themselves, which write these rows one
    by one, are methods of `Store.Store`. */
module Orders {
  import opened Wrappers
  import opened Tables
  import opened Models
  import Text

  /** One entry of the request's `orderItems`: a product id and `qty`. */
  datatype CartLine = CartLine(product: ProductId, quantity: int)

  /** The request's `shippingAddress`. */
  datatype AddressForm = AddressForm(
    name: Option<string>, address: string, city: string, state: string, zipcode: string, country: string)

  /** The body of a checkout request. `transactionId` is None when the key
      is absent. */
  datatype Cart = Cart(
    transactionId: Option<string>,
    paymentMethod: Option<string>,
    tax: real,
    shippingCharge: real,
    shippingAddress: AddressForm,
    lines: seq<CartLine>)

  /** The order row a checkout creates: owned by the caller, neither paid nor
      delivered, and identified by the caller's id in decimal when the
      request names no transaction. */
  function NewOrder(user: UserId, cart: Cart): (o: Order)
    ensures o.createdBy == user
    ensures !o.isPaid && !o.isDelivered && o.paidAt == None && o.deliveredAt == None
    ensures o.transactionId.Some?
    ensures cart.transactionId.Some? ==> o.transactionId == cart.transactionId
    ensures cart.transactionId.None? ==> o.transactionId == Some(Text.DecimalString(user))
    ensures o.tax == cart.tax && o.shippingCharge == cart.shippingCharge
    ensures o.paymentMethod == cart.paymentMethod
  {
    var tid := if cart.transactionId.Some? then cart.transactionId.value else Text.DecimalString(user);
    Order(user, Some(tid), cart.paymentMethod, cart.tax, cart.shippingCharge, false, false, None, None)
  }

  /** The shipping address row a checkout creates for order `order`: the
      request's `shippingAddress` fields, and the same shipping charge as
      the order. */
  function NewAddress(order: OrderId, user: UserId, cart: Cart): (a: ShippingAddress)
    ensures a.order == order && a.customer == user
    ensures var f := cart.shippingAddress;
            && a.name == f.name && a.address == f.address && a.city == f.city
            && a.state == f.state && a.zipcode == f.zipcode && a.country == f.country
    ensures a.shippingCharge == NewOrder(user, cart).shippingCharge
  {
    var f := cart.shippingAddress;
    ShippingAddress(order, user, f.name, f.address, f.city, f.state, f.zipcode, f.country, cart.shippingCharge)
  }

  /** The item rows for the cart lines, in cart order, all in order `order`. */
  function LineItems(order: OrderId, lines: seq<CartLine>): (r: seq<OrderItem>)
    ensures |r| == |lines|
  {
    seq(|lines|, i requires 0 <= i < |lines| => OrderItem(lines[i].product, order, lines[i].quantity))
  }

  /** One more cart line is one more item row at the end. */
  lemma LineItemsSnoc(order: OrderId, lines: seq<CartLine>, line: CartLine)
    ensures LineItems(order, lines + [line]) == LineItems(order, lines) + [OrderItem(line.product, order, line.quantity)]
  {
  }

  /** The first line whose product does not exist, or `|lines|` when they all
      do: where the checkout loop stops. */
  function FirstMissing(products: map<ProductId, Product>, lines: seq<CartLine>): (k: nat)
    ensures k <= |lines|
    ensures forall i | 0 <= i < k :: lines[i].product in products
    ensures k < |lines| ==> lines[k].product !in products
  {
    if lines == [] || lines[0].product !in products then 0
    else 1 + FirstMissing(products, lines[1..])
  }

  /** The products after the checkout loop took each line's quantity from
      its product's stock, one line after the other. */
  function Deduct(products: map<ProductId, Product>, lines: seq<CartLine>): (r: map<ProductId, Product>)
    requires forall i | 0 <= i < |lines| :: lines[i].product in products
    ensures r.Keys == products.Keys
  {
    if lines == [] then products
    else
      var before := Deduct(products, lines[..|lines| - 1]);
      var line := lines[|lines| - 1];
      before[line.product := before[line.product].(countInStock := before[line.product].countInStock - line.quantity)]
  }

  /** One more line takes its quantity from its product's stock. */
  lemma DeductSnoc(products: map<ProductId, Product>, lines: seq<CartLine>, line: CartLine)
    requires forall i | 0 <= i < |lines| :: lines[i].product in products
    requires line.product in products
    ensures var before := Deduct(products, lines);
            var p := before[line.product];
            Deduct(products, lines + [line]) == before[line.product := p.(countInStock := p.countInStock - line.quantity)]
  {
  }

  /** Taking the stock line by line leaves every product as it was except
      for its stock count, which drops by the total quantity the order's items
      ask for: it can go below zero, and a product no line names keeps its
      count. */
  lemma {:induction false} DeductClosedForm(
    products: map<ProductId, Product>, lines: seq<CartLine>, order: OrderId, p: ProductId)
    requires forall i | 0 <= i < |lines| :: lines[i].product in products
    requires p in products
    ensures Deduct(products, lines)[p]
         == products[p].(countInStock := products[p].countInStock - QuantityOf(LineItems(order, lines), p))
  {
    if lines != [] {
      var init := lines[..|lines| - 1];
      DeductClosedForm(products, init, order, p);
      assert LineItems(order, lines)[..|lines| - 1] == LineItems(order, init);
    }
  }

  /** Items that all name other products ask nothing of `p`: with the closed
      form above, a product the cart does not name keeps its stock count. */
  lemma {:induction false} QuantityOfUnnamed(items: seq<OrderItem>, p: ProductId)
    requires forall i | 0 <= i < |items| :: items[i].product != p
    ensures QuantityOf(items, p) == 0
  {
    if items != [] {
      QuantityOfUnnamed(items[..|items| - 1], p);
    }
  }

  /** Reading a newly placed order back yields exactly the items it was
      placed with, in cart order: no earlier row belongs to the fresh order. */
  lemma PlacedItems(items: Table<OrderItem>, order: OrderId, placed: seq<OrderItem>)
    requires items.Valid()
    requires forall id | id in items.rows :: items.rows[id].order != order
    requires forall i | 0 <= i < |placed| :: placed[i].order == order
    ensures ItemsOf(items.InsertAll(placed), order) == placed
  {
    SelectNone(items.rows, (it: OrderItem) => it.order == order, items.next);
    SelectInsertAll(items, placed, (it: OrderItem) => it.order == order);
  }

  /** `Order.total_items` of an order placed from `lines`: the sum of the
      line quantities. */
  lemma {:induction false} PlacedTotalItems(order: OrderId, lines: seq<CartLine>)
    ensures TotalItems(LineItems(order, lines)) == CartQuantity(lines)
  {
    if lines != [] {
      PlacedTotalItems(order, lines[..|lines| - 1]);
      assert LineItems(order, lines)[..|lines| - 1] == LineItems(order, lines[..|lines| - 1]);
    }
  }

  /** The total quantity a cart asks for. */
  function CartQuantity(lines: seq<CartLine>): int {
    if lines == [] then 0 else CartQuantity(lines[..|lines| - 1]) + lines[|lines| - 1].quantity
  }

  // ---------------------------------------------------------------------
  // Reading an order back

  /** `GetOrderByIdView.get`. A missing order is "Order does not exist!"; staff
      and the order's owner get the order; anybody else is "Not authorized
      to view this order!". Rendering an item of a product without any image
      raises inside the same catch-all handler, so such an order also reads
      as "Order does not exist!" even to its owner. */
  function GetOrder(
    orders: Table<Order>, items: Table<OrderItem>, images: Table<ProductImage>,
    caller: UserId, callerIsStaff: bool, pk: OrderId): (r: Result<Order, Error>)
    requires images.Valid()
    ensures r.Success? <==>
      && pk in orders.rows
      && (callerIsStaff || orders.rows[pk].createdBy == caller)
      && forall it | it in ItemsOf(items, pk) :: FirstImage(images, it.product).Some?
    ensures r.Success? ==> r.value == orders.rows[pk]
    ensures r.Failure? ==> (r.error == NotAuthorized <==>
      pk in orders.rows && !callerIsStaff && orders.rows[pk].createdBy != caller)
    ensures r.Failure? ==> r.error in {NotAuthorized, OrderDoesNotExist}
  {
    if pk !in orders.rows then Failure(OrderDoesNotExist)
    else if callerIsStaff || orders.rows[pk].createdBy == caller then
      if forall it | it in ItemsOf(items, pk) :: FirstImage(images, it.product).Some?
      then Success(orders.rows[pk])
      else Failure(OrderDoesNotExist)
    else Failure(NotAuthorized)
  }

  // ---------------------------------------------------------------------
  // Payment and delivery

  /** `UpdateOrderToPaidView.put` on one order: paid, at `now`; nothing else
      about the order changes. */
  function Paid(o: Order, now: Timestamp): (r: Order)
    ensures r.isPaid && r.paidAt == Some(now)
    ensures r.(isPaid := o.isPaid, paidAt := o.paidAt) == o
  {
    o.(isPaid := true, paidAt := Some(now))
  }

  /** `UpdateOrderToDeliveredView.put` on one order: delivered, at `now`;
      nothing else about the order changes. */
  function Delivered(o: Order, now: Timestamp): (r: Order)
    ensures r.isDelivered && r.deliveredAt == Some(now)
    ensures r.(isDelivered := o.isDelivered, deliveredAt := o.deliveredAt) == o
  {
    o.(isDelivered := true, deliveredAt := Some(now))
  }
}
