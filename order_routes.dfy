/** The order routes of the API (server/src/routes/order.routes.js) over an
    in-memory store: the product catalogue and the order collection are
    fields of one object, updated in place as the route updates its
    documents. Authentication and the admin check are assumed to have
    passed; the notification mails sent after an order is created are not
    part of this model (their failures are caught and never change the
    response). */
module OrderRoutes {
  import opened Common
  import opened OrderStatus
  import opened OrderPlacement

  type OrderId = nat
  type UserId = string

  /** The shipping address as submitted; it is stored without checks. */
  datatype Address = Address(fullName: string, address: string, postalCode: string, city: string, country: string)

  datatype Order = Order(
    id: OrderId,
    user: UserId,
    items: seq<LineItem>,
    total: int,
    shippingAddress: Option<Address>,
    status: Status,
    createdAt: int)

  datatype StatusError = OrderNotFound | InvalidStatus

  /** HTTP status code of a failed status update. */
  function StatusErrorCode(e: StatusError): (code: int)
    ensures code == 404 <==> e == OrderNotFound
    ensures code == 400 <==> e == InvalidStatus
  {
    match e
    case OrderNotFound => 404
    case InvalidStatus => 400
  }

  /** The status a request body asks for, if it names one of the five;
      `None` stands for a missing `status` field. */
  function Requested(status: Option<string>): (r: Option<Status>)
    ensures r.Some? <==> status.Some? && status.value in Allowed
    ensures r.Some? ==> Name(r.value) == status.value
  {
    match status
    case None => None
    case Some(s) => Parse(s)
  }

  class OrderApi {
    /** Product documents, keyed by id. */
    var products: Catalog
    /** Order documents, keyed by id. */
    var orders: map<OrderId, Order>
    /** The id the next created order receives. */
    var nextId: OrderId

    /** Stock counts are never negative, and every stored order sits under
        its own id, below `nextId`. */
    ghost predicate Valid()
      reads this
    {
      (forall id :: id in products ==> products[id].countInStock >= 0) &&
      (forall id :: id in orders ==> id < nextId && orders[id].id == id)
    }

    constructor (catalog: Catalog)
      requires forall id :: id in catalog ==> catalog[id].countInStock >= 0
      ensures Valid()
      ensures products == catalog && orders == map[] && nextId == 0
    {
      products := catalog;
      orders := map[];
      nextId := 0;
    }

    /** POST /api/orders (order.routes.js:17-66). `items` is `None` when the
        body's `items` is missing or not an array; `now` is the creation
        time the store stamps on the new order. The catalogue ends as
        `Place` says, including the partial decrements left by a rejection;
        an order, with status pending, is stored only when every item
        passed. */
    method PlaceOrder(user: UserId, items: Option<seq<ItemRequest>>, shippingAddress: Option<Address>, now: int)
      returns (r: Result<Order, PlaceError>)
      requires Valid()
      modifies this
      ensures Valid()
      ensures products == Place(old(products), items).catalog
      ensures Place(old(products), items).Stopped? ==>
                r == Failure(Place(old(products), items).error) &&
                orders == old(orders) && nextId == old(nextId)
      ensures Place(old(products), items).Placed? ==>
                var placed := Place(old(products), items);
                r == Success(Order(old(nextId), user, placed.lines, placed.total, shippingAddress, Pending, now)) &&
                old(nextId) !in old(orders) &&
                orders == old(orders)[old(nextId) := r.value] && nextId == old(nextId) + 1
    {
      if items.None? || |items.value| == 0 {
        return Failure(NoOrderItems);
      }
      var list := items.value;
      var orderItems: seq<LineItem> := [];
      var total := 0;
      ghost var outcome := Run(products, list, [], 0);
      RunKeepsStockNonNegative(products, list, [], 0);
      var i := 0;
      while i < |list|
        invariant 0 <= i <= |list|
        invariant Run(products, list[i..], orderItems, total) == outcome
        invariant orders == old(orders) && nextId == old(nextId)
      {
        var it := list[i];
        assert list[i..][0] == it && list[i..][1..] == list[i + 1..];
        if it.product !in products {
          r := Failure(ProductNotFound(it.product));
          return;
        }
        var p := products[it.product];
        if p.countInStock < it.qty {
          r := Failure(NotEnoughStock(p.name));
          return;
        }
        RunStep(products, list[i..], orderItems, total);
        ghost var taken := Take(products, it);
        total := total + p.price * it.qty;
        orderItems := orderItems + [LineItem(it.product, p.name, p.image, it.qty, p.price, it.size, it.color)];
        products := products[it.product := p.(countInStock := p.countInStock - it.qty)];
        assert products == taken && orderItems[|orderItems| - 1] == Snapshot(it, p);
        i := i + 1;
      }
      var order := Order(nextId, user, orderItems, total, shippingAddress, Pending, now);
      orders := orders[nextId := order];
      nextId := nextId + 1;
      r := Success(order);
    }

    /** PATCH /api/orders/:id/status (order.routes.js:166-187). The lookup
        comes first, so a missing order is reported whatever status was
        sent; an unknown status leaves the order as it was; an accepted one
        overwrites the status, from any current status, and nothing else. */
    method UpdateStatus(id: OrderId, status: Option<string>) returns (r: Result<Order, StatusError>)
      requires Valid()
      modifies this`orders
      ensures Valid()
      ensures id !in old(orders) ==> r == Failure(OrderNotFound) && orders == old(orders)
      ensures id in old(orders) && Requested(status).None? ==>
                r == Failure(InvalidStatus) && orders == old(orders)
      ensures r.Failure? ==> (StatusErrorCode(r.error) == 404 <==> id !in old(orders))
      ensures r.Failure? ==> (StatusErrorCode(r.error) == 400 <==> id in old(orders) && Requested(status).None?)
      ensures id in old(orders) && Requested(status).Some? ==>
                r == Success(old(orders)[id].(status := Requested(status).value)) &&
                orders == old(orders)[id := r.value]
    {
      if id !in orders {
        return Failure(OrderNotFound);
      }
      var order := orders[id];
      if status.None? || status.value !in Allowed {
        return Failure(InvalidStatus);
      }
      var st := Parse(status.value);
      order := order.(status := st.value);
      orders := orders[id := order];
      r := Success(order);
    }
  }
}
