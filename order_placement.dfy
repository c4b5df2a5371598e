/** Order placement (POST /api/orders, server/src/routes/order.routes.js:17-66),
    stated as a function of the catalogue and the submitted items.

    The route walks the items in list order. For each item it looks the
    product up, rejects a missing product, rejects a stock smaller than the
    requested quantity, snapshots a line item, adds `price * qty` to the
    running total and decrements that product's stock, persisting the
    decrement at once. The first rejection ends the request: the decrements
    of earlier items stay applied and no order is created. `Run` follows the
    loop step by step; `Decremented`, `Snapshots` and `LinesTotal` describe
    the outcome independently, and the lemmas connect the two. */
module OrderPlacement {
  import opened Common

  type ProductId = string

  /** A catalogue record, as far as order placement reads or writes it.
      Prices are integer cents. */
  datatype Product = Product(name: string, image: string, price: int, countInStock: int)

  type Catalog = map<ProductId, Product>

  /** One submitted cart entry. `qty` is whatever the client sent; the route
      never checks that it is positive. `number` (the shoe number the cart
      carries) is accepted but never copied into the order. */
  datatype ItemRequest = ItemRequest(
    product: ProductId,
    qty: int,
    size: Option<string>,
    color: Option<string>,
    number: Option<string>)

  /** The line item stored in the order: a snapshot of the product at
      purchase time plus the item's own choices. It has no shoe number. */
  datatype LineItem = LineItem(
    product: ProductId,
    name: string,
    image: string,
    qty: int,
    price: int,
    size: Option<string>,
    color: Option<string>)

  datatype PlaceError =
    | NoOrderItems
    | ProductNotFound(id: ProductId)
    | NotEnoughStock(name: string)

  /** The `message` of the 400 response for each rejection. */
  function Message(e: PlaceError): (m: string)
    ensures e.ProductNotFound? ==> |e.id| <= |m| && m[|m| - |e.id|..] == e.id
    ensures e.NotEnoughStock? ==> |e.name| <= |m| && m[|m| - |e.name|..] == e.name
  {
    match e
    case NoOrderItems => "No order items"
    case ProductNotFound(id) => "Product not found: " + id
    case NotEnoughStock(name) => "Not enough stock for " + name
  }

  /** The two per-item checks, in the source's order: existence, then stock. */
  function ItemCheck(c: Catalog, it: ItemRequest): (r: Option<PlaceError>)
    ensures r.None? <==> it.product in c && it.qty <= c[it.product].countInStock
    ensures it.product !in c ==> r == Some(ProductNotFound(it.product))
    ensures it.product in c && c[it.product].countInStock < it.qty ==>
              r == Some(NotEnoughStock(c[it.product].name))
  {
    if it.product !in c then Some(ProductNotFound(it.product))
    else if c[it.product].countInStock < it.qty then Some(NotEnoughStock(c[it.product].name))
    else None
  }

  /** The line item recorded for `it` when its product is `p`. */
  function Snapshot(it: ItemRequest, p: Product): LineItem {
    LineItem(it.product, p.name, p.image, it.qty, p.price, it.size, it.color)
  }

  /** Where the route stands after processing a list of items. */
  datatype Placement =
    | Placed(catalog: Catalog, lines: seq<LineItem>, total: int)
    | Stopped(catalog: Catalog, error: PlaceError)

  /** The loop of order.routes.js:30-59, from the current catalogue and the
      line items and total accumulated so far. */
  function Run(c: Catalog, items: seq<ItemRequest>, lines: seq<LineItem>, total: int): Placement
    decreases |items|
  {
    if items == [] then Placed(c, lines, total)
    else
      var it := items[0];
      match ItemCheck(c, it)
      case Some(e) => Stopped(c, e)
      case None =>
        Run(Take(c, it), items[1..], lines + [Snapshot(it, c[it.product])],
            total + c[it.product].price * it.qty)
  }

  /** The in-place decrement `p.countInStock -= it.qty` of one item. */
  function Take(c: Catalog, it: ItemRequest): Catalog
    requires it.product in c
  {
    c[it.product := c[it.product].(countInStock := c[it.product].countInStock - it.qty)]
  }

  /** The whole handler body up to `Order.create`: `None` stands for a
      missing or non-array `items` field. */
  function Place(c: Catalog, items: Option<seq<ItemRequest>>): Placement {
    if items.None? || |items.value| == 0 then Stopped(c, NoOrderItems)
    else Run(c, items.value, [], 0)
  }

  // ---------------------------------------------------------------------
  // Reference definitions of the outcome

  /** Total quantity requested for product `id` over `items`. */
  function QtyOf(items: seq<ItemRequest>, id: ProductId): int {
    if items == [] then 0
    else (if items[0].product == id then items[0].qty else 0) + QtyOf(items[1..], id)
  }

  /** The catalogue with every product's stock lowered by the quantity the
      items request of it; nothing else about any product changes. */
  function Decremented(c: Catalog, items: seq<ItemRequest>): Catalog {
    map id | id in c :: c[id].(countInStock := c[id].countInStock - QtyOf(items, id))
  }

  /** Every item, checked against the catalogue as it stands after the
      items before it, passes both checks. */
  ghost predicate PrefixPasses(c: Catalog, items: seq<ItemRequest>, k: nat)
    requires k <= |items|
  {
    forall j {:trigger Decremented(c, items[..j])} :: 0 <= j < k ==> ItemCheck(Decremented(c, items[..j]), items[j]).None?
  }

  ghost predicate AllListed(c: Catalog, items: seq<ItemRequest>) {
    forall j :: 0 <= j < |items| ==> items[j].product in c
  }

  /** The line items an all-passing run records, one per item, in order. */
  function Snapshots(c: Catalog, items: seq<ItemRequest>): (r: seq<LineItem>)
    requires AllListed(c, items)
    ensures |r| == |items|
    ensures forall i :: 0 <= i < |items| ==> r[i] == Snapshot(items[i], c[items[i].product])
  {
    if items == [] then [] else [Snapshot(items[0], c[items[0].product])] + Snapshots(c, items[1..])
  }

  /** Sum of unit price times quantity over line items. */
  function LinesTotal(lines: seq<LineItem>): int {
    if lines == [] then 0 else lines[0].price * lines[0].qty + LinesTotal(lines[1..])
  }

  /** Two catalogues that agree on everything except stock counts. */
  ghost predicate SameListing(c: Catalog, d: Catalog) {
    c.Keys == d.Keys &&
    forall id :: id in c ==>
      c[id].name == d[id].name && c[id].image == d[id].image && c[id].price == d[id].price
  }

  // ---------------------------------------------------------------------
  // Lemmas

  /** One passing iteration of the loop. */
  lemma RunStep(c: Catalog, items: seq<ItemRequest>, lines: seq<LineItem>, total: int)
    requires items != [] && ItemCheck(c, items[0]).None?
    ensures var it := items[0]; var p := c[it.product];
      Run(c, items, lines, total) ==
      Run(Take(c, it), items[1..], lines + [Snapshot(it, p)], total + p.price * it.qty)
  {
  }

  lemma {:induction false} QtyOfAppend(a: seq<ItemRequest>, b: seq<ItemRequest>, id: ProductId)
    ensures QtyOf(a + b, id) == QtyOf(a, id) + QtyOf(b, id)
    decreases |a|
  {
    if a == [] {
      assert a + b == b;
    } else {
      assert (a + b)[1..] == a[1..] + b;
      QtyOfAppend(a[1..], b, id);
    }
  }

  /** A product that no item references keeps its stock count. */
  lemma {:induction false} QtyOfUnreferenced(items: seq<ItemRequest>, id: ProductId)
    requires forall j :: 0 <= j < |items| ==> items[j].product != id
    ensures QtyOf(items, id) == 0
    decreases |items|
  {
    if items != [] {
      QtyOfUnreferenced(items[1..], id);
    }
  }

  lemma DecrementedNothing(c: Catalog)
    ensures Decremented(c, []) == c
  {
  }

  /** Decrementing for `a` and then for `b` is decrementing for `a + b`. */
  lemma DecrementedAppend(c: Catalog, a: seq<ItemRequest>, b: seq<ItemRequest>)
    ensures Decremented(Decremented(c, a), b) == Decremented(c, a + b)
  {
    forall id | id in c {
      QtyOfAppend(a, b, id);
    }
  }

  /** One loop step's in-place update is `Decremented` for that one item. */
  lemma DecrementedOne(c: Catalog, it: ItemRequest)
    requires it.product in c
    ensures Decremented(c, [it]) == Take(c, it)
  {
    assert forall id :: QtyOf([it], id) == (if it.product == id then it.qty else 0) + QtyOf([], id);
  }

  lemma {:induction false} SnapshotsSameListing(c: Catalog, d: Catalog, items: seq<ItemRequest>)
    requires SameListing(c, d) && AllListed(c, items)
    ensures AllListed(d, items) && Snapshots(c, items) == Snapshots(d, items)
  {
    // Snapshot reads only name, image and price
  }

  /** The stock the first item leaves, followed by the next `j` items, is
      the stock the first `j + 1` items leave. */
  lemma ShiftDecremented(c: Catalog, items: seq<ItemRequest>, j: nat)
    requires j < |items| && items[0].product in c
    ensures Decremented(Take(c, items[0]), items[1..][..j]) == Decremented(c, items[..j + 1])
  {
    DecrementedOne(c, items[0]);
    assert [items[0]] + items[1..][..j] == items[..j + 1];
    DecrementedAppend(c, [items[0]], items[1..][..j]);
  }

  /** After the first item passes, the remaining items pass against the
      catalogue that item left behind exactly when they passed before. */
  lemma ShiftPasses(c: Catalog, items: seq<ItemRequest>, k: nat)
    requires 1 <= k <= |items|
    requires items[0].product in c
    ensures PrefixPasses(c, items, k) <==>
            (ItemCheck(c, items[0]).None? && PrefixPasses(Take(c, items[0]), items[1..], k - 1))
  {
    if PrefixPasses(c, items, k) {
      ShiftPassesOut(c, items, k);
    }
    if ItemCheck(c, items[0]).None? && PrefixPasses(Take(c, items[0]), items[1..], k - 1) {
      ShiftPassesIn(c, items, k);
    }
  }

  lemma ShiftPassesOut(c: Catalog, items: seq<ItemRequest>, k: nat)
    requires 1 <= k <= |items| && items[0].product in c
    requires PrefixPasses(c, items, k)
    ensures ItemCheck(c, items[0]).None? && PrefixPasses(Take(c, items[0]), items[1..], k - 1)
  {
    var c1, rest := Take(c, items[0]), items[1..];
    assert items[..0] == [];
    DecrementedNothing(c);
    assert ItemCheck(Decremented(c, items[..0]), items[0]).None?;
    forall j | 0 <= j < k - 1
      ensures ItemCheck(Decremented(c1, rest[..j]), rest[j]).None?
    {
      ShiftDecremented(c, items, j);
      assert ItemCheck(Decremented(c, items[..j + 1]), items[j + 1]).None?;
    }
  }

  lemma ShiftPassesIn(c: Catalog, items: seq<ItemRequest>, k: nat)
    requires 1 <= k <= |items| && items[0].product in c
    requires ItemCheck(c, items[0]).None? && PrefixPasses(Take(c, items[0]), items[1..], k - 1)
    ensures PrefixPasses(c, items, k)
  {
    var c1, rest := Take(c, items[0]), items[1..];
    forall j | 0 <= j < k
      ensures ItemCheck(Decremented(c, items[..j]), items[j]).None?
    {
      if j == 0 {
        assert items[..0] == [];
        DecrementedNothing(c);
      } else {
        ShiftDecremented(c, items, j - 1);
        assert ItemCheck(Decremented(c1, rest[..j - 1]), rest[j - 1]).None?;
      }
    }
  }

  /** A first item that fails makes the whole list fail. */
  lemma FirstFails(c: Catalog, items: seq<ItemRequest>)
    requires items != [] && ItemCheck(c, items[0]).Some?
    ensures !PrefixPasses(c, items, |items|)
    ensures PrefixPasses(c, items, 0) && ItemCheck(Decremented(c, items[..0]), items[0]).Some?
  {
    assert items[..0] == [];
    DecrementedNothing(c);
  }

  /** One failing iteration of the loop: the early return. */
  lemma RunHalts(c: Catalog, items: seq<ItemRequest>, lines: seq<LineItem>, total: int)
    requires items != [] && ItemCheck(c, items[0]).Some?
    ensures Run(c, items, lines, total) == Stopped(c, ItemCheck(c, items[0]).value)
  {
  }

  /** Every item of an all-passing prefix references a listed product. */
  lemma PassesListed(c: Catalog, items: seq<ItemRequest>, k: nat)
    requires k <= |items| && PrefixPasses(c, items, k)
    ensures AllListed(c, items[..k])
  {
    forall j | 0 <= j < k
      ensures items[j].product in c
    {
      assert ItemCheck(Decremented(c, items[..j]), items[j]).None?;
    }
  }

  /** When every item passes, the run ends with each product's stock lowered
      by exactly the quantity requested of it, with one snapshot per item in
      list order, and with the total grown by the sum of price times
      quantity. */
  lemma {:induction false} RunSucceeds(c: Catalog, items: seq<ItemRequest>, lines: seq<LineItem>, total: int)
    requires PrefixPasses(c, items, |items|)
    ensures AllListed(c, items)
    ensures Run(c, items, lines, total) ==
            Placed(Decremented(c, items), lines + Snapshots(c, items),
                   total + LinesTotal(Snapshots(c, items)))
    decreases |items|
  {
    PassesListed(c, items, |items|);
    assert items[..|items|] == items;
    if items == [] {
      DecrementedNothing(c);
      assert lines + [] == lines;
    } else {
      var it, rest := items[0], items[1..];
      var p := c[it.product];
      var c1 := Take(c, it);
      PassingStep(c, items);
      RunStep(c, items, lines, total);
      RunSucceeds(c1, rest, lines + [Snapshot(it, p)], total + p.price * it.qty);
      PlacedCons(c, c1, items, lines, total);
      var r1 := Run(c1, rest, lines + [Snapshot(it, p)], total + p.price * it.qty);
      assert Run(c, items, lines, total) == r1;
      assert r1 == Placed(Decremented(c1, rest), (lines + [Snapshot(it, p)]) + Snapshots(c1, rest),
                          total + p.price * it.qty + LinesTotal(Snapshots(c1, rest)));
    }
  }

  /** What one passing first item leaves for the rest of an all-passing run. */
  lemma PassingStep(c: Catalog, items: seq<ItemRequest>)
    requires items != [] && PrefixPasses(c, items, |items|)
    ensures ItemCheck(c, items[0]).None?
    ensures PrefixPasses(Take(c, items[0]), items[1..], |items| - 1)
    ensures Decremented(Take(c, items[0]), items[1..]) == Decremented(c, items)
    ensures SameListing(Take(c, items[0]), c)
  {
    var it := items[0];
    DecrementedNothing(c);
    assert items[..0] == [];
    ShiftPasses(c, items, |items|);
    DecrementedOne(c, it);
    assert items[1..][..|items| - 1] == items[1..];
    DecrementedAppend(c, [it], items[1..]);
    assert [it] + items[1..] == items;
  }

  /** The result the rest of the run reaches is the result the whole run
      promises: the first item's snapshot and line total are prepended. */
  lemma PlacedCons(c: Catalog, c1: Catalog, items: seq<ItemRequest>, lines: seq<LineItem>, total: int)
    requires items != [] && AllListed(c, items) && SameListing(c1, c)
    requires Decremented(c1, items[1..]) == Decremented(c, items)
    ensures AllListed(c1, items[1..])
    ensures var it := items[0]; var p := c[it.product];
      Placed(Decremented(c1, items[1..]), (lines + [Snapshot(it, p)]) + Snapshots(c1, items[1..]),
             total + p.price * it.qty + LinesTotal(Snapshots(c1, items[1..]))) ==
      Placed(Decremented(c, items), lines + Snapshots(c, items), total + LinesTotal(Snapshots(c, items)))
  {
    SnapshotsCons(c, c1, items);
    var it := items[0];
    assert (lines + [Snapshot(it, c[it.product])]) + Snapshots(c, items[1..]) == lines + Snapshots(c, items);
  }

  /** The snapshots and their total, split at the first item; the first
      item's own decrement does not change what later items snapshot. */
  lemma SnapshotsCons(c: Catalog, c1: Catalog, items: seq<ItemRequest>)
    requires items != [] && AllListed(c, items) && SameListing(c1, c)
    ensures AllListed(c1, items[1..])
    ensures Snapshots(c1, items[1..]) == Snapshots(c, items[1..])
    ensures Snapshots(c, items) == [Snapshot(items[0], c[items[0].product])] + Snapshots(c, items[1..])
    ensures LinesTotal(Snapshots(c, items)) ==
            c[items[0].product].price * items[0].qty + LinesTotal(Snapshots(c, items[1..]))
  {
    SnapshotsSameListing(c, c1, items[1..]);
    var tail := Snapshots(c, items[1..]);
    assert ([Snapshot(items[0], c[items[0].product])] + tail)[1..] == tail;
  }

  /** When the items before index `k` pass and item `k` fails, the run stops
      with item `k`'s error (naming the missing id or the product short of
      stock) and with only the items before `k` decremented; later items are
      never looked at. */
  lemma {:induction false} RunStops(c: Catalog, items: seq<ItemRequest>, lines: seq<LineItem>, total: int, k: nat)
    requires k < |items| && PrefixPasses(c, items, k)
    requires ItemCheck(Decremented(c, items[..k]), items[k]).Some?
    ensures Run(c, items, lines, total) ==
            Stopped(Decremented(c, items[..k]), ItemCheck(Decremented(c, items[..k]), items[k]).value)
    decreases k
  {
    assert items[..0] == [];
    DecrementedNothing(c);
    if k == 0 {
      RunHalts(c, items, lines, total);
    } else {
      var it := items[0];
      var p := c[it.product];
      ShiftPasses(c, items, k);
      RunStep(c, items, lines, total);
      var c1, rest := Take(c, it), items[1..];
      ShiftDecremented(c, items, k - 1);
      assert rest[k - 1] == items[k];
      var e := ItemCheck(Decremented(c, items[..k]), items[k]);
      assert PrefixPasses(c1, rest, k - 1);
      assert ItemCheck(Decremented(c1, rest[..k - 1]), rest[k - 1]) == e;
      RunStops(c1, rest, lines + [Snapshot(it, p)], total + p.price * it.qty, k - 1);
      assert Run(c1, rest, lines + [Snapshot(it, p)], total + p.price * it.qty) ==
             Stopped(Decremented(c, items[..k]), e.value);
    }
  }

  /** A run is placed exactly when every item passes its checks against the
      catalogue as the earlier items left it. */
  lemma {:induction false} RunPlacedIff(c: Catalog, items: seq<ItemRequest>, lines: seq<LineItem>, total: int)
    ensures Run(c, items, lines, total).Placed? <==> PrefixPasses(c, items, |items|)
    decreases |items|
  {
    if items != [] {
      var it := items[0];
      if ItemCheck(c, it).Some? {
        RunHalts(c, items, lines, total);
        FirstFails(c, items);
      } else {
        var p := c[it.product];
        RunStep(c, items, lines, total);
        ShiftPasses(c, items, |items|);
        RunPlacedIff(Take(c, it), items[1..], lines + [Snapshot(it, p)], total + p.price * it.qty);
      }
    }
  }

  /** A stopped run stopped at some item `k` that failed while every item
      before it passed. */
  lemma {:induction false} RunStoppedSomewhere(c: Catalog, items: seq<ItemRequest>, lines: seq<LineItem>, total: int)
    requires Run(c, items, lines, total).Stopped?
    ensures exists k :: 0 <= k < |items| && PrefixPasses(c, items, k) &&
                        ItemCheck(Decremented(c, items[..k]), items[k]).Some?
    decreases |items|
  {
    var it := items[0];
    if ItemCheck(c, it).Some? {
      FirstFails(c, items);
    } else {
      var p := c[it.product];
      var c1 := Take(c, it);
      RunStep(c, items, lines, total);
      RunStoppedSomewhere(c1, items[1..], lines + [Snapshot(it, p)], total + p.price * it.qty);
      var k :| 0 <= k < |items| - 1 && PrefixPasses(c1, items[1..], k) &&
               ItemCheck(Decremented(c1, items[1..][..k]), items[1..][k]).Some?;
      ShiftPasses(c, items, k + 1);
      ShiftDecremented(c, items, k);
      assert items[1..][k] == items[k + 1];
      assert ItemCheck(Decremented(c, items[..k + 1]), items[k + 1]).Some?;
    }
  }

  /** Stock never goes negative: whatever the quantities (negative ones
      included), a passing check leaves `stock - qty >= 0`. */
  lemma {:induction false} RunKeepsStockNonNegative(c: Catalog, items: seq<ItemRequest>, lines: seq<LineItem>, total: int)
    requires forall id :: id in c ==> c[id].countInStock >= 0
    ensures var d := Run(c, items, lines, total).catalog;
      forall id :: id in d ==> d[id].countInStock >= 0
    decreases |items|
  {
    if items != [] && ItemCheck(c, items[0]).None? {
      var it := items[0];
      var p := c[it.product];
      RunStep(c, items, lines, total);
      RunKeepsStockNonNegative(Take(c, it), items[1..],
                               lines + [Snapshot(it, p)], total + p.price * it.qty);
    }
  }

  /** Placement never adds or removes products and never changes a
      product's name, image or price; only stock counts move. */
  lemma {:induction false} RunKeepsListing(c: Catalog, items: seq<ItemRequest>, lines: seq<LineItem>, total: int)
    ensures SameListing(Run(c, items, lines, total).catalog, c)
    decreases |items|
  {
    if items != [] && ItemCheck(c, items[0]).None? {
      var it := items[0];
      var p := c[it.product];
      RunKeepsListing(Take(c, it), items[1..],
                      lines + [Snapshot(it, p)], total + p.price * it.qty);
    }
  }

  /** The order-placement outcome in full. A missing or empty item list is
      rejected with nothing changed. Otherwise the order is placed exactly
      when every item passes, in list order, against the stock the earlier
      items left; then each product's stock drops by the quantity requested
      of it (products not referenced keep theirs), there is one snapshot
      line per item, and the total is the sum of price times quantity. On a
      rejection at item `k`, the items before `k` stay decremented and the
      error is item `k`'s. */
  lemma PlaceOutcome(c: Catalog, items: Option<seq<ItemRequest>>)
    ensures items.None? || items.value == [] ==> Place(c, items) == Stopped(c, NoOrderItems)
    ensures items.Some? && items.value != [] ==>
      (Place(c, items).Placed? <==> PrefixPasses(c, items.value, |items.value|))
    ensures items.Some? && Place(c, items).Placed? ==>
      AllListed(c, items.value) &&
      var lines := Snapshots(c, items.value);
      Place(c, items) == Placed(Decremented(c, items.value), lines, LinesTotal(lines))
    ensures items.Some? && items.value != [] && Place(c, items).Stopped? ==>
      exists k :: 0 <= k < |items.value| && PrefixPasses(c, items.value, k) &&
        var e := ItemCheck(Decremented(c, items.value[..k]), items.value[k]);
        e.Some? && Place(c, items) == Stopped(Decremented(c, items.value[..k]), e.value)
  {
    if items.Some? && items.value != [] {
      var s := items.value;
      RunPlacedIff(c, s, [], 0);
      if Run(c, s, [], 0).Placed? {
        RunSucceeds(c, s, [], 0);
      } else {
        RunStoppedSomewhere(c, s, [], 0);
        var k :| 0 <= k < |s| && PrefixPasses(c, s, k) && ItemCheck(Decremented(c, s[..k]), s[k]).Some?;
        RunStops(c, s, [], 0, k);
      }
    }
  }

  /** `Decremented` leaves a product untouched unless some item names it. */
  lemma DecrementedUnreferenced(c: Catalog, items: seq<ItemRequest>, id: ProductId)
    requires id in c
    requires forall j :: 0 <= j < |items| ==> items[j].product != id
    ensures id in Decremented(c, items) && Decremented(c, items)[id] == c[id]
  {
    QtyOfUnreferenced(items, id);
  }

  /** A negative quantity passes the stock check, raises the stock and
      lowers the total: the route does not validate `qty`. */
  lemma NegativeQuantityRestocks()
    ensures var c := map["tee" := Product("Tee", "tee.png", 1500, 0)];
      var items := [ItemRequest("tee", -2, None, None, None)];
      Place(c, Some(items)) ==
        Placed(map["tee" := Product("Tee", "tee.png", 1500, 2)],
               [LineItem("tee", "Tee", "tee.png", -2, 1500, None, None)], -3000)
  {
  }
}
