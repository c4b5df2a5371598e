/** The variant rule of the product page (client/src/pages/Product.jsx):
    which option pickers a product shows, the quantity choices, the in-stock
    flag, and what pressing "add to cart" does with the shopper's picks —
    reject with a prompt, or dispatch one cart line. */
module ProductPage {
  import opened Common

  /** The fields of a product document the page reads. A field that is
      missing or not an array is `None`; `countInStock` is `None` also when
      it is null or not a number. */
  datatype CatalogProduct = CatalogProduct(
    id: string,
    name: string,
    category: Option<string>,
    sizes: Option<seq<string>>,
    colors: Option<seq<string>>,
    countInStock: Option<int>)

  /** The page's selection state. An unpicked size, number or colour is the
      empty string, as the page initialises them. */
  datatype Picks = Picks(qty: int, size: string, number: string, color: string)

  /** The payload handed to the cart's `addToCart`; `None` is `null`. */
  datatype CartLine = CartLine(
    product: CatalogProduct,
    qty: int,
    size: Option<string>,
    color: Option<string>,
    number: Option<string>)

  /** The prompt shown instead of adding: "choose a size" or "choose a
      number". */
  datatype Rejection = ChooseSize | ChooseNumber

  datatype AddOutcome = Rejected(reason: Rejection) | Dispatched(line: CartLine)

  predicate IsSneakers(p: CatalogProduct) {
    p.category == Some("sneakers")
  }

  /** The size picker is shown, and a size is required, only for a product
      that is not sneakers and has a non-empty size list. */
  predicate HasSizes(p: CatalogProduct) {
    !IsSneakers(p) && p.sizes.Some? && |p.sizes.value| > 0
  }

  predicate HasColors(p: CatalogProduct) {
    p.colors.Some? && |p.colors.value| > 0
  }

  /** The shoe-number picker is shown, and a number is required, exactly
      for sneakers. */
  predicate ShowNumber(p: CatalogProduct) {
    IsSneakers(p)
  }

  /** `(countInStock || 0) > 0`. */
  predicate InStock(p: CatalogProduct) {
    p.countInStock.GetOr(0) > 0
  }

  /** The shoe numbers offered. */
  const ShoeNumbers: seq<int> := [35, 36, 37, 38, 39, 40, 41, 42, 43, 44, 45]

  /** The shoe numbers are exactly 35 to 45, ascending. */
  lemma ShoeNumbersRange()
    ensures |ShoeNumbers| == 11
    ensures forall i :: 0 <= i < |ShoeNumbers| ==> ShoeNumbers[i] == 35 + i
    ensures forall n :: n in ShoeNumbers <==> 35 <= n <= 45
  {
  }

  /** `Array.from({length: n})` indexed from one: `[1, …, n]`, empty when
      `n` is not positive. */
  function OneTo(n: int): seq<int> {
    if n <= 0 then [] else seq(n, i => i + 1)
  }

  /** The quantity choices `1..min(10, countInStock || 10)`: a missing or
      zero stock offers ten, a positive one at most ten and at most the
      stock, a negative one none. */
  function QtyOptions(p: CatalogProduct): (r: seq<int>)
    ensures |r| <= 10
    ensures forall i :: 0 <= i < |r| ==> r[i] == i + 1
    ensures p.countInStock.GetOr(0) == 0 ==> |r| == 10
    ensures p.countInStock.GetOr(0) > 0 ==>
              |r| <= p.countInStock.value && (|r| == 10 || |r| == p.countInStock.value)
    ensures p.countInStock.GetOr(0) < 0 ==> r == []
  {
    var stock := p.countInStock.GetOr(0);
    OneTo(if stock == 0 then 10 else if stock < 10 then stock else 10)
  }

  /** The quantity-select handler's `Number(value) || 1`, with `None` for
      `NaN`: zero and `NaN` become one. */
  function SelectedQty(value: Option<int>): (q: int)
    ensures q != 0
    ensures value.Some? && value.value != 0 ==> q == value.value
    ensures value.None? || value == Some(0) ==> q == 1
  {
    match value
    case None => 1
    case Some(n) => if n == 0 then 1 else n
  }

  /** Every quantity offered is kept as chosen. */
  lemma QtyChoiceKept(p: CatalogProduct, i: int)
    requires 0 <= i < |QtyOptions(p)|
    ensures SelectedQty(Some(QtyOptions(p)[i])) == i + 1
    ensures 1 <= SelectedQty(Some(QtyOptions(p)[i])) <= 10
  {
  }

  /** `x || null` on a string. */
  function OrNull(s: string): (r: Option<string>)
    ensures r.None? <==> s == ""
    ensures r.Some? ==> r.value == s
  {
    if s == "" then None else Some(s)
  }

  /** `handleAddToCart`: the size check comes first, then the number
      check; otherwise one line is dispatched carrying the product, the
      picked quantity, the size only when the product has sizes, the number
      only for sneakers and the colour only when one was picked. */
  function HandleAddToCart(p: CatalogProduct, picks: Picks): (r: AddOutcome)
    ensures r == Rejected(ChooseSize) <==> HasSizes(p) && picks.size == ""
    ensures r == Rejected(ChooseNumber) <==>
              !(HasSizes(p) && picks.size == "") && IsSneakers(p) && picks.number == ""
    ensures r.Dispatched? <==>
              !(HasSizes(p) && picks.size == "") && !(IsSneakers(p) && picks.number == "")
    ensures r.Dispatched? ==>
              var line := r.line;
              line.product == p && line.qty == picks.qty &&
              (line.size.Some? <==> HasSizes(p)) && (line.size.Some? ==> line.size.value == picks.size) &&
              (line.number.Some? <==> IsSneakers(p)) && (line.number.Some? ==> line.number.value == picks.number) &&
              (line.color.None? <==> picks.color == "") && (line.color.Some? ==> line.color.value == picks.color)
  {
    if HasSizes(p) && picks.size == "" then Rejected(ChooseSize)
    else if ShowNumber(p) && picks.number == "" then Rejected(ChooseNumber)
    else
      Dispatched(CartLine(
        p,
        picks.qty,
        if HasSizes(p) then OrNull(picks.size) else None,
        OrNull(picks.color),
        if ShowNumber(p) then OrNull(picks.number) else None))
  }

  /** Sneakers never ask for a size and always ask for a number; any other
      product never asks for a number. */
  lemma SneakersRule(p: CatalogProduct, picks: Picks)
    ensures IsSneakers(p) ==> !HasSizes(p) && ShowNumber(p)
    ensures IsSneakers(p) ==> HandleAddToCart(p, picks) != Rejected(ChooseSize)
    ensures IsSneakers(p) && picks.number == "" ==> HandleAddToCart(p, picks) == Rejected(ChooseNumber)
    ensures !IsSneakers(p) ==> HandleAddToCart(p, picks) != Rejected(ChooseNumber)
    ensures HandleAddToCart(p, picks).Dispatched? ==>
              HandleAddToCart(p, picks).line.size.None? || HandleAddToCart(p, picks).line.number.None?
  {
  }

  /** What the page shows for a loaded product: the size chips, the shoe
      numbers, the colour chips, the quantity choices, and whether the add
      button is enabled. */
  datatype View = View(
    sizeChoices: seq<string>,
    numberChoices: seq<int>,
    colorChoices: seq<string>,
    qtyChoices: seq<int>,
    addEnabled: bool)

  function Render(p: CatalogProduct): (v: View)
    ensures v.sizeChoices != [] <==> HasSizes(p)
    ensures HasSizes(p) ==> v.sizeChoices == p.sizes.value
    ensures v.numberChoices == (if IsSneakers(p) then ShoeNumbers else [])
    ensures v.colorChoices != [] <==> HasColors(p)
    ensures HasColors(p) ==> v.colorChoices == p.colors.value
    ensures v.qtyChoices == QtyOptions(p)
    ensures v.addEnabled <==> p.countInStock.Some? && p.countInStock.value > 0
  {
    View(
      if HasSizes(p) then p.sizes.value else [],
      if ShowNumber(p) then ShoeNumbers else [],
      if HasColors(p) then p.colors.value else [],
      QtyOptions(p),
      InStock(p))
  }

  /** A press of the add button: a disabled button (product out of stock)
      does nothing, an enabled one runs `handleAddToCart`. */
  function ClickAdd(p: CatalogProduct, picks: Picks): (r: Option<AddOutcome>)
    ensures r.None? <==> p.countInStock.GetOr(0) <= 0
    ensures r.Some? ==> r.value == HandleAddToCart(p, picks)
  {
    if Render(p).addEnabled then Some(HandleAddToCart(p, picks)) else None
  }
}
