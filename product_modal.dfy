/** The quick-view modal of a product
    (client/src/components/ProductModal.jsx). It repeats the product page's
    variant rule line for line; the rule is written out again here as the
    modal states it, and proved equal to the page's. */
module ProductModal {
  import opened Common
  import Page = ProductPage

  /** The modal's props; `None` is a missing product. */
  datatype Props = Props(open: bool, product: Option<Page.CatalogProduct>)

  predicate IsSneakers(p: Page.CatalogProduct) {
    p.category == Some("sneakers")
  }

  predicate HasSizes(p: Page.CatalogProduct) {
    !IsSneakers(p) && p.sizes.Some? && |p.sizes.value| > 0
  }

  predicate HasColors(p: Page.CatalogProduct) {
    p.colors.Some? && |p.colors.value| > 0
  }

  predicate ShowNumber(p: Page.CatalogProduct) {
    IsSneakers(p)
  }

  predicate InStock(p: Page.CatalogProduct) {
    p.countInStock.GetOr(0) > 0
  }

  const ShoeNumbers: seq<int> := [35, 36, 37, 38, 39, 40, 41, 42, 43, 44, 45]

  function QtyOptions(p: Page.CatalogProduct): seq<int> {
    var stock := p.countInStock.GetOr(0);
    Page.OneTo(if stock == 0 then 10 else if stock < 10 then stock else 10)
  }

  function HandleAddToCart(p: Page.CatalogProduct, picks: Page.Picks): Page.AddOutcome {
    if HasSizes(p) && picks.size == "" then Page.Rejected(Page.ChooseSize)
    else if ShowNumber(p) && picks.number == "" then Page.Rejected(Page.ChooseNumber)
    else
      Page.Dispatched(Page.CartLine(
        p,
        picks.qty,
        if HasSizes(p) then Page.OrNull(picks.size) else None,
        Page.OrNull(picks.color),
        if ShowNumber(p) then Page.OrNull(picks.number) else None))
  }

  /** The modal's rule is the page's rule: the same flags, shoe numbers,
      quantity choices and add-to-cart outcome for every product and every
      set of picks. */
  lemma SameRuleAsPage(p: Page.CatalogProduct, picks: Page.Picks)
    ensures IsSneakers(p) == Page.IsSneakers(p) && HasSizes(p) == Page.HasSizes(p)
    ensures HasColors(p) == Page.HasColors(p) && ShowNumber(p) == Page.ShowNumber(p)
    ensures InStock(p) == Page.InStock(p)
    ensures ShoeNumbers == Page.ShoeNumbers && QtyOptions(p) == Page.QtyOptions(p)
    ensures HandleAddToCart(p, picks) == Page.HandleAddToCart(p, picks)
  {
  }

  /** The modal's content; nothing is rendered when it is closed or has no
      product, and otherwise it offers what the product page offers. */
  function Render(props: Props): (r: Option<Page.View>)
    ensures r.None? <==> !props.open || props.product.None?
    ensures r.Some? ==> r.value == Page.Render(props.product.value)
  {
    if !props.open || props.product.None? then None
    else
      var p := props.product.value;
      SameRuleAsPage(p, Page.Picks(1, "", "", ""));
      Some(Page.View(
        if HasSizes(p) then p.sizes.value else [],
        if ShowNumber(p) then ShoeNumbers else [],
        if HasColors(p) then p.colors.value else [],
        QtyOptions(p),
        InStock(p)))
  }

  /** A press of the modal's add button: nothing when the modal is not
      rendered or the button is disabled, otherwise the page's add-to-cart
      outcome. */
  function ClickAdd(props: Props, picks: Page.Picks): (r: Option<Page.AddOutcome>)
    ensures r.None? <==> !props.open || props.product.None? || props.product.value.countInStock.GetOr(0) <= 0
    ensures r.Some? ==> r.value == Page.HandleAddToCart(props.product.value, picks)
  {
    match Render(props)
    case None => None
    case Some(view) =>
      SameRuleAsPage(props.product.value, picks);
      if view.addEnabled then Some(HandleAddToCart(props.product.value, picks)) else None
  }
}
