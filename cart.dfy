/**
 * The cart composer, `fbt_ajax_add_all_to_cart`: walks the posted batch in
 * order, resolves each entry to a line item, adds it to the session cart
 * and then picks one outcome, `variation_required` first.
 */
module CartComposer {

  import opened Storefront
  import VariationResolver

  /** The posted `product_data`, already decoded (undecodable JSON decodes to
      an empty batch). */
  datatype Request = NoProductData | ProductData(batch: seq<Entry>)

  /** One `add_to_cart(product_id, quantity, variation_id, variations)` call. */
  datatype CartLine = CartLine(productId: ProductId, quantity: nat, variationId: int, variations: Selection)

  /** `WC()->cart->add_to_cart` succeeds or fails depending on the cart it
      is given and the line asked for (stock, purchasability, ...). */
  type AddOracle = (seq<CartLine>, CartLine) -> bool

  datatype FailureKind = Generic | VariationRequired

  /** The JSON reply: success with the number of lines added, or an error. */
  datatype Response =
    | Success(addedCount: nat)
    | Failure(message: string, kind: FailureKind)

  const NoDataMessage := "No product data received"
  const InvalidDataMessage := "Invalid product data"
  const VariationRequiredMessage := "Please select variations for all products before adding to cart"
  const FailedMessage := "Failed to add products to cart"

  /** The session cart, which the composer appends to. */
  class Cart {
    var lines: seq<CartLine>

    constructor (initial: seq<CartLine>)
      ensures lines == initial
    {
      lines := initial;
    }

    /** `add_to_cart`: the line is appended exactly when the oracle accepts it. */
    method AddToCart(line: CartLine, accepts: AddOracle) returns (added: bool)
      modifies this
      ensures added == accepts(old(lines), line)
      ensures lines == if added then old(lines) + [line] else old(lines)
    {
      added := accepts(lines, line);
      if added {
        lines := lines + [line];
      }
    }
  }

  /** What the loop body does with one entry. */
  datatype Action = Skip | FlagUnselected | TryAdd(line: CartLine)

  /** The per-entry decision: a product that cannot be found is skipped; a
      variable product with no selection raises the flag; a variable product
      the resolver cannot match is skipped; anything else is tried once. */
  function EntryAction(e: Entry, catalog: Catalog, ops: TextOps): (a: Action)
    ensures a.FlagUnselected? <==>
      e.productId in catalog && catalog[e.productId].Variable? && |e.variations| == 0
    ensures a.Skip? <==>
      e.productId !in catalog ||
      (catalog[e.productId].Variable? && |e.variations| > 0 &&
       VariationResolver.Resolve(catalog, e.productId, e.variations, ops) == 0)
    ensures a.TryAdd? ==>
      a.line.productId == e.productId && a.line.quantity == 1 && a.line.variations == e.variations &&
      e.productId in catalog &&
      (if catalog[e.productId].Variable?
       then a.line.variationId != 0 &&
            a.line.variationId == VariationResolver.Resolve(catalog, e.productId, e.variations, ops)
       else a.line.variationId == 0)
  {
    if e.productId !in catalog then Skip
    else if catalog[e.productId].Variable? then
      if |e.variations| == 0 then FlagUnselected
      else
        var variationId := VariationResolver.Resolve(catalog, e.productId, e.variations, ops);
        if variationId == 0 then Skip
        else TryAdd(CartLine(e.productId, 1, variationId, e.variations))
    else TryAdd(CartLine(e.productId, 1, 0, e.variations))
  }

  /** The loop's variables: the cart, `$added_count`, `$has_unselected_variations`. */
  datatype State = State(cart: seq<CartLine>, added: nat, unselected: bool)

  function Step(st: State, e: Entry, catalog: Catalog, ops: TextOps, accepts: AddOracle): State
  {
    match EntryAction(e, catalog, ops)
    case Skip => st
    case FlagUnselected => st.(unselected := true)
    case TryAdd(line) =>
      if accepts(st.cart, line) then st.(cart := st.cart + [line], added := st.added + 1) else st
  }

  /** The whole loop as a left fold over the batch. */
  function Compose(batch: seq<Entry>, st: State, catalog: Catalog, ops: TextOps, accepts: AddOracle): State
    decreases |batch|
  {
    if batch == [] then st
    else Compose(batch[1..], Step(st, batch[0], catalog, ops, accepts), catalog, ops, accepts)
  }

  /** The post-loop rule: an unselected variation outranks any success. */
  function Decide(st: State): (r: Response)
    ensures r.Failure? && r.kind == VariationRequired <==> st.unselected
    ensures r.Success? <==> !st.unselected && st.added > 0
    ensures r.Success? ==> r.addedCount == st.added
    ensures r.Failure? && r.kind == Generic ==> r.message == FailedMessage && st.added == 0
  {
    if st.unselected then Failure(VariationRequiredMessage, VariationRequired)
    else if st.added > 0 then Success(st.added)
    else Failure(FailedMessage, Generic)
  }

  datatype Outcome = Outcome(cart: seq<CartLine>, response: Response)

  /** The handler as a function of the cart it starts from. A missing or
      empty batch is rejected before anything is touched. */
  function HandleAddAll(cart: seq<CartLine>, request: Request, catalog: Catalog, ops: TextOps, accepts: AddOracle): (o: Outcome)
    ensures request.NoProductData? ==> o == Outcome(cart, Failure(NoDataMessage, Generic))
    ensures request.ProductData? && |request.batch| == 0 ==> o == Outcome(cart, Failure(InvalidDataMessage, Generic))
  {
    match request
    case NoProductData => Outcome(cart, Failure(NoDataMessage, Generic))
    case ProductData(batch) =>
      if |batch| == 0 then Outcome(cart, Failure(InvalidDataMessage, Generic))
      else
        var st := Compose(batch, State(cart, 0, false), catalog, ops, accepts);
        Outcome(st.cart, Decide(st))
  }

  /** The handler as the source writes it: a loop that changes the cart in
      place, calling the resolver method and the cart's `AddToCart`. */
  method AddAllToCart(cart: Cart, request: Request, catalog: Catalog, ops: TextOps, accepts: AddOracle)
    returns (response: Response)
    modifies cart
    ensures Outcome(cart.lines, response) == HandleAddAll(old(cart.lines), request, catalog, ops, accepts)
  {
    if request.NoProductData? {
      return Failure(NoDataMessage, Generic);
    }
    var productData := request.batch;
    if |productData| == 0 {
      return Failure(InvalidDataMessage, Generic);
    }
    ghost var final := Compose(productData, State(cart.lines, 0, false), catalog, ops, accepts);
    var addedCount: nat := 0;
    var hasUnselectedVariations := false;
    var i := 0;
    while i < |productData|
      invariant 0 <= i <= |productData|
      invariant Compose(productData[i..], State(cart.lines, addedCount, hasUnselectedVariations), catalog, ops, accepts) == final
    {
      var item := productData[i];
      ghost var before := State(cart.lines, addedCount, hasUnselectedVariations);
      assert productData[i..][1..] == productData[i + 1..];
      i := i + 1;
      if item.productId !in catalog {
        continue;
      }
      var variationId := 0;
      if catalog[item.productId].Variable? {
        if |item.variations| == 0 {
          hasUnselectedVariations := true;
          continue;
        }
        variationId := VariationResolver.FindMatchingVariationId(catalog, item.productId, item.variations, ops);
        if variationId == 0 {
          continue;
        }
      }
      var added := cart.AddToCart(CartLine(item.productId, 1, variationId, item.variations), accepts);
      if added {
        addedCount := addedCount + 1;
      }
      assert State(cart.lines, addedCount, hasUnselectedVariations) == Step(before, item, catalog, ops, accepts);
    }
    if hasUnselectedVariations {
      return Failure(VariationRequiredMessage, VariationRequired);
    }
    if addedCount > 0 {
      return Success(addedCount);
    }
    return Failure(FailedMessage, Generic);
  }

  // ---- Properties of the fold ----

  /** The cart only grows, by exactly one line per successful add, and no
      more lines are added than there are entries. */
  lemma {:induction false} ComposeGrowsCart(batch: seq<Entry>, st: State, catalog: Catalog, ops: TextOps, accepts: AddOracle)
    ensures var r := Compose(batch, st, catalog, ops, accepts);
      st.cart <= r.cart && st.added <= r.added <= st.added + |batch| &&
      |r.cart| == |st.cart| + (r.added - st.added)
    decreases |batch|
  {
    if batch != [] {
      ComposeGrowsCart(batch[1..], Step(st, batch[0], catalog, ops, accepts), catalog, ops, accepts);
    }
  }

  /** An entry naming a variable product with no attribute selection. */
  predicate Unselected(e: Entry, catalog: Catalog)
  {
    e.productId in catalog && catalog[e.productId].Variable? && |e.variations| == 0
  }

  predicate AnyUnselected(batch: seq<Entry>, catalog: Catalog)
  {
    exists k :: 0 <= k < |batch| && Unselected(batch[k], catalog)
  }

  /** The unselected flag ends up set exactly when it was set already or some
      entry names a variable product with an empty selection. */
  lemma {:induction false} ComposeFlagIff(batch: seq<Entry>, st: State, catalog: Catalog, ops: TextOps, accepts: AddOracle)
    ensures Compose(batch, st, catalog, ops, accepts).unselected <==> st.unselected || AnyUnselected(batch, catalog)
    decreases |batch|
  {
    if batch != [] {
      ComposeFlagIff(batch[1..], Step(st, batch[0], catalog, ops, accepts), catalog, ops, accepts);
      if AnyUnselected(batch, catalog) && !Unselected(batch[0], catalog) {
        var k :| 0 <= k < |batch| && Unselected(batch[k], catalog);
        assert batch[1..][k - 1] == batch[k];
      }
      if AnyUnselected(batch[1..], catalog) {
        var k :| 0 <= k < |batch[1..]| && Unselected(batch[1..][k], catalog);
        assert batch[k + 1] == batch[1..][k];
      }
    }
  }

  /** Every line the composer adds is the line some entry of the batch asked
      for: a non-variable product with variation id 0, or a variable product
      with the id its resolver returns. */
  lemma {:induction false} ComposeAddsOnlyRequestedLines(batch: seq<Entry>, st: State, catalog: Catalog, ops: TextOps, accepts: AddOracle)
    ensures var r := Compose(batch, st, catalog, ops, accepts);
      forall n :: |st.cart| <= n < |r.cart| ==>
        exists k :: 0 <= k < |batch| && EntryAction(batch[k], catalog, ops) == TryAdd(r.cart[n])
    decreases |batch|
  {
    if batch != [] {
      var next := Step(st, batch[0], catalog, ops, accepts);
      ComposeAddsOnlyRequestedLines(batch[1..], next, catalog, ops, accepts);
      ComposeGrowsCart(batch[1..], next, catalog, ops, accepts);
      var r := Compose(batch, st, catalog, ops, accepts);
      forall n | |st.cart| <= n < |r.cart|
        ensures exists k :: 0 <= k < |batch| && EntryAction(batch[k], catalog, ops) == TryAdd(r.cart[n])
      {
        if n < |next.cart| {
          assert n == |st.cart| && EntryAction(batch[0], catalog, ops) == TryAdd(r.cart[n]);
        } else {
          var k :| 0 <= k < |batch[1..]| && EntryAction(batch[1..][k], catalog, ops) == TryAdd(r.cart[n]);
          assert batch[k + 1] == batch[1..][k];
        }
      }
    }
  }

  /** When every entry resolves to a line and the cart accepts every line,
      each entry adds exactly one line. */
  lemma {:induction false} ComposeAllResolved(batch: seq<Entry>, st: State, catalog: Catalog, ops: TextOps, accepts: AddOracle)
    requires forall k :: 0 <= k < |batch| ==> EntryAction(batch[k], catalog, ops).TryAdd?
    requires forall c, l :: accepts(c, l)
    ensures var r := Compose(batch, st, catalog, ops, accepts);
      r.added == st.added + |batch| && r.unselected == st.unselected
    decreases |batch|
  {
    if batch != [] {
      assert EntryAction(batch[0], catalog, ops).TryAdd?;
      ComposeAllResolved(batch[1..], Step(st, batch[0], catalog, ops, accepts), catalog, ops, accepts);
    }
  }

  // ---- Properties of the handler ----

  /** The three outcomes of a non-empty batch: `variation_required` exactly
      when some entry is a variable product sent without a selection,
      whatever was added; otherwise success with the number of new cart
      lines when there is one; otherwise the generic failure. */
  lemma AddAllOutcome(cart: seq<CartLine>, batch: seq<Entry>, catalog: Catalog, ops: TextOps, accepts: AddOracle)
    requires |batch| > 0
    ensures var o := HandleAddAll(cart, ProductData(batch), catalog, ops, accepts);
      var flagged := AnyUnselected(batch, catalog);
      cart <= o.cart && |o.cart| - |cart| <= |batch| &&
      (o.response == Failure(VariationRequiredMessage, VariationRequired) <==> flagged) &&
      (o.response.Success? <==> !flagged && |o.cart| > |cart|) &&
      (o.response.Success? ==> o.response.addedCount == |o.cart| - |cart|) &&
      (o.response == Failure(FailedMessage, Generic) <==> !flagged && o.cart == cart)
  {
    var st0 := State(cart, 0, false);
    ComposeGrowsCart(batch, st0, catalog, ops, accepts);
    ComposeFlagIff(batch, st0, catalog, ops, accepts);
  }

  /** A `variation_required` reply does not undo earlier adds: a first entry
      that is a non-variable product the cart accepts stays in the cart even
      though a later entry forces the failure. */
  lemma VariationRequiredKeepsEarlierAdds(cart: seq<CartLine>, batch: seq<Entry>, catalog: Catalog, ops: TextOps, accepts: AddOracle)
    requires |batch| >= 2
    requires batch[0].productId in catalog && catalog[batch[0].productId].NonVariable?
    requires accepts(cart, CartLine(batch[0].productId, 1, 0, batch[0].variations))
    requires batch[1].productId in catalog && catalog[batch[1].productId].Variable? && |batch[1].variations| == 0
    ensures var o := HandleAddAll(cart, ProductData(batch), catalog, ops, accepts);
      o.response.Failure? && o.response.kind == VariationRequired &&
      |o.cart| > |cart| && o.cart[|cart|] == CartLine(batch[0].productId, 1, 0, batch[0].variations)
  {
    var st0 := State(cart, 0, false);
    var st1 := Step(st0, batch[0], catalog, ops, accepts);
    assert st1.cart == cart + [CartLine(batch[0].productId, 1, 0, batch[0].variations)];
    ComposeGrowsCart(batch[1..], st1, catalog, ops, accepts);
    AddAllOutcome(cart, batch, catalog, ops, accepts);
  }

  /** A batch in which every entry resolves, against a cart that accepts
      everything, succeeds with one line per entry. */
  lemma AllResolvedSucceeds(cart: seq<CartLine>, batch: seq<Entry>, catalog: Catalog, ops: TextOps, accepts: AddOracle)
    requires |batch| > 0
    requires forall k :: 0 <= k < |batch| ==> EntryAction(batch[k], catalog, ops).TryAdd?
    requires forall c, l :: accepts(c, l)
    ensures HandleAddAll(cart, ProductData(batch), catalog, ops, accepts).response == Success(|batch|)
  {
    ComposeAllResolved(batch, State(cart, 0, false), catalog, ops, accepts);
  }
}
