/**
 * The two halves of the Add-All flow put together: the submission the page
 * builds, the reply the handler sends for it, and what the page then shows.
 */
module AddAllFlow {

  import opened Storefront
  import opened CartComposer
  import opened SelectionTracker

  /** The JSON reply as the page reads it: `success`, `data.message` and
      whether `data.type` is `variation_required`. */
  function ReplyOf(r: Response): (reply: Reply)
    ensures reply.ReplySuccess? <==> r.Success?
    ensures r.Failure? ==> reply.message == r.message && (reply.variationRequired <==> r.kind == VariationRequired)
  {
    match r
    case Success(_) => ReplySuccess
    case Failure(message, kind) => ReplyError(message, kind == VariationRequired)
  }

  /** An item that a checked box makes a variable product in the catalog,
      but that the page rendered without any dropdown. */
  predicate DropdownFreeVariable(item: BundleItem, catalog: Catalog)
  {
    item.checked && item.productId in catalog && catalog[item.productId].Variable? && |item.dropdowns| == 0
  }

  /** Whenever every checked variable product was rendered with dropdowns,
      the submission never names a variable product without a selection, so
      the handler never answers `variation_required` for it. */
  lemma SubmissionNeverUnselected(items: seq<BundleItem>, catalog: Catalog, cart: seq<CartLine>, ops: TextOps, accepts: AddOracle)
    requires forall k :: 0 <= k < |items| ==> !DropdownFreeVariable(items[k], catalog)
    ensures !AnyUnselected(Submission(items), catalog)
    ensures HandleAddAll(cart, ProductData(Submission(items)), catalog, ops, accepts).response !=
      Failure(VariationRequiredMessage, VariationRequired)
  {
    var data := Submission(items);
    forall n | 0 <= n < |data|
      ensures !Unselected(data[n], catalog)
    {
      SubmissionFromCheckedItems(items, n);
      var k :| 0 <= k < |items| && items[k].checked && data[n] == EntryOf(items[k]);
      assert !DropdownFreeVariable(items[k], catalog);
    }
    if |data| > 0 {
      AddAllOutcome(cart, data, catalog, ops, accepts);
    }
  }

  /** Conversely, a checked variable product rendered without dropdowns
      (a product with no attributes at all) sends an empty
      selection, and the whole request is answered `variation_required`. */
  lemma DropdownFreeVariableIsRejected(items: seq<BundleItem>, k: nat, catalog: Catalog, cart: seq<CartLine>, ops: TextOps, accepts: AddOracle)
    requires k < |items| && DropdownFreeVariable(items[k], catalog)
    ensures HandleAddAll(cart, ProductData(Submission(items)), catalog, ops, accepts).response ==
      Failure(VariationRequiredMessage, VariationRequired)
  {
    var data := Submission(items);
    var e := EntryOf(items[k]);
    CheckedItemSubmitted(items, k);
    var n :| 0 <= n < |data| && data[n] == e;
    assert Unselected(data[n], catalog);
    AddAllOutcome(cart, data, catalog, ops, accepts);
  }

  /** Every error reply the handler sends gives the page a non-empty toast,
      the handler's own message. */
  lemma ErrorRepliesShowServerMessage(cart: seq<CartLine>, request: Request, catalog: Catalog, ops: TextOps, accepts: AddOracle)
    ensures var r := HandleAddAll(cart, request, catalog, ops, accepts).response;
      r.Failure? ==>
        var reply := ReplyOf(r);
        ErrorToast(reply.message, reply.variationRequired) == r.message &&
        r.message in {NoDataMessage, InvalidDataMessage, VariationRequiredMessage, FailedMessage}
  {
  }
}
