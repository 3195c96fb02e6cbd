# Frequently Bought Together — a verified model of the bundle core

This project models the core of a WooCommerce "Frequently Bought Together"
plugin. On a product page it shows the product together with up to two
stored companion products. The shopper ticks the products, picks a variation
(size, colour, ...) for each variable product and adds the whole bundle with
one **Add All to Cart** button. The model covers both halves of that flow.

Server side (`fbt.php`):

- **Variation resolver** `find_matching_variation_id`: the first available
  variation whose attributes match the submitted selection, ignoring case.
- **Add-all composer** `fbt_ajax_add_all_to_cart`: walks the submitted
  batch in order, adds each resolved line to the session cart, then picks
  one reply: `variation_required` first, then success, then the generic
  failure.
- **Companion list**:
  - the save hook `fbt_save_meta_box`: explode, drop falsy pieces, keep at
    most two;
  - the admin picker script on the product edit screen.
- **Render list**: the main product followed by the stored companions,
  duplicates removed. Also the checkbox price and the contrast-colour
  helper `fbt_get_contrast_color`.

Client side (`script.js`):

- the per-product "explicitly selected" flags;
- `updateFBTState`, which computes the running total and whether the button
  is enabled;
- `updateProductTitle`, which stamps the chosen variation labels onto the
  product title;
- the builder of the submitted `product_data`;
- the Add-All button's states: idle, disabled, "Adding...", and re-enabled
  after an error.

Modules, one per file:

| file | module | what |
|---|---|---|
| `wrappers.dfy` | `Wrappers` | `Option` |
| `text.dfy` | `Text` | PHP `explode`/JS `split` on one character, `implode`/`join`, JS `split(sep)[0]`, JS `trim` blankness |
| `storefront.dfy` | `Storefront` | the catalog: products, variations, submitted entries, and the text operations `sanitize_title`/`strtolower` as parameters |
| `resolver.dfy` | `VariationResolver` | `find_matching_variation_id`, as a nested-loop method and its specification function |
| `cart.dfy` | `CartComposer` | the session cart as an object, the add-all handler as a loop over it, proved against a left fold |
| `presenter.dfy` | `BundlePresenter` | render list, checkbox price, contrast colour |
| `companions.dfy` | `CompanionList` | save hook and the admin picker object |
| `tracker.dfy` | `SelectionTracker` | the shopper's page as an object: flags, scan, titles, submission, button |
| `endtoend.dfy` | `AddAllFlow` | the submission fed to the handler, and the handler's reply read by the page |

## Model

| member | source | states |
|---|---|---|
| Text.Split | fbt.php:797 | `explode` on one character always yields at least one piece, and no piece contains the separator |
| Text.Join | fbt.php:739 | `implode`, like JS `join`, puts the separator between consecutive pieces; `JoinSplit` and `SplitJoin` relate it to `Split` |
| Text.JoinSplit | fbt.php:797 | joining the pieces of a split with the separator gives back the original string |
| Text.SplitJoin | fbt.php:745 | splitting a join of at least one separator-free piece gives back exactly those pieces |
| Text.BeforeFirst | script.js:87 | `split(' - ')[0]` is a prefix of the text |
| Text.BeforeFirstOccurrence | script.js:87 | when the first occurrence of the separator starts at n, `split(sep)[0]` is exactly the first n characters |
| Text.BeforeFirstAbsent | script.js:87 | without any occurrence of the separator, `split(sep)[0]` is the whole text |
| Text.IsBlank | script.js:31 | a value is blank when it is empty or only whitespace, as tested by `!attrValue` or `attrValue.trim() === ''` |
| VariationResolver.FirstMatch | fbt.php:335-350 | the index of the first variation matching every selected pair, and no earlier one matches; the length when none matches |
| VariationResolver.PairMatches | fbt.php:339-341 | one selected pair matches when the variation has the `attribute_` key of the sanitised name and the values agree after lower-casing |
| VariationResolver.Matches | fbt.php:338-343 | a variation matches when every selected pair matches |
| VariationResolver.Resolve | fbt.php:327-353 | 0 for a missing or non-variable product; any non-zero id is the id of a variation that matches every selected pair |
| VariationResolver.FindMatchingVariationId | fbt.php:327-353 | the nested loops with early `break`/`return` compute the id of the first matching variation, or 0 |
| VariationResolver.EarlierDuplicateWins | fbt.php:335-349 | of two variations with identical attributes the later one is never the resolved match; if it matches, the resolved match is at or before the earlier one |
| VariationResolver.EmptySelectionPicksFirst | fbt.php:338-348 | an empty selection matches the first available variation; with none available the result is 0 |
| VariationResolver.ResolveIgnoresValueCase | fbt.php:341 | two selections whose values agree after lower-casing resolve to the same variation |
| CartComposer.Cart.AddToCart | fbt.php:283-286 | the line is appended to the cart exactly when `add_to_cart` accepts it |
| CartComposer.EntryAction | fbt.php:260-281 | a missing product is skipped; a variable product with no selection raises the flag; an unresolvable one is skipped; anything else becomes a quantity-1 line with variation id 0 or the resolved id |
| CartComposer.Step | fbt.php:260-287 | one entry's effect on the cart and the flag: skip, set the flag, or try to add the line and count it when accepted |
| CartComposer.Compose | fbt.php:260-287 | the handler's loop as a left fold of `Step` over the batch, in order; `ComposeGrowsCart` and the lemmas after it state what it yields |
| CartComposer.Decide | fbt.php:289-318 | `variation_required` exactly when the flag is set; success with the count exactly when it is not set and something was added; otherwise the generic failure |
| CartComposer.HandleAddAll | fbt.php:244-255 | a missing or empty `product_data` is rejected with its own message and leaves the cart untouched |
| CartComposer.AddAllToCart | fbt.php:244-318 | the handler's loop over the cart object ends in the cart and the reply that the fold specifies |
| CartComposer.ComposeGrowsCart | fbt.php:260-287 | the loop only appends: the old cart is a prefix, and the added count equals the number of new lines, at most one per entry |
| CartComposer.ComposeFlagIff | fbt.php:270-275 | the unselected flag ends up set exactly when some entry is a variable product sent with an empty selection |
| CartComposer.ComposeAddsOnlyRequestedLines | fbt.php:260-286 | every new cart line is the line some entry asked for |
| CartComposer.ComposeAllResolved | fbt.php:260-287 | when every entry resolves and the cart accepts everything, each entry adds exactly one line |
| CartComposer.AddAllOutcome | fbt.php:260-318 | for a non-empty batch: `variation_required` if and only if some entry is unselected, whatever was added; success if and only if nothing is unselected and the cart grew, with the count of new lines; the generic failure if and only if nothing is unselected and nothing was added |
| CartComposer.VariationRequiredKeepsEarlierAdds | fbt.php:283-295 | a simple product added before an unselected variable product stays in the cart although the reply is `variation_required` |
| CartComposer.AllResolvedSucceeds | fbt.php:297-316 | a batch that fully resolves against an accepting cart succeeds with one line per entry |
| BundlePresenter.DedupFrom | fbt.php:73 | `array_unique` keeps each value once, and exactly the values not seen before |
| BundlePresenter.Dedup | fbt.php:73 | `array_unique` of the merged list, starting from no values seen |
| BundlePresenter.RenderList | fbt.php:57-73 | no stored companions means nothing is rendered; otherwise the main product comes first, with no duplicates, and exactly the main product and the stored ids are rendered |
| BundlePresenter.DedupKeepsFirstOccurrenceOrder | fbt.php:73 | the surviving values keep the order of their first occurrences |
| BundlePresenter.RenderListOrder | fbt.php:73 | companions are rendered in the order they were first stored, after the main product |
| BundlePresenter.MainProductRenderedOnce | fbt.php:73 | a stored copy of the main product's id is not rendered a second time |
| BundlePresenter.CheckboxPrice | fbt.php:87 | the checkbox's `data-price` is 0 for a variable product and the display price otherwise |
| BundlePresenter.HexDec | fbt.php:206-208 | PHP `hexdec`: the hex digits read in order as a base-16 number, other characters ignored |
| BundlePresenter.Substr | fbt.php:206-208 | PHP `substr`: at most `len` characters from `start`, empty past the end |
| BundlePresenter.HexDecBound | fbt.php:206-208 | `hexdec` of n characters is below 16^n |
| BundlePresenter.Channel | fbt.php:206-208 | each colour channel, read from two characters, lies in 0..255 |
| BundlePresenter.ContrastColor | fbt.php:205-211 | the result is always black or white, and black exactly when (299r + 587g + 114b) / 1000, as a real quotient, is at least 128 |
| BundlePresenter.DefaultButtonColorGetsWhiteText | fbt.php:205-211 | the default button colour `#96588a` gets white text |
| BundlePresenter.WhiteGetsBlackText | fbt.php:205-211 | white gets black text |
| CompanionList.KeepPhpTruthy | fbt.php:798 | `array_filter` keeps exactly the pieces other than "" and "0", and never more pieces than it is given |
| CompanionList.PhpTruthy | fbt.php:798 | a piece survives `array_filter` unless it is "" or "0" |
| CompanionList.KeepPhpTruthyAppend | fbt.php:798 | the filter works piece by piece: filtering a concatenation concatenates the filtered parts, so the truthy pieces keep their order and repetitions |
| CompanionList.SaveMetaBox | fbt.php:795-801 | without the posted field the list is unchanged; with it, the stored list is the first min(2, n) of the n truthy pieces, each separator-free |
| CompanionList.KeepPhpTruthyOfTruthy | fbt.php:798 | filtering a list of truthy pieces changes nothing |
| CompanionList.ThreeIdsTruncateToTwo | fbt.php:798 | three truthy ids are stored as the first two |
| CompanionList.KeepNonEmpty | fbt.php:745 | `filter(Boolean)` keeps exactly the non-empty pieces |
| CompanionList.KeepNonEmptyAppend | fbt.php:745 | `filter(Boolean)` works piece by piece, keeping the non-empty pieces in order |
| CompanionList.RemoveAll | fbt.php:769 | removal keeps exactly the other ids |
| CompanionList.RemoveAllAppend | fbt.php:769 | removal works id by id, so the other ids keep their order and repetitions |
| CompanionList.RemoveAllKeepsDistinct | fbt.php:769 | removal keeps a list of distinct ids distinct |
| CompanionList.RemoveAllAbsent | fbt.php:769 | removing an id that is not chosen changes nothing |
| CompanionList.Picker.constructor | fbt.php:745 | the picker starts from the non-empty comma-separated pieces of the hidden field, and is valid when those are at most two distinct ids |
| CompanionList.Picker.Add | fbt.php:748-764 | a non-empty id that is not yet chosen is appended while fewer than two are chosen, and the hidden field is rewritten; a full list raises the alert with the text "You can select a maximum of 2 additional products."; any other input is ignored; at most two distinct non-empty ids are kept |
| CompanionList.Picker.Remove | fbt.php:767-772 | the list becomes its `RemoveAll`: every copy of the id is dropped and the others keep their order (`RemoveAllAppend`); the hidden field is rewritten, and a valid picker stays valid |
| CompanionList.PickerReloadsStoredList | fbt.php:739-745 | after a reload the picker reads back exactly a list the save hook can store |
| CompanionList.KeepNonEmptyOfNonEmpty | fbt.php:745 | filtering non-empty pieces changes nothing |
| CompanionList.SavePickerRoundTrip | fbt.php:775-799 | saving the picker's hidden field stores the picker's list, provided the ids survive sanitising and none is "0" |
| CompanionList.SaveReloadKeepsValid | fbt.php:739-799 | saving a valid picker and reloading the edit screen gives back the same list, so the reloaded picker is valid |
| CompanionList.SaveKeepsDuplicates | fbt.php:797-799 | the save hook does not remove duplicates: "5,5" is stored as two copies, and a picker reloaded from it is not distinct |
| SelectionTracker.SelectedAttributes | script.js:29-36 | every dropdown contributes the key `attribute_` + its attribute, and the final dropdown's value is stored under its key |
| SelectionTracker.SelectedAttributesValues | script.js:29-36 | each key holds the value of the last dropdown with that attribute, and every key comes from some dropdown |
| SelectionTracker.FirstVariant | script.js:52-56 | `find` gives the first entry of the variation data that matches every selected key exactly |
| SelectionTracker.VariantPrice | script.js:50-60 | a confirmed item adds its matched variation's price when it is positive, and 0 when nothing matches or the price is not positive |
| SelectionTracker.SimplePrice | script.js:67 | an item without dropdowns adds its `data-price`, 0 when it is missing |
| SelectionTracker.ItemVerdict | script.js:24-68 | an item without dropdowns adds its `data-price`; a blank dropdown makes it incomplete; an unset flag makes it unconfirmed; unparseable data makes it invalid; otherwise it adds its variation's price |
| SelectionTracker.FirstStop | script.js:20-69 | the first checked item at which the scan breaks out |
| SelectionTracker.Scan | script.js:20-69 | the `.each` over checked items: totals the verdicts and breaks out at the first incomplete or unconfirmed one; `ScanFlagsIff` and `ScanTotalIsPrefixSum` state what it yields |
| SelectionTracker.Contribution | script.js:20-69 | what one item adds to the total when nothing stops the scan |
| SelectionTracker.Sum | script.js:20-69 | the total over all items, the reference `ScanTotalIsPrefixSum` and `EnabledTotalIsFullSum` compare the scan with |
| SelectionTracker.ScanFlagsIff | script.js:20-69 | both validity flags stay true exactly when no checked item is incomplete, unconfirmed or unparseable |
| SelectionTracker.ScanTotalIsPrefixSum | script.js:20-69 | the total counts exactly the checked items before the scan breaks out |
| SelectionTracker.AddAllEnabledIff | script.js:16-78 | the button is enabled exactly when something is checked and every checked item with dropdowns has none blank, has its flag set and has parseable data |
| SelectionTracker.EnabledTotalIsFullSum | script.js:15-69 | with the button enabled, the total is the sum over every checked item |
| SelectionTracker.ReadDropdowns | script.js:29-36 | the inner loop stops at the first blank value; a complete pass collects the selection |
| SelectionTracker.ComputeFBTState | script.js:14-78 | the loops of `updateFBTState` compute the scan's total and the button's enabled state |
| SelectionTracker.MarkVariableProductsSpec | script.js:6-11 | the first initialisation pass gives every product with a variations block and a truthy id a flag, and every flag is false |
| SelectionTracker.MarkVariableProducts | script.js:6-11 | the first pass over products, `MarkVariableProductsSpec` states its flags |
| SelectionTracker.MarkDropdownProductsSpec | script.js:221-224 | the second pass adds a false flag for every product that owns a dropdown and keeps earlier flags false |
| SelectionTracker.MarkDropdownProducts | script.js:221-224 | the second pass over dropdowns, `MarkDropdownProductsSpec` states its flags |
| SelectionTracker.InitialFlags | script.js:6-11 | the flags after both passes, all false by `InitialFlagsAllFalse` |
| SelectionTracker.InitialFlagsAllFalse | script.js:220-224 | after page load every tracked product has a flag and no product counts as explicitly selected, whatever is pre-selected |
| SelectionTracker.InitiallyDisabledWithVariableItemChecked | script.js:220-228 | on page load the button is disabled whenever a checked item has a dropdown |
| SelectionTracker.VisibleLabels | script.js:90-93 | the shown labels exclude "" and exactly "Select", and include every other option text |
| SelectionTracker.VisibleLabelsAppend | script.js:90-93 | labels are taken dropdown by dropdown, in document order: the labels of a concatenation are the concatenation of the labels |
| SelectionTracker.VisibleLabelsSingleton | script.js:90-93 | one dropdown contributes its own option text unless it is "" or "Select", and nothing else |
| SelectionTracker.TitleSuffix | script.js:90-95 | " - " and the visible labels joined by ", ", or nothing when no label is visible |
| SelectionTracker.Retitled | script.js:86-95 | the cached original (taken from the text before the first " - " when none is cached) followed by the suffix; `RetitleDoesNotCompound` shows it idempotent |
| SelectionTracker.InitialTitle | script.js:224-226 | a pre-selected dropdown rebuilds the title on load, otherwise it is left alone |
| SelectionTracker.RetitleDoesNotCompound | script.js:86-95 | a title rebuilt again, after any change, equals a single rebuild of the first title, so suffixes never pile up and the rebuild is idempotent |
| SelectionTracker.OriginalTitleIsName | script.js:86-88 | for a rendered title "name - price" whose name holds no " - ", the cached original is the name |
| SelectionTracker.KeyIndex | script.js:136 | the position of the first pair with the key, or the length |
| SelectionTracker.Put | script.js:136 | the object assignment puts the new pair at the key's existing position, or last for a new key that is not an array index; every other pair stays where it was, unchanged; distinct keys stay distinct |
| SelectionTracker.PutPairs | script.js:136 | with distinct keys, the pairs after the assignment are exactly the new pair and the old pairs with other keys |
| SelectionTracker.SubmittedVariations | script.js:133-137 | `variations` is empty exactly when the item has no dropdowns, and no key occurs twice |
| SelectionTracker.SubmittedVariationsPairs | script.js:133-137 | `variations` maps every dropdown's attribute to the value of the last dropdown with that attribute, and holds no pair that no dropdown gave |
| SelectionTracker.EntryOf | script.js:132-139 | a checked item's entry: its product id and its `variations` |
| SelectionTracker.Submission | script.js:131-140 | `product_data` has at most one entry per item; `SubmissionAppend` and `SubmissionSingleton` state its contents |
| SelectionTracker.SubmissionAppend | script.js:131-140 | the submission is built item by item in document order: the submission of a concatenation is the concatenation of the submissions |
| SelectionTracker.SubmissionSingleton | script.js:131-140 | one item contributes exactly its own entry when checked and nothing otherwise |
| SelectionTracker.SubmissionFromCheckedItems | script.js:131-140 | every submitted entry is the entry of some checked item |
| SelectionTracker.CheckedItemSubmitted | script.js:131-140 | every checked item is submitted |
| SelectionTracker.SubmissionEmptyIff | script.js:131-142 | nothing is submitted exactly when nothing is checked |
| SelectionTracker.BuildProductData | script.js:131-140 | the `.map`/`.each` loops compute `Submission`, which `SubmissionAppend` and `SubmissionSingleton` show to be one entry per checked item, in document order |
| SelectionTracker.ErrorToast | script.js:168-186 | a `variation_required` reply shows the server's message; any other shows it, or the default text when it is empty |
| SelectionTracker.BundleWidget.UpdateFBTState | script.js:14-79 | the total and the disabled state are replaced by the scan's, and nothing else changes |
| SelectionTracker.BundleWidget.UpdateProductTitle | script.js:82-96 | only that item's title changes, to the rebuilt title |
| SelectionTracker.BundleWidget.InitVariableFlags | script.js:6-11 | the flags become false for every product with a variations block and a truthy id |
| SelectionTracker.BundleWidget.InitItemDropdowns | script.js:221-227 | one item's dropdowns clear its flag and rebuild its title when one is pre-selected |
| SelectionTracker.BundleWidget.InitDropdowns | script.js:221-227 | the second pass over all items |
| SelectionTracker.BundleWidget.constructor | script.js:1-228 | page load: all flags false, pre-selected titles rebuilt, total and button from the scan, label "Add All to Cart" |
| SelectionTracker.BundleWidget.OnCheckboxChange | script.js:100-102 | the box changes, the flags do not, and total and button are recomputed |
| SelectionTracker.BundleWidget.OnVariationChange | script.js:103-113 | the dropdown takes its new value; the product's single flag becomes "that value is non-empty"; total and button are recomputed; the title is rebuilt |
| SelectionTracker.BundleWidget.OnAddAllClick | script.js:114-154 | a disabled button only toasts; nothing checked only toasts; otherwise the button is disabled, shows "Adding..." and the submission is sent |
| SelectionTracker.BundleWidget.OnAddAllReply | script.js:163-189 | success leaves the button as it is; an error toasts and re-enables it with the label "Add All to Cart" |
| SelectionTracker.BundleWidget.OnTransportError | script.js:190-200 | a transport error toasts and re-enables the button |
| AddAllFlow.ReplyOf | fbt.php:289-318 | the page sees success exactly for the handler's success and `variation_required` exactly for that failure kind |
| AddAllFlow.SubmissionNeverUnselected | fbt.php:270-275 | when every checked variable product was rendered with dropdowns, the page's submission never draws `variation_required` |
| AddAllFlow.DropdownFreeVariableIsRejected | fbt.php:270-275 | a checked variable product rendered without dropdowns makes the whole request `variation_required` |
| AddAllFlow.ErrorRepliesShowServerMessage | script.js:168-186 | every error the handler sends reaches the shopper as the handler's own, non-empty message |

### Notes on the code as written

- **A `variation_required` reply does not roll back.** When a simple item
  A comes before a variable item B that has no selection, the handler
  adds A to the cart (fbt.php:283). It looks at the flag only after the
  loop (fbt.php:289), so the reply is `variation_required` while A stays in
  the cart. `CartComposer.VariationRequiredKeepsEarlierAdds` proves this.
- **Titles.** `split(' - ')[0]` cuts a product name that itself contains
  " - ". `SelectionTracker.OriginalTitleIsName` holds only for names without
  it.
- **Placeholder text.** The title filter removes only the exact text
  "Select". The rendered placeholder option reads "Select " followed by the
  attribute label, so that filter does not remove it.
- **The explicit flag.** The flag is one per product and is set by
  whichever dropdown changed last. A value of a single space sets it, yet
  the scan still counts that dropdown as blank.
- **Duplicates in the stored list.** The save hook does not remove
  duplicates, and the picker does not remove them on load.
  `CompanionList.SaveKeepsDuplicates` shows this. So a picker read from
  arbitrary stored data need not be valid. `CompanionList.SaveReloadKeepsValid`
  proves that a list saved from a valid picker reloads valid.
- **In-flight requests.** While a request is in flight, a checkbox or
  dropdown change recomputes the button's disabled state. It can therefore
  enable the button while it still reads "Adding...".
  `BundleWidget.OnCheckboxChange` states exactly this: the label is left
  alone.

## Left out

- HTML output, inline CSS, the modal open/close handlers (script.js:204-218), the heading text and the `toFixed(2)` price formatting (script.js:72-75): presentation only.
- Toastify styling, `$.ajax` transport, `wc_fragment_refresh` and the delayed page reload: I/O. A toast is the returned text, a request is the returned submission, a reply is a parameter.
- A cart line stands for one accepted `add_to_cart` call. WooCommerce merges an identical item into the quantity of an existing line; the model does not, so the "new lines" of `CartComposer.ComposeGrowsCart` and `CartComposer.AddAllOutcome` count accepted calls, as `$added_count` does (fbt.php:283-286), not distinct cart rows.
- `sanitize_title`, `strtolower`, `sanitize_text_field` and `WC()->cart->add_to_cart`: WordPress/WooCommerce code that is not part of this model. They are parameters (`TextOps`, a sanitiser, an acceptance oracle over the current cart and the line).
- JSON encoding and decoding: the handler receives the decoded batch, and undecodable `product_data` is the empty batch. The variation data embedded in the page is either parsed data or `None` for text that does not parse.
- Prices are integers in the smallest currency unit; `parseFloat` and floating-point sums are not modelled.
- The success notice (`wc_add_notice`, the count sentence and the cart link, fbt.php:297-316): `Success` carries the count only.
- How the page is rendered from the catalog (skipping missing products, fbt.php:84; the first variation's price, fbt.php:88-93; one dropdown per product attribute with the first option pre-selected, fbt.php:130-160): the shopper's page starts from the rendered items, taken as given.
- jQuery's `.data()` coercion of numeric strings: product ids are integers on both sides.
- The single-product handler `fbt_ajax_add_to_cart`, the suggestions box and its handler, the settings page, the shortcode, and colour-picker enqueueing: outside the bundle core.
- Colours are taken as ASCII: PHP `substr` counts bytes, the model counts characters, so a colour string holding a multi-byte character is not modelled.
- Stored companion ids are strings (`CompanionList`), while the render list takes integer product ids (`BundlePresenter.RenderList`). PHP's conversion between the two, both when `array_merge` puts the integer main id in front of the stored strings and when `array_unique` compares them as strings, is not modelled.
- SelectionTracker.Put: a new key always goes last. JavaScript lists array-index keys (such as "2" or "10") first, in ascending order, and `JSON.stringify`/`json_decode` keep that order, so for an attribute named like an array index the pair order of `variations`, and of the `CartLine.variations` handed to the cart, can differ from the browser's. Which variation is resolved is not affected: `VariationResolver.Matches` ignores pair order.
- Events arrive one at a time; JavaScript's event loop is not modelled beyond that.
