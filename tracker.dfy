/**
 * The shopper-side selection state tracker of script.js: the per-product
 * "explicitly selected" flags, the recomputation `updateFBTState` of the
 * running total and of the Add-All button, the title rebuild
 * `updateProductTitle`, and the Add-All click handler with its button
 * states. The page is an object whose fields are the parts of the DOM and
 * of the script's state that these handlers read and write.
 */
module SelectionTracker {

  import opened Wrappers
  import opened Text
  import opened Storefront

  /** One `select.fbt-variation`: its `data-attribute`, its current value
      (the empty string when it has none) and the text of its selected option. */
  datatype Dropdown = Dropdown(attribute: string, value: string, optionText: string)

  /** One object of the embedded variation data: id, attributes, price in cents. */
  datatype VariantData = VariantData(variationId: int, attributes: map<string, string>, price: int)

  /** One bundle item: its checkbox (`data-product_id`, checked state,
      `data-price` as parsed by `parseFloat`, None when it is not a number),
      whether it was rendered with a `.fbt-variations` block, its dropdowns in
      document order and its embedded variation data (None when that text is
      not valid JSON, which the script catches). Product ids are unique
      on the page (the render list has no duplicates), so the dropdowns the
      script finds by product id are this item's. */
  datatype BundleItem = BundleItem(
    productId: ProductId,
    checked: bool,
    dataPrice: Option<int>,
    hasVariationsBlock: bool,
    dropdowns: seq<Dropdown>,
    variantData: Option<seq<VariantData>>)

  /** An item's title paragraph and its cached `original-title` data ("" when
      not cached: an empty cache is recomputed, as the script's falsy test does). */
  datatype Title = Title(text: string, original: string)

  /** `explicitlySelectedVariations`. */
  type Flags = map<ProductId, bool>

  const TitleSeparator := " - "
  const LabelSeparator := ", "
  const SelectLabel := "Select"
  const AddAllLabel := "Add All to Cart"
  const AddingLabel := "Adding..."
  const SelectVariationsMessage := "Please select variations for all products before adding to cart"
  const SelectProductMessage := "Please select at least one product."
  const DefaultFailureMessage := "Failed to add products to cart"
  const TransportErrorMessage := "An error occurred while adding products to cart"

  /** A missing key reads as `undefined`, which is falsy. */
  predicate IsExplicit(flags: Flags, productId: ProductId)
  {
    productId in flags && flags[productId]
  }

  // ---- updateFBTState, as specification ----

  predicate AllChosen(ds: seq<Dropdown>)
  {
    forall j :: 0 <= j < |ds| ==> !IsBlank(ds[j].value)
  }

  /** `selectedAttributes`: `'attribute_' + data-attribute` mapped to the
      value, a later dropdown overwriting an earlier one with the same key. */
  function SelectedAttributes(ds: seq<Dropdown>): (m: map<string, string>)
    ensures forall j :: 0 <= j < |ds| ==> "attribute_" + ds[j].attribute in m
    ensures |ds| > 0 ==> m["attribute_" + ds[|ds| - 1].attribute] == ds[|ds| - 1].value
  {
    if ds == [] then map[]
    else
      var last := ds[|ds| - 1];
      var m := SelectedAttributes(ds[..|ds| - 1]);
      assert forall j :: 0 <= j < |ds| - 1 ==> ds[..|ds| - 1][j] == ds[j];
      m["attribute_" + last.attribute := last.value]
  }

  /** Distinct attributes give distinct keys. */
  lemma KeyPrefixInjective(a: string, b: string)
    ensures a != b ==> "attribute_" + a != "attribute_" + b
  {
    assert a == ("attribute_" + a)[|"attribute_"|..];
    assert b == ("attribute_" + b)[|"attribute_"|..];
  }

  /** Every dropdown that no later dropdown shares an attribute with decides
      its key's value, and every key comes from some dropdown. */
  lemma {:induction false} SelectedAttributesValues(ds: seq<Dropdown>)
    ensures forall j :: 0 <= j < |ds| && LastWithAttribute(ds, j) ==>
      SelectedAttributes(ds)["attribute_" + ds[j].attribute] == ds[j].value
    ensures forall key :: key in SelectedAttributes(ds) ==>
      exists j :: 0 <= j < |ds| && key == "attribute_" + ds[j].attribute
  {
    if ds != [] {
      var init := ds[..|ds| - 1];
      var last := ds[|ds| - 1];
      SelectedAttributesValues(init);
      var m0 := SelectedAttributes(init);
      var m := SelectedAttributes(ds);
      assert m == m0["attribute_" + last.attribute := last.value];
      forall j | 0 <= j < |ds| && LastWithAttribute(ds, j)
        ensures m["attribute_" + ds[j].attribute] == ds[j].value
      {
        if j < |init| {
          EarlierLastWithAttribute(ds, j);
          KeyPrefixInjective(ds[j].attribute, last.attribute);
        }
      }
      forall key | key in m
        ensures exists j :: 0 <= j < |ds| && key == "attribute_" + ds[j].attribute
      {
        if key != "attribute_" + last.attribute {
          var j :| 0 <= j < |init| && key == "attribute_" + init[j].attribute;
          assert init[j] == ds[j];
        }
      }
    }
  }

  /** A dropdown before the last that is last with its attribute in the whole
      list is so in the list without the last dropdown, and differs from it. */
  lemma EarlierLastWithAttribute(ds: seq<Dropdown>, j: nat)
    requires j < |ds| - 1 && LastWithAttribute(ds, j)
    ensures ds[..|ds| - 1][j] == ds[j]
    ensures LastWithAttribute(ds[..|ds| - 1], j)
    ensures ds[j].attribute != ds[|ds| - 1].attribute
  {
    var init := ds[..|ds| - 1];
    forall k | j < k < |init| ensures init[k].attribute != init[j].attribute {
      assert init[k] == ds[k];
    }
  }

  /** Exact, case-sensitive equality on every selected key (script.js's
      `===`); a key the variation lacks never matches. */
  predicate VariantMatches(v: VariantData, selected: map<string, string>)
  {
    forall key :: key in selected ==> key in v.attributes && v.attributes[key] == selected[key]
  }

  /** `variationData.find(...)`: index of the first match, |data| for none. */
  function FirstVariant(data: seq<VariantData>, selected: map<string, string>): (k: nat)
    ensures k <= |data|
    ensures k < |data| ==> VariantMatches(data[k], selected)
    ensures forall j :: 0 <= j < k ==> !VariantMatches(data[j], selected)
  {
    if data == [] then 0
    else if VariantMatches(data[0], selected) then 0
    else 1 + FirstVariant(data[1..], selected)
  }

  /** What a complete, confirmed variable item adds when its data parses:
      the matching variation's price when there is one and it is positive,
      else nothing. */
  function VariantPrice(data: seq<VariantData>, ds: seq<Dropdown>): (p: int)
    ensures p >= 0
    ensures p > 0 ==>
      var k := FirstVariant(data, SelectedAttributes(ds));
      k < |data| && p == data[k].price
    ensures p == 0 ==>
      var k := FirstVariant(data, SelectedAttributes(ds));
      k == |data| || data[k].price <= 0
  {
    var k := FirstVariant(data, SelectedAttributes(ds));
    if k < |data| && data[k].price > 0 then data[k].price else 0
  }

  /** `parseFloat(data-price) || 0`. */
  function SimplePrice(item: BundleItem): int
  {
    match item.dataPrice
    case None => 0
    case Some(p) => p
  }

  /** What the scan does with one checked item. */
  datatype Verdict = Adds(amount: int) | Incomplete | Unconfirmed | Unparseable

  /** An item without dropdowns is priced from its checkbox; one with an
      empty dropdown is incomplete; one whose flag is not set is unconfirmed;
      one whose variation data does not parse is invalid but lets the scan go
      on; otherwise it adds its variation's price (0 when none matches, which
      does not make it invalid). */
  function ItemVerdict(item: BundleItem, flags: Flags): (v: Verdict)
    ensures v == Incomplete <==> |item.dropdowns| > 0 && !AllChosen(item.dropdowns)
    ensures v == Unconfirmed <==>
      |item.dropdowns| > 0 && AllChosen(item.dropdowns) && !IsExplicit(flags, item.productId)
    ensures v == Unparseable <==>
      |item.dropdowns| > 0 && AllChosen(item.dropdowns) && IsExplicit(flags, item.productId) &&
      item.variantData.None?
    ensures |item.dropdowns| == 0 ==> v == Adds(SimplePrice(item))
    ensures |item.dropdowns| > 0 && v.Adds? ==>
      item.variantData.Some? && v.amount == VariantPrice(item.variantData.value, item.dropdowns)
  {
    if |item.dropdowns| == 0 then Adds(SimplePrice(item))
    else if !AllChosen(item.dropdowns) then Incomplete
    else if !IsExplicit(flags, item.productId) then Unconfirmed
    else match item.variantData
      case None => Unparseable
      case Some(data) => Adds(VariantPrice(data, item.dropdowns))
  }

  /** The three variables of the scan: `total`, `allVariationsValid`,
      `allVariationsExplicitlySelected`. */
  datatype ScanResult = ScanResult(total: int, allValid: bool, allExplicit: bool)

  /** The scan of the checked items in document order, which stops at the
      first incomplete or unconfirmed item. */
  function Scan(items: seq<BundleItem>, flags: Flags): ScanResult
  {
    if items == [] then ScanResult(0, true, true)
    else if !items[0].checked then Scan(items[1..], flags)
    else match ItemVerdict(items[0], flags)
      case Incomplete => ScanResult(0, false, true)
      case Unconfirmed => ScanResult(0, true, false)
      case Unparseable => Scan(items[1..], flags).(allValid := false)
      case Adds(amount) =>
        var rest := Scan(items[1..], flags);
        rest.(total := amount + rest.total)
  }

  predicate AnyChecked(items: seq<BundleItem>)
  {
    exists k :: 0 <= k < |items| && items[k].checked
  }

  /** The button's enabled state after the scan. */
  predicate AddAllEnabled(items: seq<BundleItem>, flags: Flags)
  {
    AnyChecked(items) && Scan(items, flags).allValid && Scan(items, flags).allExplicit
  }

  /** A checked item that clears one of the two validity flags. */
  predicate Offends(item: BundleItem, flags: Flags)
  {
    item.checked && !ItemVerdict(item, flags).Adds?
  }

  /** A checked item at which the scan stops. */
  predicate Stops(item: BundleItem, flags: Flags)
  {
    item.checked && (ItemVerdict(item, flags) == Incomplete || ItemVerdict(item, flags) == Unconfirmed)
  }

  /** The index of the first item the scan stops at, |items| when none. */
  function FirstStop(items: seq<BundleItem>, flags: Flags): (n: nat)
    ensures n <= |items|
    ensures n < |items| ==> Stops(items[n], flags)
    ensures forall j :: 0 <= j < n ==> !Stops(items[j], flags)
  {
    if items == [] then 0
    else if Stops(items[0], flags) then 0
    else 1 + FirstStop(items[1..], flags)
  }

  /** What an item adds to the total when the scan reaches it. */
  function Contribution(item: BundleItem, flags: Flags): int
  {
    if item.checked && ItemVerdict(item, flags).Adds? then ItemVerdict(item, flags).amount else 0
  }

  function Sum(items: seq<BundleItem>, flags: Flags): int
  {
    if items == [] then 0 else Contribution(items[0], flags) + Sum(items[1..], flags)
  }

  /** Both validity flags stay true exactly when no checked item offends. */
  lemma {:induction false} ScanFlagsIff(items: seq<BundleItem>, flags: Flags)
    ensures Scan(items, flags).allValid && Scan(items, flags).allExplicit <==>
      forall k :: 0 <= k < |items| ==> !Offends(items[k], flags)
  {
    if items != [] {
      ScanFlagsIff(items[1..], flags);
      assert forall k :: 1 <= k < |items| ==> items[k] == items[1..][k - 1];
      if !Offends(items[0], flags) && !items[0].checked {
        assert Scan(items, flags) == Scan(items[1..], flags);
      }
    }
  }

  /** The total counts only the checked items before the scan stops. */
  lemma {:induction false} ScanTotalIsPrefixSum(items: seq<BundleItem>, flags: Flags)
    ensures Scan(items, flags).total == Sum(items[..FirstStop(items, flags)], flags)
  {
    if items != [] {
      var n := FirstStop(items, flags);
      if Stops(items[0], flags) {
        assert items[..0] == [];
      } else {
        ScanTotalIsPrefixSum(items[1..], flags);
        assert items[..n][1..] == items[1..][..n - 1];
      }
    }
  }

  /** The Add-All button is enabled exactly when something is checked and
      every checked variable item has no empty dropdown, its flag set and
      variation data that parses. */
  lemma AddAllEnabledIff(items: seq<BundleItem>, flags: Flags)
    ensures AddAllEnabled(items, flags) <==>
      AnyChecked(items) &&
      forall k :: 0 <= k < |items| && items[k].checked && |items[k].dropdowns| > 0 ==>
        AllChosen(items[k].dropdowns) && IsExplicit(flags, items[k].productId) && items[k].variantData.Some?
  {
    ScanFlagsIff(items, flags);
  }

  /** With the button enabled, the total is the sum over every checked item:
      its checkbox price, or its matched variation's positive price. */
  lemma EnabledTotalIsFullSum(items: seq<BundleItem>, flags: Flags)
    requires AddAllEnabled(items, flags)
    ensures Scan(items, flags).total == Sum(items, flags)
  {
    ScanFlagsIff(items, flags);
    ScanTotalIsPrefixSum(items, flags);
    assert FirstStop(items, flags) == |items|;
    assert items[..|items|] == items;
  }

  /** The inner `.each` of `updateFBTState` over one item's dropdowns: it
      stops at the first blank value and otherwise collects the selection. */
  method ReadDropdowns(dropdowns: seq<Dropdown>) returns (complete: bool, selectedAttributes: map<string, string>)
    ensures complete == AllChosen(dropdowns)
    ensures complete ==> selectedAttributes == SelectedAttributes(dropdowns)
  {
    selectedAttributes := map[];
    complete := true;
    var j := 0;
    while j < |dropdowns|
      invariant 0 <= j <= |dropdowns|
      invariant forall m :: 0 <= m < j ==> !IsBlank(dropdowns[m].value)
      invariant selectedAttributes == SelectedAttributes(dropdowns[..j])
    {
      var attrValue := dropdowns[j].value;
      if IsBlank(attrValue) {
        complete := false;
        return;
      }
      assert dropdowns[..j + 1][..j] == dropdowns[..j];
      selectedAttributes := selectedAttributes["attribute_" + dropdowns[j].attribute := attrValue];
      j := j + 1;
    }
    assert dropdowns[..j] == dropdowns;
  }

  /** The scan's work: the loops of `updateFBTState` up to the UI update. */
  method ComputeFBTState(items: seq<BundleItem>, flags: Flags) returns (total: int, enabled: bool)
    ensures total == Scan(items, flags).total
    ensures enabled == AddAllEnabled(items, flags)
  {
    total := 0;
    var allSelected := exists k :: 0 <= k < |items| && items[k].checked;
    var allVariationsValid := true;
    var allVariationsExplicitlySelected := true;
    var i := 0;
    while i < |items|
      invariant 0 <= i <= |items|
      invariant allVariationsExplicitlySelected
      invariant total + Scan(items[i..], flags).total == Scan(items, flags).total
      invariant (allVariationsValid && Scan(items[i..], flags).allValid) == Scan(items, flags).allValid
      invariant Scan(items[i..], flags).allExplicit == Scan(items, flags).allExplicit
    {
      var item := items[i];
      assert items[i..][0] == item && items[i..][1..] == items[i + 1..];
      if item.checked {
        if |item.dropdowns| > 0 {
          var complete, selectedAttributes := ReadDropdowns(item.dropdowns);
          if !complete {
            allVariationsValid := false;
            break;
          }
          if !IsExplicit(flags, item.productId) {
            allVariationsExplicitlySelected := false;
            break;
          }
          match item.variantData {
            case None =>
              allVariationsValid := false;
            case Some(variationData) =>
              var k := FirstVariant(variationData, selectedAttributes);
              if k < |variationData| && variationData[k].price > 0 {
                total := total + variationData[k].price;
              }
          }
        } else {
          total := total + (if item.dataPrice.Some? then item.dataPrice.value else 0);
        }
      }
      i := i + 1;
    }
    enabled := allSelected && allVariationsValid && allVariationsExplicitlySelected;
  }

  // ---- Explicit-selection flags on page load ----

  /** Lines 6-11: every product with a variations block and a truthy id. */
  function MarkVariableProducts(items: seq<BundleItem>): Flags
  {
    if items == [] then map[]
    else
      var m := MarkVariableProducts(items[..|items| - 1]);
      var last := items[|items| - 1];
      if last.hasVariationsBlock && last.productId != 0 then m[last.productId := false] else m
  }

  /** Lines 221-224: every product owning a dropdown, over the map so far. */
  function MarkDropdownProducts(items: seq<BundleItem>, start: Flags): Flags
  {
    if items == [] then start
    else
      var m := MarkDropdownProducts(items[..|items| - 1], start);
      var last := items[|items| - 1];
      if |last.dropdowns| > 0 then m[last.productId := false] else m
  }

  function InitialFlags(items: seq<BundleItem>): Flags
  {
    MarkDropdownProducts(items, MarkVariableProducts(items))
  }

  /** A product the initialisation gives a flag. */
  predicate Tracked(item: BundleItem)
  {
    (item.hasVariationsBlock && item.productId != 0) || |item.dropdowns| > 0
  }

  lemma {:induction false} MarkVariableProductsSpec(items: seq<BundleItem>)
    ensures var m := MarkVariableProducts(items);
      (forall pid :: pid in m ==> !m[pid]) &&
      forall k :: 0 <= k < |items| && items[k].hasVariationsBlock && items[k].productId != 0 ==> items[k].productId in m
  {
    if items != [] {
      MarkVariableProductsSpec(items[..|items| - 1]);
    }
  }

  lemma {:induction false} MarkDropdownProductsSpec(items: seq<BundleItem>, start: Flags)
    requires forall pid :: pid in start ==> !start[pid]
    ensures var m := MarkDropdownProducts(items, start);
      (forall pid :: pid in m ==> !m[pid]) &&
      (forall pid :: pid in start ==> pid in m) &&
      forall k :: 0 <= k < |items| && |items[k].dropdowns| > 0 ==> items[k].productId in m
  {
    if items != [] {
      MarkDropdownProductsSpec(items[..|items| - 1], start);
    }
  }

  /** After initialisation every tracked product has a flag and every flag is
      false, pre-selected first options notwithstanding. */
  lemma InitialFlagsAllFalse(items: seq<BundleItem>)
    ensures var flags := InitialFlags(items);
      (forall pid :: !IsExplicit(flags, pid)) &&
      forall k :: 0 <= k < |items| && Tracked(items[k]) ==> items[k].productId in flags
  {
    MarkVariableProductsSpec(items);
    MarkDropdownProductsSpec(items, MarkVariableProducts(items));
  }

  /** So on page load the button is disabled whenever a checked item has a
      dropdown: a default value is never taken as the shopper's choice. */
  lemma InitiallyDisabledWithVariableItemChecked(items: seq<BundleItem>, k: nat)
    requires k < |items| && items[k].checked && |items[k].dropdowns| > 0
    ensures !AddAllEnabled(items, InitialFlags(items))
  {
    InitialFlagsAllFalse(items);
    AddAllEnabledIff(items, InitialFlags(items));
  }

  // ---- updateProductTitle, as specification ----

  /** The selected options' texts, except empty ones and exactly "Select". */
  function VisibleLabels(ds: seq<Dropdown>): (labels: seq<string>)
    ensures |labels| <= |ds|
    ensures forall k :: 0 <= k < |labels| ==> labels[k] != "" && labels[k] != SelectLabel
    ensures forall j :: 0 <= j < |ds| && ds[j].optionText != "" && ds[j].optionText != SelectLabel ==> ds[j].optionText in labels
  {
    if ds == [] then []
    else
      var rest := VisibleLabels(ds[1..]);
      assert forall j :: 1 <= j < |ds| ==> ds[j] == ds[1..][j - 1];
      if ds[0].optionText != "" && ds[0].optionText != SelectLabel then [ds[0].optionText] + rest else rest
  }

  /** The labels are taken dropdown by dropdown, in document order: each
      dropdown contributes its option text unless it is hidden. */
  lemma {:induction false} VisibleLabelsAppend(a: seq<Dropdown>, b: seq<Dropdown>)
    ensures VisibleLabels(a + b) == VisibleLabels(a) + VisibleLabels(b)
  {
    if a != [] {
      assert (a + b)[1..] == a[1..] + b;
      VisibleLabelsAppend(a[1..], b);
    } else {
      assert a + b == b;
    }
  }

  /** One dropdown shows its option text unless it is "" or "Select". */
  lemma VisibleLabelsSingleton(d: Dropdown)
    ensures VisibleLabels([d]) == if d.optionText != "" && d.optionText != SelectLabel then [d.optionText] else []
  {
    assert [d][1..] == [];
  }

  function TitleSuffix(ds: seq<Dropdown>): string
  {
    var labels := VisibleLabels(ds);
    if |labels| > 0 then TitleSeparator + Join(labels, LabelSeparator) else ""
  }

  /** The title after `updateProductTitle`: the cached original (taken once,
      from the text before the first " - ") followed by the visible labels. */
  function Retitled(t: Title, ds: seq<Dropdown>): Title
  {
    var original := if t.original != "" then t.original else BeforeFirst(t.text, TitleSeparator);
    Title(original + TitleSuffix(ds), original)
  }

  /** Titles do not compound: a second rebuild, after any change of the
      dropdowns, is the same as rebuilding the first title once. */
  lemma RetitleDoesNotCompound(t: Title, ds1: seq<Dropdown>, ds2: seq<Dropdown>)
    ensures Retitled(Retitled(t, ds1), ds2) == Retitled(t, ds2)
  {
    var once := Retitled(t, ds1);
    if once.original == "" {
      var suffix := TitleSuffix(ds1);
      assert once.text == suffix;
      if suffix != "" {
        assert suffix[..|TitleSeparator|] == TitleSeparator;
      }
    }
  }

  /** The cached original is the product name when the name holds no " - ":
      the rendered title is the name, " - " and the price. */
  lemma OriginalTitleIsName(name: string, price: string, ds: seq<Dropdown>)
    requires forall i :: 0 <= i < |name| ==> !OccursAt(name + TitleSeparator + price, TitleSeparator, i)
    ensures Retitled(Title(name + TitleSeparator + price, ""), ds) == Title(name + TitleSuffix(ds), name)
  {
    var text := name + TitleSeparator + price;
    assert text[|name|..|name| + |TitleSeparator|] == TitleSeparator;
    BeforeFirstOccurrence(text, TitleSeparator, |name|);
    assert text[..|name|] == name;
  }

  /** Whether the page-load loop rebuilds an item's title: some dropdown has
      a truthy value. */
  predicate HasPreselected(ds: seq<Dropdown>)
  {
    exists j :: 0 <= j < |ds| && ds[j].value != ""
  }

  function InitialTitle(item: BundleItem, t: Title): Title
  {
    if HasPreselected(item.dropdowns) then Retitled(t, item.dropdowns) else t
  }

  // ---- The submission ----

  /** Position of the first pair with this key, |sel| when there is none. */
  function KeyIndex(sel: Selection, key: string): (i: nat)
    ensures i <= |sel|
    ensures i < |sel| ==> sel[i].0 == key
    ensures forall j :: 0 <= j < i ==> sel[j].0 != key
  {
    if sel == [] then 0 else if sel[0].0 == key then 0 else 1 + KeyIndex(sel[1..], key)
  }

  /** No key occurs twice, as in a JavaScript object. */
  predicate DistinctKeys(sel: Selection)
  {
    forall i, j :: 0 <= i < j < |sel| ==> sel[i].0 != sel[j].0
  }

  /** `variations[key] = value` on a JavaScript object: an existing key keeps
      its place and takes the new value, a new key goes last (the order
      JavaScript keeps for keys that are not array indices); no other pair
      moves or changes. */
  function Put(sel: Selection, key: string, value: string): (r: Selection)
    ensures KeyIndex(sel, key) < |sel| ==> |r| == |sel|
    ensures KeyIndex(sel, key) == |sel| ==> |r| == |sel| + 1
    ensures r[KeyIndex(sel, key)] == (key, value)
    ensures forall i :: 0 <= i < |sel| && i != KeyIndex(sel, key) ==> r[i] == sel[i]
    ensures DistinctKeys(sel) ==> DistinctKeys(r)
  {
    var i := KeyIndex(sel, key);
    if i < |sel| then sel[i := (key, value)] else sel + [(key, value)]
  }

  /** With distinct keys, the pairs after an assignment are the new pair and
      the old pairs with other keys. */
  lemma PutPairs(sel: Selection, key: string, value: string)
    requires DistinctKeys(sel)
    ensures forall p :: p in Put(sel, key, value) <==> p == (key, value) || (p in sel && p.0 != key)
  {
    var r := Put(sel, key, value);
    var i := KeyIndex(sel, key);
    forall p | p in r
      ensures p == (key, value) || (p in sel && p.0 != key)
    {
      var m :| 0 <= m < |r| && r[m] == p;
      if m != i {
        assert m < |sel| && r[m] == sel[m];
        if i < |sel| {
          assert sel[i].0 == key;
        }
      }
    }
    forall p | p in sel && p.0 != key
      ensures p in r
    {
      var m :| 0 <= m < |sel| && sel[m] == p;
      assert r[m] == p;
    }
  }

  /** The `variations` object of one entry: each dropdown's attribute mapped
      to its current value; empty exactly when the item has no dropdowns. */
  function SubmittedVariations(ds: seq<Dropdown>): (sel: Selection)
    ensures |sel| <= |ds|
    ensures |sel| == 0 <==> |ds| == 0
    ensures DistinctKeys(sel)
  {
    if ds == [] then []
    else Put(SubmittedVariations(ds[..|ds| - 1]), ds[|ds| - 1].attribute, ds[|ds| - 1].value)
  }

  /** No later dropdown of the list has the same attribute as dropdown j. */
  predicate LastWithAttribute(ds: seq<Dropdown>, j: nat)
    requires j < |ds|
  {
    forall m :: j < m < |ds| ==> ds[m].attribute != ds[j].attribute
  }

  /** The object maps every attribute to the value of the last dropdown
      carrying it, and holds no pair that no dropdown gave it. */
  lemma {:induction false} SubmittedVariationsPairs(ds: seq<Dropdown>)
    ensures forall j :: 0 <= j < |ds| && LastWithAttribute(ds, j) ==>
      (ds[j].attribute, ds[j].value) in SubmittedVariations(ds)
    ensures forall p :: p in SubmittedVariations(ds) ==>
      exists j :: 0 <= j < |ds| && p == (ds[j].attribute, ds[j].value)
  {
    if ds != [] {
      var init := ds[..|ds| - 1];
      var last := ds[|ds| - 1];
      SubmittedVariationsPairs(init);
      PutPairs(SubmittedVariations(init), last.attribute, last.value);
      var sel := SubmittedVariations(ds);
      forall j | 0 <= j < |ds| && LastWithAttribute(ds, j)
        ensures (ds[j].attribute, ds[j].value) in sel
      {
        if j < |init| {
          assert init[j] == ds[j];
          assert ds[j].attribute != last.attribute;
          assert LastWithAttribute(init, j) by {
            forall m | j < m < |init| ensures init[m].attribute != init[j].attribute {
              assert init[m] == ds[m];
            }
          }
        }
      }
      forall p | p in sel
        ensures exists j :: 0 <= j < |ds| && p == (ds[j].attribute, ds[j].value)
      {
        if p != (last.attribute, last.value) {
          var j :| 0 <= j < |init| && p == (init[j].attribute, init[j].value);
          assert init[j] == ds[j];
        }
      }
    }
  }

  /** The entry a checked item contributes. */
  function EntryOf(item: BundleItem): Entry
  {
    Entry(item.productId, SubmittedVariations(item.dropdowns))
  }

  /** `product_data`: one entry per checked item, in document order. */
  function Submission(items: seq<BundleItem>): (data: seq<Entry>)
    ensures |data| <= |items|
  {
    if items == [] then []
    else Submission(items[..|items| - 1]) + if items[|items| - 1].checked then [EntryOf(items[|items| - 1])] else []
  }

  /** The submission is built item by item in document order: a checked
      item contributes exactly its own entry, an unchecked one nothing. */
  lemma {:induction false} SubmissionAppend(a: seq<BundleItem>, b: seq<BundleItem>)
    ensures Submission(a + b) == Submission(a) + Submission(b)
    decreases |b|
  {
    if b == [] {
      assert a + b == a;
    } else {
      var b' := b[..|b| - 1];
      SubmissionAppend(a, b');
      assert (a + b)[..|a + b| - 1] == a + b';
      assert (a + b)[|a + b| - 1] == b[|b| - 1];
    }
  }

  /** One item alone: its entry when checked, nothing otherwise. */
  lemma SubmissionSingleton(item: BundleItem)
    ensures Submission([item]) == if item.checked then [EntryOf(item)] else []
  {
    assert [item][..0] == [];
  }

  /** Every submitted entry is the entry of some checked item. */
  lemma {:induction false} SubmissionFromCheckedItems(items: seq<BundleItem>, n: nat)
    requires n < |Submission(items)|
    ensures exists k :: 0 <= k < |items| && items[k].checked && Submission(items)[n] == EntryOf(items[k])
  {
    var init := items[..|items| - 1];
    if n < |Submission(init)| {
      SubmissionFromCheckedItems(init, n);
      var k :| 0 <= k < |init| && init[k].checked && Submission(init)[n] == EntryOf(init[k]);
      assert items[k] == init[k];
    } else {
      assert Submission(items)[n] == EntryOf(items[|items| - 1]);
    }
  }

  /** Every checked item is submitted. */
  lemma {:induction false} CheckedItemSubmitted(items: seq<BundleItem>, k: nat)
    requires k < |items| && items[k].checked
    ensures EntryOf(items[k]) in Submission(items)
  {
    var init := items[..|items| - 1];
    if k < |init| {
      CheckedItemSubmitted(init, k);
      assert init[k] == items[k];
    }
  }

  /** Nothing is submitted exactly when nothing is checked. */
  lemma {:induction false} SubmissionEmptyIff(items: seq<BundleItem>)
    ensures |Submission(items)| == 0 <==> !AnyChecked(items)
  {
    if AnyChecked(items) {
      var k :| 0 <= k < |items| && items[k].checked;
      CheckedItemSubmitted(items, k);
    }
    if |Submission(items)| > 0 {
      SubmissionFromCheckedItems(items, 0);
    }
  }

  /** The builder of the click handler: the `.map` over the checked boxes
      and the `.each` over each product's dropdowns. */
  method BuildProductData(items: seq<BundleItem>) returns (productData: seq<Entry>)
    ensures productData == Submission(items)
  {
    productData := [];
    var i := 0;
    while i < |items|
      invariant 0 <= i <= |items|
      invariant productData == Submission(items[..i])
    {
      assert items[..i + 1][..i] == items[..i];
      if items[i].checked {
        var dropdowns := items[i].dropdowns;
        var variations: Selection := [];
        var j := 0;
        while j < |dropdowns|
          invariant 0 <= j <= |dropdowns|
          invariant variations == SubmittedVariations(dropdowns[..j])
        {
          assert dropdowns[..j + 1][..j] == dropdowns[..j];
          variations := Put(variations, dropdowns[j].attribute, dropdowns[j].value);
          j := j + 1;
        }
        assert dropdowns[..j] == dropdowns;
        productData := productData + [EntryOf(items[i])];
      }
      i := i + 1;
    }
    assert items[..i] == items;
  }

  // ---- The page ----

  /** The reply of the add-all request as the client reads it. */
  datatype Reply = ReplySuccess | ReplyError(message: string, variationRequired: bool)

  /** What the toast says for an error reply: a `variation_required` reply
      shows the server's message as it is; any other shows it, or the
      default failure text when it is empty. */
  function ErrorToast(message: string, variationRequired: bool): (text: string)
    ensures variationRequired ==> text == message
    ensures !variationRequired ==> text != ""
    ensures message != "" ==> text == message
  {
    if variationRequired then message
    else if message != "" then message
    else DefaultFailureMessage
  }

  datatype ClickResult = ToastOnly(message: string) | SendRequest(productData: seq<Entry>)

  class BundleWidget {
    var items: seq<BundleItem>
    var titles: seq<Title>
    var flags: Flags
    var total: int
    var addAllDisabled: bool
    var addAllLabel: string

    /** One title per item. */
    ghost predicate Valid()
      reads this
    {
      |titles| == |items|
    }

    /** `updateFBTState`: recompute, then write the total and the button. */
    method UpdateFBTState()
      modifies this
      ensures items == old(items) && titles == old(titles) && flags == old(flags)
      ensures addAllLabel == old(addAllLabel)
      ensures total == Scan(items, flags).total
      ensures addAllDisabled == !AddAllEnabled(items, flags)
    {
      var t, enabled := ComputeFBTState(items, flags);
      total := t;
      addAllDisabled := !enabled;
    }

    /** `updateProductTitle` for the item owning the changed dropdown. */
    method UpdateProductTitle(k: nat)
      requires Valid() && k < |items|
      modifies this
      ensures Valid()
      ensures items == old(items) && flags == old(flags) && total == old(total)
      ensures titles == old(titles)[k := Retitled(old(titles)[k], items[k].dropdowns)]
      ensures addAllDisabled == old(addAllDisabled) && addAllLabel == old(addAllLabel)
    {
      var title := titles[k];
      var original := if title.original != "" then title.original else BeforeFirst(title.text, TitleSeparator);
      var labels := VisibleLabels(items[k].dropdowns);
      var text := original + (if |labels| > 0 then TitleSeparator + Join(labels, LabelSeparator) else "");
      titles := titles[k := Title(text, original)];
    }

    /** Lines 6-11 of the page-load code: a false flag for every product
        rendered with a variations block. */
    method InitVariableFlags()
      modifies this
      ensures items == old(items) && titles == old(titles) && total == old(total)
      ensures addAllDisabled == old(addAllDisabled) && addAllLabel == old(addAllLabel)
      ensures flags == MarkVariableProducts(items)
    {
      flags := map[];
      var i := 0;
      while i < |items|
        invariant 0 <= i <= |items|
        invariant items == old(items) && titles == old(titles) && total == old(total)
        invariant addAllDisabled == old(addAllDisabled) && addAllLabel == old(addAllLabel)
        invariant flags == MarkVariableProducts(items[..i])
      {
        assert items[..i + 1][..i] == items[..i];
        if items[i].hasVariationsBlock && items[i].productId != 0 {
          flags := flags[items[i].productId := false];
        }
        i := i + 1;
      }
      assert items[..i] == items;
    }

    /** Lines 221-228 for one item: each of its dropdowns sets the product's
        flag to false and, when it has a value, rebuilds the title. */
    method InitItemDropdowns(i: nat)
      requires Valid() && i < |items|
      modifies this
      ensures Valid()
      ensures items == old(items) && total == old(total)
      ensures addAllDisabled == old(addAllDisabled) && addAllLabel == old(addAllLabel)
      ensures flags == if |items[i].dropdowns| > 0 then old(flags)[items[i].productId := false] else old(flags)
      ensures titles == old(titles)[i := InitialTitle(items[i], old(titles)[i])]
    {
      var dropdowns := items[i].dropdowns;
      var productId := items[i].productId;
      ghost var before := titles[i];
      ghost var rebuilt := false;
      var j := 0;
      while j < |dropdowns|
        invariant 0 <= j <= |dropdowns|
        invariant |titles| == |items|
        invariant items == old(items) && total == old(total)
        invariant addAllDisabled == old(addAllDisabled) && addAllLabel == old(addAllLabel)
        invariant flags == if j == 0 then old(flags) else old(flags)[productId := false]
        invariant rebuilt <==> exists m :: 0 <= m < j && dropdowns[m].value != ""
        invariant titles == old(titles)[i := if rebuilt then Retitled(before, dropdowns) else before]
      {
        flags := flags[productId := false];
        if dropdowns[j].value != "" {
          RetitleDoesNotCompound(before, dropdowns, dropdowns);
          UpdateProductTitle(i);
          rebuilt := true;
        }
        j := j + 1;
      }
    }

    /** Lines 221-228: the dropdown pass over all items. */
    method InitDropdowns()
      requires Valid()
      modifies this
      ensures Valid()
      ensures items == old(items) && total == old(total)
      ensures addAllDisabled == old(addAllDisabled) && addAllLabel == old(addAllLabel)
      ensures flags == MarkDropdownProducts(items, old(flags))
      ensures forall k :: 0 <= k < |titles| ==> titles[k] == InitialTitle(items[k], old(titles)[k])
    {
      var i := 0;
      while i < |items|
        invariant 0 <= i <= |items|
        invariant Valid()
        invariant items == old(items) && total == old(total)
        invariant addAllDisabled == old(addAllDisabled) && addAllLabel == old(addAllLabel)
        invariant flags == MarkDropdownProducts(items[..i], old(flags))
        invariant forall k :: 0 <= k < i ==> titles[k] == InitialTitle(items[k], old(titles)[k])
        invariant forall k :: i <= k < |titles| ==> titles[k] == old(titles)[k]
      {
        assert items[..i + 1][..i] == items[..i];
        InitItemDropdowns(i);
        i := i + 1;
      }
      assert items[..i] == items;
    }

    /** Page load: the markup's state, all flags false, pre-selected titles
        rebuilt, then one recomputation. */
    constructor (rendered: seq<BundleItem>, renderedTitles: seq<Title>)
      requires |renderedTitles| == |rendered|
      ensures Valid()
      ensures items == rendered
      ensures flags == InitialFlags(rendered)
      ensures forall k :: 0 <= k < |titles| ==> titles[k] == InitialTitle(rendered[k], renderedTitles[k])
      ensures total == Scan(items, flags).total
      ensures addAllDisabled == !AddAllEnabled(items, flags)
      ensures addAllLabel == AddAllLabel
    {
      items := rendered;
      titles := renderedTitles;
      flags := map[];
      total := 0;
      addAllDisabled := true;
      addAllLabel := AddAllLabel;
      new;
      InitVariableFlags();
      InitDropdowns();
      UpdateFBTState();
    }

    /** A checkbox change: the box flips, flags stay as they are, recompute. */
    method OnCheckboxChange(k: nat, checked: bool)
      requires Valid() && k < |items|
      modifies this
      ensures Valid()
      ensures items == old(items)[k := old(items)[k].(checked := checked)]
      ensures flags == old(flags) && titles == old(titles) && addAllLabel == old(addAllLabel)
      ensures total == Scan(items, flags).total
      ensures addAllDisabled == !AddAllEnabled(items, flags)
    {
      items := items[k := items[k].(checked := checked)];
      UpdateFBTState();
    }

    /** A dropdown change: the dropdown takes its new value; the product's
        single flag becomes "the new value is non-empty", whatever the other
        dropdowns hold; then recompute and rebuild the title. */
    method OnVariationChange(k: nat, j: nat, value: string, optionText: string)
      requires Valid() && k < |items| && j < |items[k].dropdowns|
      modifies this
      ensures Valid()
      ensures items == old(items)[k := old(items)[k].(dropdowns := old(items)[k].dropdowns[j := old(items)[k].dropdowns[j].(value := value, optionText := optionText)])]
      ensures flags == old(flags)[old(items)[k].productId := value != ""]
      ensures titles == old(titles)[k := Retitled(old(titles)[k], items[k].dropdowns)]
      ensures total == Scan(items, flags).total
      ensures addAllDisabled == !AddAllEnabled(items, flags)
      ensures addAllLabel == old(addAllLabel)
    {
      var item := items[k];
      items := items[k := item.(dropdowns := item.dropdowns[j := item.dropdowns[j].(value := value, optionText := optionText)])];
      if value != "" {
        flags := flags[item.productId := true];
      } else {
        flags := flags[item.productId := false];
      }
      UpdateFBTState();
      UpdateProductTitle(k);
    }

    /** The Add-All click: a disabled button only shows a toast; nothing
        checked only shows a toast; otherwise the button is disabled, reads
        "Adding..." and the submission is sent. */
    method OnAddAllClick() returns (result: ClickResult)
      modifies this
      ensures items == old(items) && titles == old(titles) && flags == old(flags) && total == old(total)
      ensures old(addAllDisabled) ==>
        result == ToastOnly(SelectVariationsMessage) && addAllDisabled && addAllLabel == old(addAllLabel)
      ensures !old(addAllDisabled) && !AnyChecked(items) ==>
        result == ToastOnly(SelectProductMessage) && !addAllDisabled && addAllLabel == old(addAllLabel)
      ensures !old(addAllDisabled) && AnyChecked(items) ==>
        result == SendRequest(Submission(items)) && addAllDisabled && addAllLabel == AddingLabel
    {
      if addAllDisabled {
        return ToastOnly(SelectVariationsMessage);
      }
      var productData := BuildProductData(items);
      SubmissionEmptyIff(items);
      if |productData| == 0 {
        return ToastOnly(SelectProductMessage);
      }
      addAllDisabled := true;
      addAllLabel := AddingLabel;
      return SendRequest(productData);
    }

    /** The request's reply: success leaves the button disabled (the page
        reloads); an error shows a toast and re-enables the button. */
    method OnAddAllReply(reply: Reply) returns (toast: Option<string>)
      modifies this
      ensures items == old(items) && titles == old(titles) && flags == old(flags) && total == old(total)
      ensures reply.ReplySuccess? ==>
        toast == None && addAllDisabled == old(addAllDisabled) && addAllLabel == old(addAllLabel)
      ensures reply.ReplyError? ==>
        toast == Some(ErrorToast(reply.message, reply.variationRequired)) &&
        !addAllDisabled && addAllLabel == AddAllLabel
    {
      if reply.ReplySuccess? {
        return None;
      }
      addAllDisabled := false;
      addAllLabel := AddAllLabel;
      return Some(ErrorToast(reply.message, reply.variationRequired));
    }

    /** A transport error: toast and re-enable. */
    method OnTransportError() returns (toast: string)
      modifies this
      ensures items == old(items) && titles == old(titles) && flags == old(flags) && total == old(total)
      ensures toast == TransportErrorMessage && !addAllDisabled && addAllLabel == AddAllLabel
    {
      addAllDisabled := false;
      addAllLabel := AddAllLabel;
      return TransportErrorMessage;
    }
  }
}
