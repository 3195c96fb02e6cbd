/**
 * The variation resolver, `find_matching_variation_id`: the first variation
 * of a variable product (in catalog order) that carries every requested
 * attribute with a case-insensitively equal value.
 */
module VariationResolver {

  import opened Storefront

  /** The key a requested attribute name is looked up under. */
  function AttributeKey(ops: TextOps, name: string): string
  {
    "attribute_" + ops.sanitizeTitle(name)
  }

  /** One requested (name, value) pair is present in the variation with a
      value equal after lower-casing. */
  predicate PairMatches(v: Variation, p: (string, string), ops: TextOps)
  {
    var key := AttributeKey(ops, p.0);
    key in v.attributes && ops.toLower(v.attributes[key]) == ops.toLower(p.1)
  }

  /** Every requested pair matches (vacuously true for an empty selection). */
  predicate Matches(v: Variation, selected: Selection, ops: TextOps)
  {
    forall i :: 0 <= i < |selected| ==> PairMatches(v, selected[i], ops)
  }

  /** The index of the first matching variation, or |vs| when none matches. */
  function FirstMatch(vs: seq<Variation>, selected: Selection, ops: TextOps): (k: nat)
    ensures k <= |vs|
    ensures k < |vs| ==> Matches(vs[k], selected, ops)
    ensures forall j :: 0 <= j < k ==> !Matches(vs[j], selected, ops)
  {
    if vs == [] then 0
    else if Matches(vs[0], selected, ops) then 0
    else 1 + FirstMatch(vs[1..], selected, ops)
  }

  /** The value `find_matching_variation_id` returns: 0 for a missing or
      non-variable product and for no match, else the first match's id. */
  function Resolve(catalog: Catalog, productId: ProductId, selected: Selection, ops: TextOps): (id: int)
    ensures productId !in catalog || catalog[productId].NonVariable? ==> id == 0
    ensures id != 0 ==>
      productId in catalog && catalog[productId].Variable? &&
      exists k :: 0 <= k < |catalog[productId].variations| &&
        catalog[productId].variations[k].variationId == id &&
        Matches(catalog[productId].variations[k], selected, ops)
  {
    if productId in catalog && catalog[productId].Variable? then
      var vs := catalog[productId].variations;
      var k := FirstMatch(vs, selected, ops);
      if k < |vs| then vs[k].variationId else 0
    else 0
  }

  /** The resolver as the source writes it: an outer loop over the variations
      and an inner loop over the requested pairs that stops at the first
      mismatch; the first variation that survives is returned. */
  method FindMatchingVariationId(catalog: Catalog, productId: ProductId, selected: Selection, ops: TextOps)
    returns (id: int)
    ensures productId !in catalog || catalog[productId].NonVariable? ==> id == 0
    ensures productId in catalog && catalog[productId].Variable? ==>
      var vs := catalog[productId].variations;
      (exists k :: 0 <= k < |vs| && Matches(vs[k], selected, ops) &&
         (forall j :: 0 <= j < k ==> !Matches(vs[j], selected, ops)) && id == vs[k].variationId)
      || ((forall k :: 0 <= k < |vs| ==> !Matches(vs[k], selected, ops)) && id == 0)
    ensures id == Resolve(catalog, productId, selected, ops)
  {
    if productId !in catalog || !catalog[productId].Variable? {
      return 0;
    }
    var variations := catalog[productId].variations;
    var i := 0;
    while i < |variations|
      invariant 0 <= i <= |variations|
      invariant forall j :: 0 <= j < i ==> !Matches(variations[j], selected, ops)
    {
      var variation := variations[i];
      var isMatch := true;
      var a := 0;
      while a < |selected|
        invariant 0 <= a <= |selected|
        invariant isMatch
        invariant forall b :: 0 <= b < a ==> PairMatches(variation, selected[b], ops)
      {
        var (attribute, value) := selected[a];
        var attrKey := "attribute_" + ops.sanitizeTitle(attribute);
        if attrKey !in variation.attributes || ops.toLower(variation.attributes[attrKey]) != ops.toLower(value) {
          isMatch := false;
          break;
        }
        a := a + 1;
      }
      if isMatch {
        assert FirstMatch(variations, selected, ops) == i;
        return variation.variationId;
      }
      assert !PairMatches(variation, selected[a], ops);
      i := i + 1;
    }
    assert FirstMatch(variations, selected, ops) == |variations|;
    return 0;
  }

  /** First match wins: of two variations with identical attributes, the
      later one is never the one resolved. */
  lemma EarlierDuplicateWins(vs: seq<Variation>, selected: Selection, ops: TextOps, i: nat, j: nat)
    requires i < j < |vs|
    requires vs[i].attributes == vs[j].attributes
    ensures FirstMatch(vs, selected, ops) != j
    ensures FirstMatch(vs, selected, ops) <= i || !Matches(vs[j], selected, ops)
  {
    assert Matches(vs[i], selected, ops) == Matches(vs[j], selected, ops) by {
      forall b | 0 <= b < |selected|
        ensures PairMatches(vs[i], selected[b], ops) == PairMatches(vs[j], selected[b], ops)
      {
      }
    }
  }

  /** An empty selection is met by the first variation of a variable
      product; a variable product with no available variation resolves to 0. */
  lemma EmptySelectionPicksFirst(catalog: Catalog, productId: ProductId, ops: TextOps)
    requires productId in catalog && catalog[productId].Variable?
    ensures var vs := catalog[productId].variations;
      Resolve(catalog, productId, [], ops) == if |vs| > 0 then vs[0].variationId else 0
  {
  }

  /** Values are compared only after lower-casing: two selections with the
      same names and lower-case-equal values resolve alike. */
  lemma {:induction false} ResolveIgnoresValueCase(vs: seq<Variation>, s1: Selection, s2: Selection, ops: TextOps)
    requires |s1| == |s2|
    requires forall i :: 0 <= i < |s1| ==> s1[i].0 == s2[i].0 && ops.toLower(s1[i].1) == ops.toLower(s2[i].1)
    ensures FirstMatch(vs, s1, ops) == FirstMatch(vs, s2, ops)
  {
    if vs != [] {
      assert Matches(vs[0], s1, ops) == Matches(vs[0], s2, ops) by {
        forall b | 0 <= b < |s1|
          ensures PairMatches(vs[0], s1[b], ops) == PairMatches(vs[0], s2[b], ops)
        {
        }
      }
      ResolveIgnoresValueCase(vs[1..], s1, s2, ops);
    }
  }
}
