/**
 * The small pure rules of the bundle presenter (`fbt_display_section`):
 * which products are rendered and in what order, the price written on each
 * checkbox, and the contrast-colour helper `fbt_get_contrast_color`.
 */
module BundlePresenter {

  import opened Storefront

  predicate NoDuplicates<T(==)>(s: seq<T>)
  {
    forall i, j :: 0 <= i < j < |s| ==> s[i] != s[j]
  }

  /** The position of the first occurrence of `x` in `s`. */
  function FirstIndex<T(==)>(s: seq<T>, x: T): (i: nat)
    requires x in s
    ensures i < |s| && s[i] == x
    ensures forall j :: 0 <= j < i ==> s[j] != x
  {
    if s[0] == x then 0 else 1 + FirstIndex(s[1..], x)
  }

  /** PHP `array_unique` on a list: keep each value at its first occurrence,
      dropping values already in `seen`. */
  function DedupFrom(s: seq<ProductId>, seen: set<ProductId>): (r: seq<ProductId>)
    ensures NoDuplicates(r)
    ensures forall x :: x in r <==> x in s && x !in seen
  {
    if s == [] then []
    else if s[0] in seen then DedupFrom(s[1..], seen)
    else [s[0]] + DedupFrom(s[1..], seen + {s[0]})
  }

  function Dedup(s: seq<ProductId>): seq<ProductId>
  {
    DedupFrom(s, {})
  }

  /** `$fbt_products` after line 73: nothing when no companions are stored
      (the section is not rendered), else the main product followed by the
      stored companions, duplicates removed. */
  function RenderList(mainId: ProductId, stored: seq<ProductId>): (r: seq<ProductId>)
    ensures |stored| == 0 <==> r == []
    ensures |stored| > 0 ==> r[0] == mainId
    ensures NoDuplicates(r)
    ensures forall x :: x in r <==> |stored| > 0 && (x == mainId || x in stored)
  {
    if |stored| == 0 then [] else Dedup([mainId] + stored)
  }

  /** Every value of `r` occurs in `s`, and `r` lists them in the order of
      their first occurrences in `s`. */
  predicate InFirstOccurrenceOrder(r: seq<ProductId>, s: seq<ProductId>)
  {
    (forall x :: x in r ==> x in s) &&
    forall i, j :: 0 <= i < j < |r| ==> FirstIndex(s, r[i]) < FirstIndex(s, r[j])
  }

  /** Order relative to the tail carries over to the whole list when the
      head is not among the values. */
  lemma OrderInTailExtends(s: seq<ProductId>, r: seq<ProductId>)
    requires s != [] && s[0] !in r
    requires InFirstOccurrenceOrder(r, s[1..])
    ensures InFirstOccurrenceOrder(r, s)
  {
    forall x | x in r
      ensures x in s && FirstIndex(s, x) == 1 + FirstIndex(s[1..], x)
    {
      assert x != s[0];
    }
    forall i, j | 0 <= i < j < |r|
      ensures FirstIndex(s, r[i]) < FirstIndex(s, r[j])
    {
      assert r[i] in r && r[j] in r;
    }
  }

  /** The head of the list goes in front of values that follow it. */
  lemma OrderWithHead(s: seq<ProductId>, r: seq<ProductId>)
    requires s != [] && s[0] !in r
    requires InFirstOccurrenceOrder(r, s)
    ensures InFirstOccurrenceOrder([s[0]] + r, s)
  {
    var r' := [s[0]] + r;
    forall i, j | 0 <= i < j < |r'|
      ensures FirstIndex(s, r'[i]) < FirstIndex(s, r'[j])
    {
      assert r'[j] == r[j - 1] && r[j - 1] in r && r[j - 1] != s[0];
      if i > 0 {
        assert r'[i] == r[i - 1];
      }
    }
  }

  /** The surviving values keep the order of their first occurrences. */
  lemma {:induction false} DedupKeepsFirstOccurrenceOrder(s: seq<ProductId>, seen: set<ProductId>)
    ensures InFirstOccurrenceOrder(DedupFrom(s, seen), s)
  {
    if s != [] {
      var seen' := if s[0] in seen then seen else seen + {s[0]};
      var rest := DedupFrom(s[1..], seen');
      DedupKeepsFirstOccurrenceOrder(s[1..], seen');
      OrderInTailExtends(s, rest);
      if s[0] !in seen {
        OrderWithHead(s, rest);
      }
    }
  }

  /** Companions appear in the order in which they are first stored. */
  lemma RenderListOrder(mainId: ProductId, stored: seq<ProductId>)
    requires |stored| > 0
    ensures InFirstOccurrenceOrder(RenderList(mainId, stored), [mainId] + stored)
  {
    DedupKeepsFirstOccurrenceOrder([mainId] + stored, {});
  }

  /** A stored copy of the main product's id is not rendered a second time. */
  lemma MainProductRenderedOnce(mainId: ProductId, stored: seq<ProductId>)
    requires mainId in stored
    ensures var r := RenderList(mainId, stored);
      r[0] == mainId && forall i :: 0 < i < |r| ==> r[i] != mainId
  {
  }

  /** The checkbox's `data-price`: 0 for a variable product, whose price is
      only known once a variation is chosen, else its display price. */
  function CheckboxPrice(p: Product): (price: int)
    ensures p.Variable? ==> price == 0
    ensures p.NonVariable? ==> price == p.displayPrice
  {
    match p
    case Variable(_) => 0
    case NonVariable(displayPrice) => displayPrice
  }

  // ---- fbt_get_contrast_color ----

  predicate IsHexDigit(c: char)
  {
    '0' <= c <= '9' || 'a' <= c <= 'f' || 'A' <= c <= 'F'
  }

  function HexDigitValue(c: char): (d: nat)
    requires IsHexDigit(c)
    ensures d < 16
  {
    if '0' <= c <= '9' then c as int - '0' as int
    else if 'a' <= c <= 'f' then c as int - 'a' as int + 10
    else c as int - 'A' as int + 10
  }

  /** PHP `hexdec`: the hexadecimal digits of `s` read as a number, every
      other character silently ignored. */
  function HexDec(s: string): nat
  {
    if s == [] then 0
    else if IsHexDigit(s[|s| - 1]) then 16 * HexDec(s[..|s| - 1]) + HexDigitValue(s[|s| - 1])
    else HexDec(s[..|s| - 1])
  }

  function Pow16(n: nat): nat
  {
    if n == 0 then 1 else 16 * Pow16(n - 1)
  }

  lemma {:induction false} HexDecBound(s: string)
    ensures HexDec(s) < Pow16(|s|)
  {
    if s != [] {
      HexDecBound(s[..|s| - 1]);
    }
  }

  /** PHP 8 `substr(s, start, len)` for non-negative arguments. */
  function Substr(s: string, start: nat, len: nat): (r: string)
    ensures |r| <= len
  {
    if start >= |s| then ""
    else if start + len <= |s| then s[start..start + len]
    else s[start..]
  }

  /** One colour channel: `hexdec(substr($hexcolor, start, 2))`. */
  function Channel(hex: string, start: nat): (c: nat)
    ensures c <= 255
  {
    var digits := Substr(hex, start, 2);
    HexDecBound(digits);
    assert Pow16(|digits|) <= 256;
    HexDec(digits)
  }

  const Black := "#000000"
  const White := "#ffffff"

  /** The YIQ brightness test: black text on a light colour, white on a dark
      one. PHP's `/` gives a float here, and the result is black exactly when
      that quotient reaches 128. */
  function ContrastColor(hex: string): (color: string)
    ensures color == Black || color == White
    ensures color == Black <==>
      ((299 * Channel(hex, 1) + 587 * Channel(hex, 3) + 114 * Channel(hex, 5)) as real) / 1000.0 >= 128.0
  {
    var r := Channel(hex, 1);
    var g := Channel(hex, 3);
    var b := Channel(hex, 5);
    if 299 * r + 587 * g + 114 * b >= 128000 then Black else White
  }

  /** The plugin's default button colour `#96588a` (150, 88, 138) is dark
      and gets white text, matching its default text colour. */
  lemma DefaultButtonColorGetsWhiteText()
    ensures ContrastColor("#96588a") == White
  {
    assert Substr("#96588a", 1, 2) == "96";
    assert Substr("#96588a", 3, 2) == "58";
    assert Substr("#96588a", 5, 2) == "8a";
    assert HexDec("96") == 150 by { assert "96"[..1] == "9"; assert "9"[..0] == ""; }
    assert HexDec("58") == 88 by { assert "58"[..1] == "5"; assert "5"[..0] == ""; }
    assert HexDec("8a") == 138 by { assert "8a"[..1] == "8"; assert "8"[..0] == ""; }
  }

  /** Pure white gets black text. */
  lemma WhiteGetsBlackText()
    ensures ContrastColor(White) == Black
  {
    assert Substr(White, 1, 2) == "ff" && Substr(White, 3, 2) == "ff" && Substr(White, 5, 2) == "ff";
    assert HexDec("ff") == 255 by { assert "ff"[..1] == "f"; assert "f"[..0] == ""; }
  }
}
