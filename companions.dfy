/**
 * The companion list an admin curates per main product: the meta-box
 * picker on the product edit screen (a small script that keeps at most two
 * distinct ids and mirrors them into a hidden field) and the save hook
 * `fbt_save_meta_box` that turns the posted field into the stored list.
 */
module CompanionList {

  import opened Wrappers
  import opened Text

  const MaxCompanions := 2

  // ---- fbt_save_meta_box ----

  /** What PHP `array_filter` without a callback keeps: "" and "0" are falsy. */
  predicate PhpTruthy(s: string)
  {
    s != "" && s != "0"
  }

  function KeepPhpTruthy(pieces: seq<string>): (r: seq<string>)
    ensures |r| <= |pieces|
    ensures forall x :: x in r <==> x in pieces && PhpTruthy(x)
    ensures forall k :: 0 <= k < |r| ==> PhpTruthy(r[k])
  {
    if pieces == [] then []
    else if PhpTruthy(pieces[0]) then [pieces[0]] + KeepPhpTruthy(pieces[1..])
    else KeepPhpTruthy(pieces[1..])
  }

  /** A list the save hook can store: at most two pieces, none falsy, none
      containing the separator. */
  predicate Storable(list: seq<string>)
  {
    |list| <= MaxCompanions && forall k :: 0 <= k < |list| ==> PhpTruthy(list[k]) && ',' !in list[k]
  }

  /** The new value of `_fbt_products`: unchanged when the field is not
      posted, else the first two truthy comma-separated pieces of the
      sanitised field, in order. */
  function SaveMetaBox(stored: seq<string>, posted: Option<string>, sanitize: string -> string): (r: seq<string>)
    ensures posted.None? ==> r == stored
    ensures posted.Some? ==>
      var truthy := KeepPhpTruthy(Split(sanitize(posted.value), ','));
      Storable(r) && r <= truthy && |r| == if |truthy| < MaxCompanions then |truthy| else MaxCompanions
  {
    match posted
    case None => stored
    case Some(raw) =>
      var split := Split(sanitize(raw), ',');
      var pieces := KeepPhpTruthy(split);
      assert forall k :: 0 <= k < |pieces| ==> pieces[k] in split;
      var r := if |pieces| <= MaxCompanions then pieces else pieces[..MaxCompanions];
      assert forall k :: 0 <= k < |r| ==> r[k] == pieces[k];
      r
  }

  /** The filter works piece by piece: it keeps the truthy pieces in their
      order and with their repetitions. */
  lemma {:induction false} KeepPhpTruthyAppend(a: seq<string>, b: seq<string>)
    ensures KeepPhpTruthy(a + b) == KeepPhpTruthy(a) + KeepPhpTruthy(b)
  {
    if a != [] {
      assert (a + b)[0] == a[0] && (a + b)[1..] == a[1..] + b;
      KeepPhpTruthyAppend(a[1..], b);
      if PhpTruthy(a[0]) {
        assert KeepPhpTruthy(a + b) == [a[0]] + KeepPhpTruthy(a[1..] + b);
        assert KeepPhpTruthy(a) == [a[0]] + KeepPhpTruthy(a[1..]);
      } else {
        assert KeepPhpTruthy(a + b) == KeepPhpTruthy(a[1..] + b);
        assert KeepPhpTruthy(a) == KeepPhpTruthy(a[1..]);
      }
    } else {
      assert a + b == b;
    }
  }

  lemma {:induction false} KeepPhpTruthyOfTruthy(pieces: seq<string>)
    requires forall k :: 0 <= k < |pieces| ==> PhpTruthy(pieces[k])
    ensures KeepPhpTruthy(pieces) == pieces
  {
    if pieces != [] {
      KeepPhpTruthyOfTruthy(pieces[1..]);
    }
  }

  /** Posting three ids stores the first two. */
  lemma ThreeIdsTruncateToTwo(a: string, b: string, c: string, sanitize: string -> string)
    requires PhpTruthy(a) && PhpTruthy(b) && PhpTruthy(c)
    requires ',' !in a && ',' !in b && ',' !in c
    requires sanitize(a + "," + b + "," + c) == a + "," + b + "," + c
    ensures SaveMetaBox([], Some(a + "," + b + "," + c), sanitize) == [a, b]
  {
    var raw := a + "," + b + "," + c;
    assert Join([a, b, c], ",") == raw by {
      assert [a, b, c][1..] == [b, c];
      assert [b, c][1..] == [c];
      assert Join([b, c], ",") == b + "," + c;
      assert a + "," + (b + "," + c) == raw;
    }
    SplitJoin([a, b, c], ',');
    KeepPhpTruthyOfTruthy([a, b, c]);
  }

  // ---- The meta-box picker ----

  /** JavaScript `split(',').filter(Boolean)` on the hidden field: only empty
      pieces are dropped ("0" is a truthy string there). */
  function KeepNonEmpty(pieces: seq<string>): (r: seq<string>)
    ensures |r| <= |pieces|
    ensures forall x :: x in r <==> x in pieces && x != ""
    ensures forall k :: 0 <= k < |r| ==> r[k] != ""
  {
    if pieces == [] then []
    else if pieces[0] != "" then [pieces[0]] + KeepNonEmpty(pieces[1..])
    else KeepNonEmpty(pieces[1..])
  }

  /** `selectedProducts.filter(id => id !== productId)`. */
  function RemoveAll(ids: seq<string>, productId: string): (r: seq<string>)
    ensures |r| <= |ids|
    ensures forall x :: x in r <==> x in ids && x != productId
  {
    if ids == [] then []
    else if ids[0] != productId then [ids[0]] + RemoveAll(ids[1..], productId)
    else RemoveAll(ids[1..], productId)
  }

  /** `filter(Boolean)` keeps the non-empty pieces in order. */
  lemma {:induction false} KeepNonEmptyAppend(a: seq<string>, b: seq<string>)
    ensures KeepNonEmpty(a + b) == KeepNonEmpty(a) + KeepNonEmpty(b)
  {
    if a != [] {
      assert (a + b)[0] == a[0] && (a + b)[1..] == a[1..] + b;
      KeepNonEmptyAppend(a[1..], b);
      if a[0] != "" {
        assert KeepNonEmpty(a + b) == [a[0]] + KeepNonEmpty(a[1..] + b);
        assert KeepNonEmpty(a) == [a[0]] + KeepNonEmpty(a[1..]);
      } else {
        assert KeepNonEmpty(a + b) == KeepNonEmpty(a[1..] + b);
        assert KeepNonEmpty(a) == KeepNonEmpty(a[1..]);
      }
    } else {
      assert a + b == b;
    }
  }

  /** Removal keeps the other ids in their order. */
  lemma {:induction false} RemoveAllAppend(a: seq<string>, b: seq<string>, productId: string)
    ensures RemoveAll(a + b, productId) == RemoveAll(a, productId) + RemoveAll(b, productId)
  {
    if a != [] {
      assert (a + b)[0] == a[0] && (a + b)[1..] == a[1..] + b;
      RemoveAllAppend(a[1..], b, productId);
      if a[0] != productId {
        assert RemoveAll(a + b, productId) == [a[0]] + RemoveAll(a[1..] + b, productId);
        assert RemoveAll(a, productId) == [a[0]] + RemoveAll(a[1..], productId);
      } else {
        assert RemoveAll(a + b, productId) == RemoveAll(a[1..] + b, productId);
        assert RemoveAll(a, productId) == RemoveAll(a[1..], productId);
      }
    } else {
      assert a + b == b;
    }
  }

  predicate Distinct(ids: seq<string>)
  {
    forall i, j :: 0 <= i < j < |ids| ==> ids[i] != ids[j]
  }

  lemma {:induction false} RemoveAllKeepsDistinct(ids: seq<string>, productId: string)
    ensures Distinct(ids) ==> Distinct(RemoveAll(ids, productId))
  {
    if ids != [] && Distinct(ids) {
      assert Distinct(ids[1..]) by {
        forall i, j | 0 <= i < j < |ids[1..]| ensures ids[1..][i] != ids[1..][j] {
          assert ids[1..][i] == ids[i + 1] && ids[1..][j] == ids[j + 1];
        }
      }
      RemoveAllKeepsDistinct(ids[1..], productId);
      assert ids[0] !in ids[1..];
      var rest := RemoveAll(ids[1..], productId);
      if ids[0] != productId {
        var r := [ids[0]] + rest;
        forall i, j | 0 <= i < j < |r| ensures r[i] != r[j] {
          if i == 0 {
            assert r[j] == rest[j - 1] && rest[j - 1] in rest;
          } else {
            assert r[i] == rest[i - 1] && r[j] == rest[j - 1];
          }
        }
      }
    }
  }

  lemma {:induction false} RemoveAllAbsent(ids: seq<string>, productId: string)
    requires productId !in ids
    ensures RemoveAll(ids, productId) == ids
  {
    if ids != [] {
      RemoveAllAbsent(ids[1..], productId);
    }
  }

  /** The alert text shown when a third companion is picked. */
  const LimitMessage := "You can select a maximum of 2 additional products."

  /** What the change handler does: add the id, raise the alert with its
      text, or nothing. */
  datatype AddOutcome = Added | LimitAlert(message: string) | Ignored

  /** The picker's `selectedProducts` array and the hidden `fbt_products`
      field it writes through `updateHiddenField`. */
  class Picker {
    var selected: seq<string>
    var hidden: string

    /** The picker's promise: at most two distinct, non-empty ids. */
    ghost predicate Valid()
      reads this
    {
      |selected| <= MaxCompanions && Distinct(selected) &&
      forall k :: 0 <= k < |selected| ==> selected[k] != ""
    }

    /** Page load: the list is read back from the hidden field. */
    constructor (hiddenValue: string)
      ensures hidden == hiddenValue
      ensures selected == KeepNonEmpty(Split(hiddenValue, ','))
      ensures |selected| <= MaxCompanions && Distinct(selected) ==> Valid()
    {
      hidden := hiddenValue;
      selected := KeepNonEmpty(Split(hiddenValue, ','));
    }

    /** The dropdown's change handler: a non-empty id not yet chosen is
        appended while fewer than two are chosen; a full list raises the
        alert; anything else is ignored. */
    method Add(productId: string) returns (outcome: AddOutcome)
      modifies this
      ensures var accepted := productId != "" && productId !in old(selected) && |old(selected)| < MaxCompanions;
        selected == (if accepted then old(selected) + [productId] else old(selected)) &&
        hidden == (if accepted then Join(selected, ",") else old(hidden)) &&
        outcome == (if accepted then Added else if |old(selected)| >= MaxCompanions then LimitAlert(LimitMessage) else Ignored)
      ensures old(Valid()) ==> Valid()
    {
      if productId != "" && productId !in selected && |selected| < MaxCompanions {
        selected := selected + [productId];
        hidden := Join(selected, ",");
        outcome := Added;
      } else if |selected| >= MaxCompanions {
        outcome := LimitAlert(LimitMessage);
      } else {
        outcome := Ignored;
      }
    }

    /** The remove control: every copy of the id is dropped, the rest keep
        their order, and the hidden field is rewritten. */
    method Remove(productId: string)
      modifies this
      ensures selected == RemoveAll(old(selected), productId)
      ensures hidden == Join(selected, ",")
      ensures old(Valid()) ==> Valid()
    {
      RemoveAllKeepsDistinct(selected, productId);
      selected := RemoveAll(selected, productId);
      hidden := Join(selected, ",");
    }
  }

  /** Reloading the edit screen re-reads exactly what the save hook stored:
      the picker starts from the stored list. */
  lemma PickerReloadsStoredList(list: seq<string>)
    requires Storable(list)
    ensures KeepNonEmpty(Split(Join(list, ","), ',')) == list
  {
    if list == [] {
      assert Split("", ',') == [""];
    } else {
      SplitJoin(list, ',');
      KeepNonEmptyOfNonEmpty(list);
    }
  }

  lemma {:induction false} KeepNonEmptyOfNonEmpty(pieces: seq<string>)
    requires forall k :: 0 <= k < |pieces| ==> pieces[k] != ""
    ensures KeepNonEmpty(pieces) == pieces
  {
    if pieces != [] {
      KeepNonEmptyOfNonEmpty(pieces[1..]);
    }
  }

  /** Saving the picker's hidden field stores the picker's list, provided
      the sanitiser leaves it alone and no id is the PHP-falsy "0". */
  lemma SavePickerRoundTrip(selected: seq<string>, sanitize: string -> string)
    requires |selected| <= MaxCompanions
    requires forall k :: 0 <= k < |selected| ==> PhpTruthy(selected[k]) && ',' !in selected[k]
    requires sanitize(Join(selected, ",")) == Join(selected, ",")
    ensures SaveMetaBox([], Some(Join(selected, ",")), sanitize) == selected
  {
    if selected == [] {
      assert Split("", ',') == [""];
    } else {
      SplitJoin(selected, ',');
      KeepPhpTruthyOfTruthy(selected);
    }
  }

  /** The save-and-reload cycle of a valid picker: its hidden field is
      saved, the edit screen is reloaded from what was stored (the hidden
      field is the stored list joined by commas) and the picker reads back
      the same list, so it is valid again. */
  lemma SaveReloadKeepsValid(selected: seq<string>, sanitize: string -> string)
    requires |selected| <= MaxCompanions && Distinct(selected)
    requires forall k :: 0 <= k < |selected| ==> PhpTruthy(selected[k]) && ',' !in selected[k]
    requires sanitize(Join(selected, ",")) == Join(selected, ",")
    ensures var stored := SaveMetaBox([], Some(Join(selected, ",")), sanitize);
      var reloaded := KeepNonEmpty(Split(Join(stored, ","), ','));
      stored == selected && reloaded == selected &&
      |reloaded| <= MaxCompanions && Distinct(reloaded)
  {
    SavePickerRoundTrip(selected, sanitize);
    PickerReloadsStoredList(selected);
  }

  /** The save hook does not remove duplicates: a field "5,5" is stored as
      two copies of "5", and a picker reloaded from it holds both. */
  lemma SaveKeepsDuplicates(sanitize: string -> string)
    requires sanitize("5,5") == "5,5"
    ensures SaveMetaBox([], Some("5,5"), sanitize) == ["5", "5"]
    ensures !Distinct(KeepNonEmpty(Split(Join(["5", "5"], ","), ',')))
  {
    assert "5,5" == "5" + [','] + "5";
    SplitJoin(["5", "5"], ',');
    assert Join(["5", "5"], ",") == "5,5";
    KeepPhpTruthyOfTruthy(["5", "5"]);
    KeepNonEmptyOfNonEmpty(["5", "5"]);
  }
}
