// The product page: quantity buttons, the add-on selection, the check for
// required add-ons before the item goes to the cart, the price of the
// configured item, and the offer price computed when the item is loaded.

module ProductDetails {

  import opened Common
  import ArabicFormat
  import Catalog

  // ---------------------------------------------------------------------
  // Quantity

  /** incrementQuantity */
  function Increment(quantity: int): int { quantity + 1 }

  /** decrementQuantity: never below 1. */
  function Decrement(quantity: int): int { if quantity > 1 then quantity - 1 else 1 }

  /**
   * The quantity never drops below 1, one step down undoes one step up, and
   * from above 1 one step up undoes one step down.
   */
  lemma QuantitySteps(quantity: int)
    ensures Decrement(quantity) >= 1
    ensures quantity >= 1 ==> Increment(quantity) >= 1 && Decrement(Increment(quantity)) == quantity
    ensures quantity > 1 ==> Increment(Decrement(quantity)) == quantity
    ensures quantity <= 1 ==> Decrement(quantity) == 1
  {
  }

  /** The quantity as the page shows it: its decimal form in Arabic-Indic digits. */
  function DisplayQuantity(quantity: int): string {
    ArabicFormat.ToArabicNumbers(ArabicFormat.IntToString(quantity))
  }

  /** The shown quantity holds no ASCII digit and reads back as the decimal form. */
  lemma DisplayQuantityReadsBack(quantity: int)
    ensures NoDigits(DisplayQuantity(quantity))
    ensures ArabicFormat.FromArabicNumbers(DisplayQuantity(quantity)) == ArabicFormat.IntToString(quantity)
  {
    var s := ArabicFormat.IntToString(quantity);
    var n := if quantity < 0 then -quantity else quantity;
    ArabicFormat.NatToStringRoundTrip(n);
    assert ArabicFormat.NoArabicDigits(s) by {
      forall i | 0 <= i < |s| ensures !ArabicFormat.IsArabicDigit(s[i]) {
        if quantity < 0 && i == 0 {
          assert s[i] == '-';
        } else if quantity < 0 {
          assert s[i] == ArabicFormat.NatToString(n)[i - 1];
        } else {
          assert s[i] == ArabicFormat.NatToString(n)[i];
        }
      }
    }
    ArabicFormat.ToArabicNumbersIdempotent(s);
    ArabicFormat.FromArabicInverts(s);
  }

  // ---------------------------------------------------------------------
  // Add-on selection

  /** An option of an add-on group and its extra price. */
  datatype AddonOption = AddonOption(id: int, name: string, price: real)

  /** An add-on group of the product (`addonsData` entry). */
  datatype Addon = Addon(id: nat, title: string, isSelectionRequired: bool, options: seq<AddonOption>)

  /** "single" when the group allows one option, "multiple" otherwise. */
  datatype SelectionType = Single | Multiple

  /** `selectedAddons`: the chosen option ids per add-on group id. */
  type Selection = map<nat, seq<int>>

  /** `(id) => id !== optionId` */
  function Except(optionId: int): int -> bool {
    (id: int) => id != optionId
  }

  /** handleAddonSelect */
  function AddonSelect(prev: Selection, addonId: nat, optionId: int, selectionType: SelectionType): Selection {
    match selectionType
    case Single => prev[addonId := [optionId]]
    case Multiple =>
      var currentSelections := if addonId in prev then prev[addonId] else [];
      var updated :=
        if optionId in currentSelections then Filter(currentSelections, Except(optionId))
        else currentSelections + [optionId];
      if |updated| == 0 then prev - {addonId} else prev[addonId := updated]
  }

  predicate NoDuplicates(ids: seq<int>) {
    forall i, j :: 0 <= i < j < |ids| ==> ids[i] != ids[j]
  }

  /** No group maps to an empty list and no list repeats an option. */
  predicate WellFormed(selected: Selection) {
    forall k :: k in selected ==> |selected[k]| > 0 && NoDuplicates(selected[k])
  }

  /** Whether the option is currently chosen in that group. */
  predicate Chosen(selected: Selection, addonId: nat, optionId: int) {
    addonId in selected && optionId in selected[addonId]
  }

  /** Removing an element from a list without repeats keeps it without repeats. */
  lemma {:induction false} FilterNoDuplicates(ids: seq<int>, optionId: int)
    requires NoDuplicates(ids)
    ensures NoDuplicates(Filter(ids, Except(optionId)))
  {
    if ids != [] {
      var keep := Except(optionId);
      var t := ids[1..];
      assert NoDuplicates(t) by {
        forall i, j | 0 <= i < j < |t| ensures t[i] != t[j] {
          assert t[i] == ids[i + 1] && t[j] == ids[j + 1];
        }
      }
      FilterNoDuplicates(t, optionId);
      FilterSpec(t, keep);
      assert ids[0] !in t;
      var f := Filter(t, keep);
      assert ids[0] !in f;
      if keep(ids[0]) {
        assert Filter(ids, keep) == [ids[0]] + f;
      }
    }
  }

  /**
   * A single-choice group ends up with exactly the clicked option; in a
   * multiple-choice group the clicked option is added when absent and removed
   * when present, and a group left empty loses its key. No other group
   * changes, and no selection ever holds an empty list or a repeated option.
   */
  lemma AddonSelectSpec(prev: Selection, addonId: nat, optionId: int, selectionType: SelectionType)
    requires WellFormed(prev)
    ensures var r := AddonSelect(prev, addonId, optionId, selectionType);
      && WellFormed(r)
      && (forall k :: k != addonId ==> (k in r <==> k in prev) && (k in r ==> r[k] == prev[k]))
      && (selectionType == Single ==> addonId in r && r[addonId] == [optionId])
      && (selectionType == Multiple ==>
            (Chosen(r, addonId, optionId) <==> !Chosen(prev, addonId, optionId))
            && (forall o :: o != optionId ==> (Chosen(r, addonId, o) <==> Chosen(prev, addonId, o))))
  {
    if selectionType == Multiple {
      var cur := if addonId in prev then prev[addonId] else [];
      var keep := Except(optionId);
      if optionId in cur {
        FilterSpec(cur, keep);
        FilterNoDuplicates(cur, optionId);
      } else {
        var u := cur + [optionId];
        assert NoDuplicates(u) by {
          forall i, j | 0 <= i < j < |u| ensures u[i] != u[j] {
            if j == |u| - 1 {
              assert u[i] == cur[i];
            }
          }
        }
      }
    }
  }

  /** Clicking an unchosen option of a multiple-choice group twice leaves the selection as it was. */
  lemma AddonSelectTwice(prev: Selection, addonId: nat, optionId: int)
    requires WellFormed(prev) && !Chosen(prev, addonId, optionId)
    ensures AddonSelect(AddonSelect(prev, addonId, optionId, Multiple), addonId, optionId, Multiple) == prev
  {
    var cur := if addonId in prev then prev[addonId] else [];
    RemoveAppended(cur, optionId);
    var mid := AddonSelect(prev, addonId, optionId, Multiple);
    assert mid == prev[addonId := cur + [optionId]];
    if addonId in prev {
      assert |cur| > 0;
      assert AddonSelect(mid, addonId, optionId, Multiple) == mid[addonId := cur];
      assert mid[addonId := cur] == prev;
    } else {
      assert AddonSelect(mid, addonId, optionId, Multiple) == mid - {addonId};
      assert mid - {addonId} == prev;
    }
  }

  /** Removing an option just appended to a list that lacked it gives the list back. */
  lemma RemoveAppended(cur: seq<int>, optionId: int)
    requires optionId !in cur
    ensures Filter(cur + [optionId], Except(optionId)) == cur
  {
    var keep := Except(optionId);
    assert forall i :: 0 <= i < |cur| ==> keep(cur[i]);
    FilterAll(cur, keep);
    FilterConcat(cur, [optionId], keep);
    assert Filter([optionId], keep) == [];
  }

  /** The required groups that have no entry in the selection, in list order. */
  function MissingRequiredAddons(addonsData: seq<Addon>, selected: Selection): seq<Addon> {
    Filter(Filter(addonsData, (addon: Addon) => addon.isSelectionRequired), (addon: Addon) => addon.id !in selected)
  }

  /** The missing groups are exactly the required groups without a selection. */
  lemma MissingRequiredSpec(addonsData: seq<Addon>, selected: Selection)
    ensures forall a :: a in MissingRequiredAddons(addonsData, selected) <==>
      a in addonsData && a.isSelectionRequired && a.id !in selected
    ensures IsSubsequence(MissingRequiredAddons(addonsData, selected), addonsData)
  {
    var required := Filter(addonsData, (addon: Addon) => addon.isSelectionRequired);
    FilterSpec(addonsData, (addon: Addon) => addon.isSelectionRequired);
    FilterSpec(required, (addon: Addon) => addon.id !in selected);
    SubsequenceTransitive(MissingRequiredAddons(addonsData, selected), required, addonsData);
  }

  // ---------------------------------------------------------------------
  // Selected options in key order

  /** Object.values visits integer keys in ascending order: the smallest key of a non-empty selection. */
  ghost function MinKey(keys: set<nat>): (k: nat)
    requires keys != {}
    ensures k in keys && forall j :: j in keys ==> k <= j
  {
    MinExists(keys);
    var k :| k in keys && forall j :: j in keys ==> k <= j;
    k
  }

  lemma MinExists(keys: set<nat>)
    requires keys != {}
    ensures exists k :: k in keys && forall j :: j in keys ==> k <= j
  {
    var x :| x in keys;
    MinFrom(keys, x, 0);
  }

  /** Counting up from a bound below every key reaches the smallest key no later than `x`. */
  lemma {:induction false} MinFrom(keys: set<nat>, x: nat, i: nat)
    requires x in keys && i <= x
    requires forall j :: j in keys ==> i <= j
    ensures exists k :: k in keys && forall j :: j in keys ==> k <= j
    decreases x - i
  {
    if i !in keys {
      forall j | j in keys
        ensures i + 1 <= j
      {
        assert j != i;
      }
      MinFrom(keys, x, i + 1);
    }
  }

  /** The chosen option ids in the order the page reads them: by group id, then in list order. */
  ghost function SelectedOptionIds(selected: Selection): seq<int>
    decreases |selected.Keys|
  {
    if selected.Keys == {} then []
    else
      var k := MinKey(selected.Keys);
      assert (selected - {k}).Keys == selected.Keys - {k};
      selected[k] + SelectedOptionIds(selected - {k})
  }

  /** Unfolds the reading order once: the smallest group first, then the rest. */
  lemma SelectedPeel(selected: Selection, k: nat)
    requires selected.Keys != {} && k == MinKey(selected.Keys)
    ensures SelectedOptionIds(selected) == selected[k] + SelectedOptionIds(selected - {k})
    ensures |(selected - {k}).Keys| < |selected.Keys|
  {
    assert (selected - {k}).Keys == selected.Keys - {k};
  }

  /** Picks the smallest remaining group id. */
  method SmallestKey(remaining: Selection) returns (k: nat)
    requires remaining.Keys != {}
    ensures k == MinKey(remaining.Keys)
  {
    MinExists(remaining.Keys);
    k :| k in remaining && forall j :: j in remaining ==> k <= j;
    var m := MinKey(remaining.Keys);
    assert k <= m && m <= k;
  }

  /** Splits off the group with the smallest id. */
  method TakeSmallest(remaining: Selection) returns (group: seq<int>, rest: Selection)
    requires remaining.Keys != {}
    ensures SelectedOptionIds(remaining) == group + SelectedOptionIds(rest)
    ensures |rest.Keys| < |remaining.Keys|
  {
    var k := SmallestKey(remaining);
    SelectedPeel(remaining, k);
    group, rest := remaining[k], remaining - {k};
  }

  /**
   * The option ids sent with the cart item: every chosen id of every group,
   * gathered group by group.
   */
  method CollectOptions(selected: Selection) returns (options: seq<int>)
    ensures options == SelectedOptionIds(selected)
  {
    options := [];
    var remaining := selected;
    while remaining.Keys != {}
      invariant options + SelectedOptionIds(remaining) == SelectedOptionIds(selected)
      decreases |remaining.Keys|
    {
      var group, rest := TakeSmallest(remaining);
      ghost var later := SelectedOptionIds(rest);
      assert (options + group) + later == options + (group + later);
      options := PushEach(options, group);
      remaining := rest;
    }
    SelectedEmpty(remaining);
  }

  lemma SelectedEmpty(selected: Selection)
    requires selected.Keys == {}
    ensures SelectedOptionIds(selected) == []
  {
  }


  /** What pressing "add to cart" does. */
  datatype CartStep =
    | AskToLogIn
    | NotAvailable
    | AskForOptions(titles: seq<string>)
    | AddItem(quantity: int, options: seq<int>)

  function Titles(addons: seq<Addon>): (r: seq<string>)
    ensures |r| == |addons| && forall i :: 0 <= i < |addons| ==> r[i] == addons[i].title
  {
    seq(|addons|, i requires 0 <= i < |addons| => addons[i].title)
  }

  /**
   * handleAddToCart up to the request: without a token the user is asked to
   * log in, an unavailable item is refused, missing required groups are
   * named, and otherwise the item goes out with all chosen options.
   */
  method AddToCart(hasToken: bool, availableForCart: bool, addonsData: seq<Addon>,
                   selected: Selection, quantity: int) returns (step: CartStep)
    ensures !hasToken ==> step == AskToLogIn
    ensures hasToken && !availableForCart ==> step == NotAvailable
    ensures hasToken && availableForCart && MissingRequiredAddons(addonsData, selected) != [] ==>
      step == AskForOptions(Titles(MissingRequiredAddons(addonsData, selected)))
    ensures step.AddItem? <==> hasToken && availableForCart && MissingRequiredAddons(addonsData, selected) == []
    ensures step.AddItem? ==> step == AddItem(quantity, SelectedOptionIds(selected))
  {
    if !hasToken {
      return AskToLogIn;
    }
    if !availableForCart {
      return NotAvailable;
    }
    var missing := MissingRequiredAddons(addonsData, selected);
    if |missing| > 0 {
      return AskForOptions(Titles(missing));
    }
    var options := CollectOptions(selected);
    return AddItem(quantity, options);
  }

  /** An item only goes to the cart when every required group has a selection. */
  lemma AddItemHasRequired(addonsData: seq<Addon>, selected: Selection, a: Addon)
    requires MissingRequiredAddons(addonsData, selected) == []
    requires a in addonsData && a.isSelectionRequired
    ensures a.id in selected
  {
    MissingRequiredSpec(addonsData, selected);
  }

  // ---------------------------------------------------------------------
  // Prices

  /**
   * The offer price computed when the item loads: a percentage offer takes
   * that share off, a fixed offer subtracts the amount, and without an offer
   * the base price stands. Nothing keeps the result above zero.
   */
  function FinalPrice(basePrice: real, itemOffer: Option<Catalog.Offer>): real {
    match itemOffer
    case None => basePrice
    case Some(offer) =>
      if offer.isPercentage then basePrice * (1.0 - offer.discountValue / 100.0)
      else basePrice - offer.discountValue
  }

  /**
   * The discount is the percentage share of the base price or the fixed
   * amount; a discount between 0 and the base price (or 0 and 100 percent)
   * keeps the price between 0 and the base price, and a fixed discount above
   * the base price gives a negative price.
   */
  lemma FinalPriceSpec(basePrice: real, offer: Catalog.Offer)
    ensures offer.isPercentage ==>
      basePrice - FinalPrice(basePrice, Some(offer)) == basePrice * offer.discountValue / 100.0
    ensures !offer.isPercentage ==> basePrice - FinalPrice(basePrice, Some(offer)) == offer.discountValue
    ensures basePrice >= 0.0 && offer.isPercentage && 0.0 <= offer.discountValue <= 100.0 ==>
      0.0 <= FinalPrice(basePrice, Some(offer)) <= basePrice
    ensures !offer.isPercentage && 0.0 <= offer.discountValue <= basePrice ==>
      0.0 <= FinalPrice(basePrice, Some(offer)) <= basePrice
    ensures !offer.isPercentage && offer.discountValue > basePrice ==> FinalPrice(basePrice, Some(offer)) < 0.0
  {
    if offer.isPercentage && basePrice >= 0.0 && 0.0 <= offer.discountValue <= 100.0 {
      var f := 1.0 - offer.discountValue / 100.0;
      assert 0.0 <= f <= 1.0;
      assert basePrice * f <= basePrice * 1.0;
    }
  }

  /** The product fields the total depends on. */
  datatype PricedProduct = PricedProduct(price: real, finalPrice: real, itemOffer: Option<Catalog.Offer>)

  /** The unit price used for the total: the offer price only while the offer is enabled. */
  function BasePrice(product: PricedProduct): real {
    if product.itemOffer.Some? && product.itemOffer.value.isEnabled then product.finalPrice else product.price
  }

  /** `addon.options.find((opt) => opt.id === optionId)` */
  function FindOption(options: seq<AddonOption>, optionId: int): (r: Option<AddonOption>)
    ensures r.Some? ==> r.value in options && r.value.id == optionId
    ensures r.None? ==> forall o :: o in options ==> o.id != optionId
  {
    if options == [] then None
    else if options[0].id == optionId then Some(options[0])
    else FindOption(options[1..], optionId)
  }

  /** The amount one chosen id adds: in every group that offers it, that option's price times `q`. */
  function OptionPriceInGroups(addons: seq<Addon>, optionId: int, q: real): real {
    if addons == [] then 0.0
    else
      var found := FindOption(addons[0].options, optionId);
      (if found.Some? then found.value.price * q else 0.0) + OptionPriceInGroups(addons[1..], optionId, q)
  }

  /** The amount one chosen id adds, as a function of the id. */
  function PriceAt(addons: seq<Addon>, q: real): int -> real {
    (id: int) => OptionPriceInGroups(addons, id, q)
  }

  /** The sum of `price` over the listed ids. */
  function SumOver(ids: seq<int>, price: int -> real): real {
    if ids == [] then 0.0 else price(ids[0]) + SumOver(ids[1..], price)
  }

  /** The amount the listed ids add. */
  function OptionIdsPrice(addons: seq<Addon>, optionIds: seq<int>, q: real): real {
    SumOver(optionIds, PriceAt(addons, q))
  }

  /**
   * The total calculateTotalPrice returns: 0 without a product, otherwise
   * the base price times the quantity plus, for every chosen id and every
   * group that offers it, that option's price times the quantity.
   */
  ghost function TotalPrice(product: Option<PricedProduct>, quantity: int, addonsData: seq<Addon>,
                            selected: Selection): real {
    if product.None? then 0.0
    else
      var q := quantity as real;
      BasePrice(product.value) * q + OptionIdsPrice(addonsData, SelectedOptionIds(selected), q)
  }

  /** Sums over consecutive ids add up. */
  lemma {:induction false} SumOverConcat(a: seq<int>, b: seq<int>, price: int -> real)
    ensures SumOver(a + b, price) == SumOver(a, price) + SumOver(b, price)
  {
    if a != [] {
      assert (a + b)[0] == a[0] && (a + b)[1..] == a[1..] + b;
      SumOverConcat(a[1..], b, price);
    } else {
      assert a + b == b;
    }
  }

  /** Amounts of consecutive ids add up. */
  lemma OptionIdsPriceConcat(addons: seq<Addon>, a: seq<int>, b: seq<int>, q: real)
    ensures OptionIdsPrice(addons, a + b, q) == OptionIdsPrice(addons, a, q) + OptionIdsPrice(addons, b, q)
  {
    SumOverConcat(a, b, PriceAt(addons, q));
  }

  /**
   * The innermost loop of calculateTotalPrice: for one chosen id, adds the
   * price of that option, times the quantity, for every group that offers it.
   */
  method AddOptionPrices(total0: real, addonsData: seq<Addon>, optionId: int, q: real) returns (total: real)
    ensures total == total0 + OptionPriceInGroups(addonsData, optionId, q)
  {
    total := total0;
    var l := 0;
    while l < |addonsData|
      invariant 0 <= l <= |addonsData|
      invariant total + OptionPriceInGroups(addonsData[l..], optionId, q)
        == total0 + OptionPriceInGroups(addonsData, optionId, q)
    {
      assert addonsData[l..][1..] == addonsData[l + 1..];
      var option := FindOption(addonsData[l].options, optionId);
      if option.Some? {
        total := total + option.value.price * q;
      }
      l := l + 1;
    }
  }

  /**
   * calculateTotalPrice: starts from base price times quantity and, group by
   * group and id by id, adds the price of every option with that id in every
   * add-on group, times the quantity.
   */
  method CalculateTotalPrice(product: Option<PricedProduct>, quantity: int, addonsData: seq<Addon>,
                             selected: Selection) returns (total: real)
    ensures total == TotalPrice(product, quantity, addonsData, selected)
  {
    if product.None? {
      return 0.0;
    }
    var q := quantity as real;
    total := AddSelectionPrices(BasePrice(product.value) * q, addonsData, selected, q);
  }

  /** The outer loop of calculateTotalPrice: adds the amounts of every group, smallest group id first. */
  method AddSelectionPrices(total0: real, addonsData: seq<Addon>, selected: Selection, q: real) returns (total: real)
    ensures total == total0 + OptionIdsPrice(addonsData, SelectedOptionIds(selected), q)
  {
    total := total0;
    var remaining := selected;
    while remaining.Keys != {}
      invariant total + OptionIdsPrice(addonsData, SelectedOptionIds(remaining), q)
        == total0 + OptionIdsPrice(addonsData, SelectedOptionIds(selected), q)
      decreases |remaining.Keys|
    {
      var optionIds, rest := TakeSmallest(remaining);
      OptionIdsPriceConcat(addonsData, optionIds, SelectedOptionIds(rest), q);
      total := AddGroupPrices(total, addonsData, optionIds, q);
      remaining := rest;
    }
    SelectedEmpty(remaining);
  }

  /** The middle loop of calculateTotalPrice: adds the amounts of one group's chosen ids. */
  method AddGroupPrices(total0: real, addonsData: seq<Addon>, optionIds: seq<int>, q: real) returns (total: real)
    ensures total == total0 + OptionIdsPrice(addonsData, optionIds, q)
  {
    total := total0;
    var j := 0;
    while j < |optionIds|
      invariant 0 <= j <= |optionIds|
      invariant total + OptionIdsPrice(addonsData, optionIds[j..], q) == total0 + OptionIdsPrice(addonsData, optionIds, q)
    {
      assert optionIds[j..][1..] == optionIds[j + 1..];
      total := AddOptionPrices(total, addonsData, optionIds[j], q);
      j := j + 1;
    }
  }

  lemma ScaleSum(x: real, y: real, a: real, b: real, t: real, q: real)
    requires x == a * q && y == b * q && t == a + b
    ensures x + y == t * q
  {
  }

  /** Each option amount scales with the quantity. */
  lemma {:induction false} OptionPriceScales(addons: seq<Addon>, optionId: int, q: real)
    ensures OptionPriceInGroups(addons, optionId, q) == OptionPriceInGroups(addons, optionId, 1.0) * q
  {
    if addons != [] {
      OptionPriceScales(addons[1..], optionId, q);
      var found := FindOption(addons[0].options, optionId);
      var p := if found.Some? then found.value.price else 0.0;
      var rest := OptionPriceInGroups(addons[1..], optionId, 1.0);
      assert (p + rest) * q == p * q + rest * q;
    }
  }

  /** A sum of amounts that each scale with `q` scales with `q`. */
  lemma {:induction false} SumOverScales(ids: seq<int>, scaled: int -> real, unit: int -> real, q: real)
    requires forall id :: scaled(id) == unit(id) * q
    ensures SumOver(ids, scaled) == SumOver(ids, unit) * q
  {
    if ids != [] {
      SumOverScales(ids[1..], scaled, unit, q);
      ScaleSum(scaled(ids[0]), SumOver(ids[1..], scaled), unit(ids[0]), SumOver(ids[1..], unit),
               SumOver(ids, unit), q);
    }
  }

  lemma OptionIdsScales(addons: seq<Addon>, optionIds: seq<int>, q: real)
    ensures OptionIdsPrice(addons, optionIds, q) == OptionIdsPrice(addons, optionIds, 1.0) * q
  {
    forall id
      ensures PriceAt(addons, q)(id) == PriceAt(addons, 1.0)(id) * q
    {
      OptionPriceScales(addons, id, q);
    }
    SumOverScales(optionIds, PriceAt(addons, q), PriceAt(addons, 1.0), q);
  }

  /**
   * The total is the price of one item times the quantity; with no option
   * chosen it is the base price times the quantity; without a product it is 0.
   */
  lemma TotalPriceSpec(product: PricedProduct, quantity: int, addonsData: seq<Addon>, selected: Selection)
    ensures selected == map[] ==> TotalPrice(Some(product), quantity, addonsData, selected) == BasePrice(product) * quantity as real
    ensures TotalPrice(Some(product), quantity, addonsData, selected)
      == TotalPrice(Some(product), 1, addonsData, selected) * quantity as real
    ensures TotalPrice(None, quantity, addonsData, selected) == 0.0
  {
    var q := quantity as real;
    var ids := SelectedOptionIds(selected);
    if selected == map[] {
      assert selected.Keys == {};
    }
    OptionIdsScales(addonsData, ids, q);
    var b := BasePrice(product);
    var u := OptionIdsPrice(addonsData, ids, 1.0);
    assert (b * 1.0 + u) * q == b * q + u * q;
  }

  predicate NonNegativePrices(addons: seq<Addon>) {
    forall i, j :: 0 <= i < |addons| && 0 <= j < |addons[i].options| ==> addons[i].options[j].price >= 0.0
  }

  lemma {:induction false} OptionPriceNonNegative(addons: seq<Addon>, optionId: int, q: real)
    requires NonNegativePrices(addons) && q >= 0.0
    ensures OptionPriceInGroups(addons, optionId, q) >= 0.0
  {
    if addons != [] {
      assert NonNegativePrices(addons[1..]) by {
        forall i, j | 0 <= i < |addons[1..]| && 0 <= j < |addons[1..][i].options|
          ensures addons[1..][i].options[j].price >= 0.0 {
          assert addons[1..][i] == addons[i + 1];
        }
      }
      OptionPriceNonNegative(addons[1..], optionId, q);
      var found := FindOption(addons[0].options, optionId);
      if found.Some? {
        var j :| 0 <= j < |addons[0].options| && addons[0].options[j] == found.value;
        assert found.value.price >= 0.0;
      }
    }
  }

  /** A sum of non-negative amounts is non-negative. */
  lemma {:induction false} SumOverNonNegative(ids: seq<int>, price: int -> real)
    requires forall id :: price(id) >= 0.0
    ensures SumOver(ids, price) >= 0.0
  {
    if ids != [] {
      SumOverNonNegative(ids[1..], price);
    }
  }

  lemma OptionIdsNonNegative(addons: seq<Addon>, optionIds: seq<int>, q: real)
    requires NonNegativePrices(addons) && q >= 0.0
    ensures OptionIdsPrice(addons, optionIds, q) >= 0.0
  {
    forall id
      ensures PriceAt(addons, q)(id) >= 0.0
    {
      OptionPriceNonNegative(addons, id, q);
    }
    SumOverNonNegative(optionIds, PriceAt(addons, q));
  }

  /** With non-negative option prices and a positive quantity, options never lower the total below base price times quantity. */
  lemma TotalAtLeastBase(product: PricedProduct, quantity: int, addonsData: seq<Addon>, selected: Selection)
    requires NonNegativePrices(addonsData) && quantity >= 1
    ensures TotalPrice(Some(product), quantity, addonsData, selected) >= BasePrice(product) * quantity as real
  {
    OptionIdsNonNegative(addonsData, SelectedOptionIds(selected), quantity as real);
  }
}
