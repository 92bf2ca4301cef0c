// The customer's order history: the price breakdown recomputed from the
// ordered items, the clean-up of item snapshots when an order is opened, the
// status labels, the query sent for the order list, and the local update
// after an order is cancelled.

module Orders {

  import opened Common

  /** The menu item an order line still points to, when it exists. */
  datatype MenuItem = MenuItem(name: Option<string>, description: Option<string>,
                               imageUrl: Option<string>, basePrice: Option<real>)

  /** An option chosen for an order line, priced at order time. */
  datatype ItemOption = ItemOption(optionPriceAtOrder: Option<real>)

  /** An order line as the server returns it; the snapshots may be missing. */
  datatype OrderItem = OrderItem(
    quantity: int,
    menuItemBasePriceSnapshotAtOrder: Option<real>,
    menuItemNameSnapshotAtOrder: Option<string>,
    menuItemDescriptionAtOrder: Option<string>,
    menuItemImageUrlSnapshotAtOrder: Option<string>,
    menuItem: Option<MenuItem>,
    options: Option<seq<ItemOption>>,
    totalDiscount: Option<real>,
    totalPrice: real)

  /** What calculatePricesFromItems returns. */
  datatype PriceSummary = PriceSummary(subtotal: real, totalAdditions: real, totalDiscount: real,
                                       deliveryFee: real, totalWithFee: real)

  // ---------------------------------------------------------------------
  // Price breakdown

  /** The unit price of a line: the snapshot when positive, else the menu item's price, else 0. */
  function LineBasePrice(item: OrderItem): real {
    if item.menuItemBasePriceSnapshotAtOrder.Some? && item.menuItemBasePriceSnapshotAtOrder.value > 0.0
    then item.menuItemBasePriceSnapshotAtOrder.value
    else if item.menuItem.Some? && item.menuItem.value.basePrice.Some? then item.menuItem.value.basePrice.value
    else 0.0
  }

  /** `option.optionPriceAtOrder || 0` */
  function OptionPrice(option: ItemOption): real {
    if option.optionPriceAtOrder.Some? then option.optionPriceAtOrder.value else 0.0
  }

  function OptionsTotal(options: seq<ItemOption>): real {
    if options == [] then 0.0 else OptionPrice(options[0]) + OptionsTotal(options[1..])
  }

  /** The options of a line add their prices once, whatever the quantity. */
  function LineAdditions(item: OrderItem): real {
    if item.options.Some? then OptionsTotal(item.options.value) else 0.0
  }

  /** Only a positive discount counts. */
  function LineDiscount(item: OrderItem): real {
    if item.totalDiscount.Some? && item.totalDiscount.value > 0.0 then item.totalDiscount.value else 0.0
  }

  function Subtotal(items: seq<OrderItem>): real {
    if items == [] then 0.0 else LineBasePrice(items[0]) * items[0].quantity as real + Subtotal(items[1..])
  }

  function TotalAdditions(items: seq<OrderItem>): real {
    if items == [] then 0.0 else LineAdditions(items[0]) + TotalAdditions(items[1..])
  }

  function TotalDiscount(items: seq<OrderItem>): real {
    if items == [] then 0.0 else LineDiscount(items[0]) + TotalDiscount(items[1..])
  }

  /** The inner loop of calculatePricesFromItems: adds each option's price, a missing one as 0. */
  method AddOptionPrices(total0: real, options: seq<ItemOption>) returns (total: real)
    ensures total == total0 + OptionsTotal(options)
  {
    total := total0;
    var j := 0;
    while j < |options|
      invariant 0 <= j <= |options|
      invariant total + OptionsTotal(options[j..]) == total0 + OptionsTotal(options)
    {
      assert options[j..][1..] == options[j + 1..];
      total := total + OptionPrice(options[j]);
      j := j + 1;
    }
  }

  /**
   * calculatePricesFromItems: zeros for a missing or empty list; otherwise
   * one pass over the lines adds up the base prices times quantities, the
   * option prices and the positive discounts. The delivery fee and the total
   * are always reported as 0.
   */
  method CalculatePricesFromItems(items: Option<seq<OrderItem>>) returns (r: PriceSummary)
    ensures items.None? || items.value == [] ==> r == PriceSummary(0.0, 0.0, 0.0, 0.0, 0.0)
    ensures items.Some? ==> r == PriceSummary(Subtotal(items.value), TotalAdditions(items.value),
                                              TotalDiscount(items.value), 0.0, 0.0)
  {
    if items.None? || |items.value| == 0 {
      return PriceSummary(0.0, 0.0, 0.0, 0.0, 0.0);
    }
    var subtotal, totalAdditions, totalDiscount := SumLines(items.value);
    r := PriceSummary(subtotal, totalAdditions, totalDiscount, 0.0, 0.0);
  }

  /** The loop of calculatePricesFromItems over the lines. */
  method SumLines(list: seq<OrderItem>) returns (subtotal: real, totalAdditions: real, totalDiscount: real)
    ensures subtotal == Subtotal(list)
    ensures totalAdditions == TotalAdditions(list)
    ensures totalDiscount == TotalDiscount(list)
  {
    subtotal, totalAdditions, totalDiscount := 0.0, 0.0, 0.0;
    var i := 0;
    while i < |list|
      invariant 0 <= i <= |list|
      invariant subtotal + Subtotal(list[i..]) == Subtotal(list)
      invariant totalAdditions + TotalAdditions(list[i..]) == TotalAdditions(list)
      invariant totalDiscount + TotalDiscount(list[i..]) == TotalDiscount(list)
    {
      var item := list[i];
      SumsStep(list, i);
      var basePrice := LineBasePrice(item);
      subtotal := subtotal + basePrice * item.quantity as real;
      if item.options.Some? && |item.options.value| > 0 {
        totalAdditions := AddOptionPrices(totalAdditions, item.options.value);
      }
      if item.totalDiscount.Some? && item.totalDiscount.value > 0.0 {
        totalDiscount := totalDiscount + item.totalDiscount.value;
      }
      i := i + 1;
    }
  }

  /** The three sums from line `i` on: that line's share plus the sums after it. */
  lemma SumsStep(list: seq<OrderItem>, i: nat)
    requires i < |list|
    ensures Subtotal(list[i..]) == LineBasePrice(list[i]) * list[i].quantity as real + Subtotal(list[i + 1..])
    ensures TotalAdditions(list[i..]) == LineAdditions(list[i]) + TotalAdditions(list[i + 1..])
    ensures TotalDiscount(list[i..]) == LineDiscount(list[i]) + TotalDiscount(list[i + 1..])
  {
    assert list[i..][1..] == list[i + 1..];
  }

  /** The discount total is never negative. */
  lemma {:induction false} DiscountNonNegative(items: seq<OrderItem>)
    ensures TotalDiscount(items) >= 0.0
  {
    if items != [] {
      DiscountNonNegative(items[1..]);
    }
  }

  /** Lines with the same options add the same option total, whatever their quantities. */
  lemma {:induction false} AdditionsIgnoreQuantity(items: seq<OrderItem>, quantities: seq<int>)
    requires |quantities| == |items|
    ensures TotalAdditions(items) ==
      TotalAdditions(seq(|items|, i requires 0 <= i < |items| => items[i].(quantity := quantities[i])))
  {
    if items != [] {
      var changed := seq(|items|, i requires 0 <= i < |items| => items[i].(quantity := quantities[i]));
      var rest := seq(|items| - 1, i requires 0 <= i < |items| - 1 => items[1..][i].(quantity := quantities[1..][i]));
      assert changed[1..] == rest;
      AdditionsIgnoreQuantity(items[1..], quantities[1..]);
    }
  }

  /** Sums over a concatenation split into the two parts. */
  lemma SumsConcat(a: seq<OrderItem>, b: seq<OrderItem>)
    ensures Subtotal(a + b) == Subtotal(a) + Subtotal(b)
    ensures TotalAdditions(a + b) == TotalAdditions(a) + TotalAdditions(b)
    ensures TotalDiscount(a + b) == TotalDiscount(a) + TotalDiscount(b)
  {
    SubtotalConcat(a, b);
    AdditionsConcat(a, b);
    DiscountConcat(a, b);
  }

  lemma {:induction false} SubtotalConcat(a: seq<OrderItem>, b: seq<OrderItem>)
    ensures Subtotal(a + b) == Subtotal(a) + Subtotal(b)
  {
    if a != [] {
      assert (a + b)[0] == a[0] && (a + b)[1..] == a[1..] + b;
      SubtotalConcat(a[1..], b);
    } else {
      assert a + b == b;
    }
  }

  lemma {:induction false} AdditionsConcat(a: seq<OrderItem>, b: seq<OrderItem>)
    ensures TotalAdditions(a + b) == TotalAdditions(a) + TotalAdditions(b)
  {
    if a != [] {
      assert (a + b)[0] == a[0] && (a + b)[1..] == a[1..] + b;
      AdditionsConcat(a[1..], b);
    } else {
      assert a + b == b;
    }
  }

  lemma {:induction false} DiscountConcat(a: seq<OrderItem>, b: seq<OrderItem>)
    ensures TotalDiscount(a + b) == TotalDiscount(a) + TotalDiscount(b)
  {
    if a != [] {
      assert (a + b)[0] == a[0] && (a + b)[1..] == a[1..] + b;
      DiscountConcat(a[1..], b);
    } else {
      assert a + b == b;
    }
  }

  /** `details.deliveryCost || 0` */
  function DeliveryFee(deliveryCost: Option<real>): real {
    if deliveryCost.Some? then deliveryCost.value else 0.0
  }

  /** calculatedTotalWithFee: subtotal plus additions plus delivery, less the discounts. */
  function CalculatedTotalWithFee(items: seq<OrderItem>, deliveryCost: Option<real>): real {
    Subtotal(items) + TotalAdditions(items) + DeliveryFee(deliveryCost) - TotalDiscount(items)
  }

  /** What one line contributes to the order total. */
  function LineTotal(item: OrderItem): real {
    LineBasePrice(item) * item.quantity as real + LineAdditions(item) - LineDiscount(item)
  }

  function LinesTotal(items: seq<OrderItem>): real {
    if items == [] then 0.0 else LineTotal(items[0]) + LinesTotal(items[1..])
  }

  /**
   * The computed total is the delivery fee plus the sum of the line totals,
   * and a missing delivery cost counts as 0.
   */
  lemma {:induction false} TotalWithFeeByLines(items: seq<OrderItem>, deliveryCost: Option<real>)
    ensures CalculatedTotalWithFee(items, deliveryCost) == LinesTotal(items) + DeliveryFee(deliveryCost)
    ensures deliveryCost.None? ==> CalculatedTotalWithFee(items, deliveryCost) == LinesTotal(items)
  {
    if items != [] {
      TotalWithFeeByLines(items[1..], deliveryCost);
    }
  }

  // ---------------------------------------------------------------------
  // Item snapshots

  const UnknownItemName: string := "عنصر غير معروف"

  /** A missing or empty string, which `||` passes over. */
  predicate Falsy(a: Option<string>) { a.None? || a.value == "" }

  /** `a || b` for an optional string: an empty string counts as missing. */
  function OrElse(a: Option<string>, b: Option<string>): Option<string> {
    if !Falsy(a) then a else b
  }

  /** Math.abs for a negative total price; otherwise the value as it is. */
  function NormalisedTotalPrice(totalPrice: real): real {
    if totalPrice < 0.0 then -totalPrice else totalPrice
  }

  /**
   * The clean-up applied to each line when an order is opened: missing
   * snapshots are filled from the menu item (or a placeholder name, an empty
   * description, no image), a non-positive price snapshot is replaced by the
   * menu item's price or 0, and a negative total price is made positive.
   */
  function NormaliseItem(item: OrderItem): OrderItem {
    var m := item.menuItem;
    item.(
      menuItemImageUrlSnapshotAtOrder :=
        OrElse(item.menuItemImageUrlSnapshotAtOrder, if m.Some? then m.value.imageUrl else None),
      menuItemNameSnapshotAtOrder :=
        OrElse(item.menuItemNameSnapshotAtOrder, if m.Some? then m.value.name else Some(UnknownItemName)),
      menuItemDescriptionAtOrder :=
        OrElse(item.menuItemDescriptionAtOrder, if m.Some? then m.value.description else Some("")),
      menuItemBasePriceSnapshotAtOrder :=
        if item.menuItemBasePriceSnapshotAtOrder.Some? && item.menuItemBasePriceSnapshotAtOrder.value > 0.0
        then item.menuItemBasePriceSnapshotAtOrder
        else if m.Some? then m.value.basePrice
        else Some(0.0),
      totalPrice := NormalisedTotalPrice(item.totalPrice))
  }

  /**
   * After the clean-up the total price is never negative and keeps its
   * magnitude; a missing or empty name, image or description snapshot is
   * taken from the menu item, or else is the placeholder name, no image and
   * an empty description; a non-positive base price snapshot is taken from
   * the menu item or else is 0; a line without a menu item always has a
   * name; quantity, options and discount are untouched, the line's base
   * price is unchanged, and cleaning twice is cleaning once.
   */
  lemma NormaliseItemSpec(item: OrderItem)
    ensures var n := NormaliseItem(item);
      && n.totalPrice >= 0.0
      && (item.totalPrice >= 0.0 ==> n.totalPrice == item.totalPrice)
      && (item.totalPrice < 0.0 ==> n.totalPrice == -item.totalPrice)
      && (item.menuItem.None? ==> n.menuItemNameSnapshotAtOrder.Some? && n.menuItemNameSnapshotAtOrder.value != "")
      && (!Falsy(item.menuItemNameSnapshotAtOrder) ==>
            n.menuItemNameSnapshotAtOrder == item.menuItemNameSnapshotAtOrder)
      && (Falsy(item.menuItemNameSnapshotAtOrder) ==>
            n.menuItemNameSnapshotAtOrder ==
              (if item.menuItem.Some? then item.menuItem.value.name else Some(UnknownItemName)))
      && (!Falsy(item.menuItemImageUrlSnapshotAtOrder) ==>
            n.menuItemImageUrlSnapshotAtOrder == item.menuItemImageUrlSnapshotAtOrder)
      && (Falsy(item.menuItemImageUrlSnapshotAtOrder) ==>
            n.menuItemImageUrlSnapshotAtOrder ==
              (if item.menuItem.Some? then item.menuItem.value.imageUrl else None))
      && (!Falsy(item.menuItemDescriptionAtOrder) ==>
            n.menuItemDescriptionAtOrder == item.menuItemDescriptionAtOrder)
      && (Falsy(item.menuItemDescriptionAtOrder) ==>
            n.menuItemDescriptionAtOrder ==
              (if item.menuItem.Some? then item.menuItem.value.description else Some("")))
      && (var p := item.menuItemBasePriceSnapshotAtOrder;
          n.menuItemBasePriceSnapshotAtOrder ==
            if p.Some? && p.value > 0.0 then p
            else if item.menuItem.Some? then item.menuItem.value.basePrice
            else Some(0.0))
      && n.quantity == item.quantity && n.options == item.options && n.totalDiscount == item.totalDiscount
      && n.menuItem == item.menuItem
      && LineBasePrice(n) == LineBasePrice(item)
      && NormaliseItem(n) == n
  {
  }

  // ---------------------------------------------------------------------
  // Status labels

  /** mapStatus: the six server statuses in snake case; anything else reads as "pending". */
  function MapStatus(apiStatus: string): string {
    if apiStatus == "Pending" then "pending"
    else if apiStatus == "Confirmed" then "confirmed"
    else if apiStatus == "Preparing" then "preparing"
    else if apiStatus == "OutForDelivery" then "out_for_delivery"
    else if apiStatus == "Delivered" then "delivered"
    else if apiStatus == "Cancelled" then "cancelled"
    else "pending"
  }

  predicate KnownStatus(apiStatus: string) {
    apiStatus in ["Pending", "Confirmed", "Preparing", "OutForDelivery", "Delivered", "Cancelled"]
  }

  /** getStatusText: the Arabic label of a known status; an unknown status is shown as it is. */
  function GetStatusText(apiStatus: string): string {
    if apiStatus == "Pending" then "قيد الانتظار"
    else if apiStatus == "Confirmed" then "تم التأكيد"
    else if apiStatus == "Preparing" then "قيد التحضير"
    else if apiStatus == "OutForDelivery" then "قيد التوصيل"
    else if apiStatus == "Delivered" then "تم التوصيل"
    else if apiStatus == "Cancelled" then "ملغي"
    else apiStatus
  }

  /**
   * Every status maps to one of the six keys; an unknown status maps to
   * "pending" and is shown unchanged, while a known one is shown by an
   * Arabic label that differs from the raw status.
   */
  lemma StatusLabelsSpec(s: string)
    ensures MapStatus(s) in ["pending", "confirmed", "preparing", "out_for_delivery", "delivered", "cancelled"]
    ensures !KnownStatus(s) ==> MapStatus(s) == "pending" && GetStatusText(s) == s
    ensures KnownStatus(s) ==> GetStatusText(s) != s
  {
  }

  /** The server status a key stands for. */
  ghost function StatusOfKey(key: string): string {
    if key == "pending" then "Pending"
    else if key == "confirmed" then "Confirmed"
    else if key == "preparing" then "Preparing"
    else if key == "out_for_delivery" then "OutForDelivery"
    else if key == "delivered" then "Delivered"
    else "Cancelled"
  }

  /** The server status an Arabic label stands for. */
  ghost function StatusOfLabel(text: string): string {
    if text == "قيد الانتظار" then "Pending"
    else if text == "تم التأكيد" then "Confirmed"
    else if text == "قيد التحضير" then "Preparing"
    else if text == "قيد التوصيل" then "OutForDelivery"
    else if text == "تم التوصيل" then "Delivered"
    else "Cancelled"
  }

  /** A known status can be read back from its key. */
  lemma StatusKeyRoundTrip(s: string)
    requires KnownStatus(s)
    ensures StatusOfKey(MapStatus(s)) == s
  {
    if s == "Pending" {
    } else if s == "Confirmed" {
    } else if s == "Preparing" {
    } else if s == "OutForDelivery" {
    } else if s == "Delivered" {
    } else {
      assert s == "Cancelled";
    }
  }

  /** A known status can be read back from its Arabic label. */
  lemma StatusLabelRoundTrip(s: string)
    requires KnownStatus(s)
    ensures StatusOfLabel(GetStatusText(s)) == s
  {
    if s == "Pending" {
    } else if s == "Confirmed" {
    } else if s == "Preparing" {
    } else if s == "OutForDelivery" {
    } else if s == "Delivered" {
    } else {
      assert s == "Cancelled";
    }
  }

  /** Distinct known statuses get distinct keys and distinct labels. */
  lemma StatusLabelsDistinct(s: string, t: string)
    requires KnownStatus(s) && KnownStatus(t) && s != t
    ensures MapStatus(s) != MapStatus(t)
    ensures GetStatusText(s) != GetStatusText(t)
  {
    StatusKeyRoundTrip(s);
    StatusKeyRoundTrip(t);
    StatusLabelRoundTrip(s);
    StatusLabelRoundTrip(t);
  }

  // ---------------------------------------------------------------------
  // Order list query

  /** What fetchOrders does before the request. */
  datatype OrdersRequest =
    | SkipFetch
    | ClearOrders
    | FetchOrders(url: string, params: map<string, string>)

  /** `if (value)` for an optional string. */
  predicate Truthy(value: Option<string>) { value.Some? && value.value != "" }

  /**
   * fetchOrders up to the request: nothing during the first load, an empty
   * list without a token, otherwise the user's or the admin endpoint with
   * the parameters that are set.
   */
  method BuildOrdersQuery(isInitialLoad: bool, hasToken: bool, filter: string,
                          start: Option<string>, end: Option<string>,
                          isAdminOrRestaurantOrBranch: bool, selectedUserId: Option<string>)
    returns (request: OrdersRequest)
    ensures isInitialLoad ==> request == SkipFetch
    ensures !isInitialLoad && !hasToken ==> request == ClearOrders
    ensures !isInitialLoad && hasToken ==> request.FetchOrders?
    ensures request.FetchOrders? ==>
      && request.url == (if isAdminOrRestaurantOrBranch then "/api/Orders/GetAll" else "/api/Orders/GetAllForUser")
      && request.params.Keys <= {"status", "startRange", "endRange", "userId"}
      && ("status" in request.params <==> filter != "all")
      && ("status" in request.params ==> request.params["status"] == filter)
      && ("startRange" in request.params <==> Truthy(start))
      && ("startRange" in request.params ==> request.params["startRange"] == start.value)
      && ("endRange" in request.params <==> Truthy(end))
      && ("endRange" in request.params ==> request.params["endRange"] == end.value)
      && ("userId" in request.params <==> isAdminOrRestaurantOrBranch && Truthy(selectedUserId))
      && ("userId" in request.params ==> request.params["userId"] == selectedUserId.value)
  {
    if isInitialLoad {
      return SkipFetch;
    }
    if !hasToken {
      return ClearOrders;
    }
    var url := "/api/Orders/GetAllForUser";
    var params: map<string, string> := map[];
    if filter != "all" {
      params := params["status" := filter];
    }
    if Truthy(start) {
      params := params["startRange" := start.value];
    }
    if Truthy(end) {
      params := params["endRange" := end.value];
    }
    if isAdminOrRestaurantOrBranch {
      url := "/api/Orders/GetAll";
      if Truthy(selectedUserId) {
        params := params["userId" := selectedUserId.value];
      }
    }
    request := FetchOrders(url, params);
  }

  // ---------------------------------------------------------------------
  // Cancelling

  /** An order of the list, with the fields the page keeps. */
  datatype Order = Order(id: int, status: string, totalWithFee: real)

  /** The list, the selected order and the details panel. */
  datatype OrdersView = OrdersView(orders: seq<Order>, selectedOrderId: Option<int>, orderDetails: Option<Order>)

  /**
   * handleCancelOrder after confirmation: the order with that id is marked
   * "Cancelled" in the list, and in the details panel when it shows that
   * order; without confirmation nothing changes.
   */
  function CancelOrder(view: OrdersView, orderId: int, confirmed: bool): OrdersView {
    if !confirmed then view
    else
      var orders := seq(|view.orders|, i requires 0 <= i < |view.orders| =>
        if view.orders[i].id == orderId then view.orders[i].(status := "Cancelled") else view.orders[i]);
      var details :=
        if view.selectedOrderId == Some(orderId) && view.orderDetails.Some?
        then Some(view.orderDetails.value.(status := "Cancelled"))
        else view.orderDetails;
      OrdersView(orders, view.selectedOrderId, details)
  }

  /**
   * Only the orders with that id change, only in their status, which
   * becomes "Cancelled"; the details panel changes only when it shows that
   * order; and cancelling twice is cancelling once.
   */
  lemma CancelOrderSpec(view: OrdersView, orderId: int, confirmed: bool)
    ensures var r := CancelOrder(view, orderId, confirmed);
      && |r.orders| == |view.orders|
      && r.selectedOrderId == view.selectedOrderId
      && (forall i :: 0 <= i < |r.orders| && (view.orders[i].id != orderId || !confirmed) ==> r.orders[i] == view.orders[i])
      && (forall i :: 0 <= i < |r.orders| && view.orders[i].id == orderId && confirmed ==>
            r.orders[i] == view.orders[i].(status := "Cancelled"))
      && (r.orderDetails != view.orderDetails ==>
            confirmed && view.selectedOrderId == Some(orderId) && r.orderDetails == Some(view.orderDetails.value.(status := "Cancelled")))
      && CancelOrder(r, orderId, confirmed) == r
  {
    var r := CancelOrder(view, orderId, confirmed);
    assert CancelOrder(r, orderId, confirmed).orders == r.orders;
  }
}
