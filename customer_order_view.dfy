/**
 * `CustomerOrderView`: the page a diner reaches from a table's link. It checks
 * the link token, loads the shop's menu, keeps a cart of quantities per menu
 * item and submits the selection as a new order.
 *
 * The route parameters are strings; a parameter that is absent is the empty
 * string, which is falsy in the source just as `undefined` is.
 */
module CustomerOrderView {
  import opened Basics
  import opened Keyed
  import opened Types
  import Crypto
  import DataService

  /** `Record<string, number>`: the quantity chosen per menu item id. */
  type Cart = map<string, int>

  const LinkError: string := "此點餐連結已過期或不正確，請重新掃描桌上的 QR Code。"
  const NoMenuError: string := "目前找不到這家餐廳的菜單。"

  /** `cart[id] || 0`: a missing entry counts as zero. */
  function Quantity(cart: Cart, id: string): int {
    if id in cart then cart[id] else 0
  }

  /** No quantity in the cart is negative. */
  predicate NonNegative(cart: Cart) {
    forall id :: id in cart ==> cart[id] >= 0
  }

  /**
   * `updateQuantity`'s updater: the entry becomes `max(0, current + delta)`
   * and every other entry is kept.
   */
  function Bumped(cart: Cart, id: string, delta: int): (r: Cart)
    ensures r.Keys == cart.Keys + {id}
    ensures r[id] >= 0
    ensures r[id] == Quantity(cart, id) + delta || (r[id] == 0 && Quantity(cart, id) + delta < 0)
    ensures forall other :: other in cart && other != id ==> r[other] == cart[other]
  {
    var next := Quantity(cart, id) + delta;
    cart[id := if next < 0 then 0 else next]
  }

  /** Quantities never go negative, whatever the buttons do. */
  lemma BumpedKeepsNonNegative(cart: Cart, id: string, delta: int)
    requires NonNegative(cart)
    ensures NonNegative(Bumped(cart, id, delta))
  {
  }

  /** `Object.values(cart).reduce((a, b) => a + b, 0)`: the order of the values does not matter. */
  ghost function ItemCount(cart: Cart): (count: int)
    ensures NonNegative(cart) ==> count >= 0
    decreases |cart|
  {
    if cart == map[] then 0
    else
      var id :| id in cart;
      cart[id] + ItemCount(cart - {id})
  }

  /** Any entry can be taken out of the count first. */
  lemma ItemCountRemove(cart: Cart, id: string)
    requires id in cart
    ensures ItemCount(cart) == cart[id] + ItemCount(cart - {id})
    decreases |cart|
  {
    var first :| first in cart && ItemCount(cart) == cart[first] + ItemCount(cart - {first});
    if first != id {
      ItemCountRemove(cart - {first}, id);
      ItemCountRemove(cart - {id}, first);
      assert cart - {first} - {id} == cart - {id} - {first};
    }
  }

  /** A button press changes the count by the change of that one entry. */
  lemma ItemCountBumped(cart: Cart, id: string, delta: int)
    ensures ItemCount(Bumped(cart, id, delta)) == ItemCount(cart) - Quantity(cart, id) + Bumped(cart, id, delta)[id]
  {
    var r := Bumped(cart, id, delta);
    ItemCountRemove(r, id);
    assert r - {id} == cart - {id};
    if id in cart {
      ItemCountRemove(cart, id);
    } else {
      assert cart - {id} == cart;
    }
  }

  /**
   * With no negative entry the count is positive exactly when some item has
   * been chosen (the cart bar shows only then).
   */
  lemma ItemCountPositive(cart: Cart)
    requires NonNegative(cart)
    ensures ItemCount(cart) >= 0
    ensures ItemCount(cart) > 0 <==> exists id :: id in cart && cart[id] > 0
    decreases |cart|
  {
    if cart != map[] {
      var id :| id in cart;
      ItemCountRemove(cart, id);
      ItemCountPositive(cart - {id});
      assert forall other :: other in cart - {id} ==> other in cart && cart[other] == (cart - {id})[other];
      assert forall other :: other in cart && other != id ==> other in cart - {id};
    }
  }

  /** `items.reduce((sum, item) => sum + item.price * (cart[item.id] || 0), 0)`. */
  function Total(items: seq<MenuItem>, cart: Cart): (total: int)
    ensures (forall j :: 0 <= j < |items| ==> Quantity(cart, items[j].id) == 0) ==> total == 0
    decreases |items|
  {
    if items == [] then 0
    else
      var last := items[|items| - 1];
      Total(items[..|items| - 1], cart) + last.price * Quantity(cart, last.id)
  }

  /** `totalPrice`: zero while no menu is loaded. */
  function TotalPrice(menu: Option<ShopMenu>, cart: Cart): (total: int)
    ensures menu.None? ==> total == 0
    ensures menu.Some? ==> total == Total(menu.value.items, cart)
  {
    match menu
    case None => 0
    case Some(m) => Total(m.items, cart)
  }

  /** The order line for a menu item: its own copies of id, name and price, and the quantity. */
  function Snapshot(item: MenuItem, cart: Cart): OrderItem {
    OrderItem(item.id, item.name, Quantity(cart, item.id), item.price)
  }

  /** `menu.items.filter(item => cart[item.id] > 0).map(...)`: the order lines, in menu order. */
  function OrderLines(items: seq<MenuItem>, cart: Cart): (lines: seq<OrderItem>)
    ensures |lines| <= |items|
    decreases |items|
  {
    if items == [] then []
    else
      var last := items[|items| - 1];
      var rest := OrderLines(items[..|items| - 1], cart);
      if Quantity(cart, last.id) > 0 then rest + [Snapshot(last, cart)] else rest
  }

  /**
   * One line per chosen item: each line has a positive quantity and is a
   * snapshot of a menu item, every chosen item has a line, and there are no
   * lines exactly when nothing is chosen.
   */
  lemma {:induction false} OrderLinesShape(items: seq<MenuItem>, cart: Cart)
    ensures var lines := OrderLines(items, cart);
            && |lines| <= |items|
            && (forall i :: 0 <= i < |lines| ==> lines[i].quantity > 0)
            && (forall i :: 0 <= i < |lines| ==>
                  exists j :: 0 <= j < |items| && lines[i] == Snapshot(items[j], cart))
            && (forall j :: 0 <= j < |items| && Quantity(cart, items[j].id) > 0 ==> Snapshot(items[j], cart) in lines)
            && (lines == [] <==> forall j :: 0 <= j < |items| ==> Quantity(cart, items[j].id) <= 0)
    decreases |items|
  {
    if items != [] {
      var front := items[..|items| - 1];
      var last := items[|items| - 1];
      OrderLinesShape(front, cart);
      assert forall j :: 0 <= j < |front| ==> front[j] == items[j];
    }
  }

  /** The lines keep menu order: the lines of two runs of items are the two runs of lines. */
  lemma {:induction false} OrderLinesAppend(a: seq<MenuItem>, b: seq<MenuItem>, cart: Cart)
    ensures OrderLines(a + b, cart) == OrderLines(a, cart) + OrderLines(b, cart)
    decreases |b|
  {
    if b == [] {
      assert a + b == a;
    } else {
      var ab := a + b;
      var front := b[..|b| - 1];
      var last := b[|b| - 1];
      var tail := if Quantity(cart, last.id) > 0 then [Snapshot(last, cart)] else [];
      assert ab[..|ab| - 1] == a + front;
      assert ab[|ab| - 1] == last;
      assert OrderLines(ab, cart) == OrderLines(a + front, cart) + tail;
      assert OrderLines(b, cart) == OrderLines(front, cart) + tail;
      OrderLinesAppend(a, front, cart);
    }
  }

  /** The sum of price × quantity over order lines. */
  function LinesTotal(lines: seq<OrderItem>): int
    decreases |lines|
  {
    if lines == [] then 0
    else
      var last := lines[|lines| - 1];
      LinesTotal(lines[..|lines| - 1]) + last.price * last.quantity
  }

  /**
   * With no negative quantity the cart total equals the total of the order
   * lines: an unchosen item adds nothing.
   */
  lemma {:induction false} OrderLinesTotal(items: seq<MenuItem>, cart: Cart)
    requires NonNegative(cart)
    ensures LinesTotal(OrderLines(items, cart)) == Total(items, cart)
    decreases |items|
  {
    if items != [] {
      var front := items[..|items| - 1];
      var last := items[|items| - 1];
      OrderLinesTotal(front, cart);
      var rest := OrderLines(front, cart);
      if Quantity(cart, last.id) > 0 {
        assert (rest + [Snapshot(last, cart)])[..|rest|] == rest;
      } else {
        assert Quantity(cart, last.id) == 0;
      }
    }
  }

  /** The order `handleSubmit` hands to `addOrder` (the store adds the id and the time). */
  function NewOrder(menu: ShopMenu, shopId: string, tableNo: string, cart: Cart): (o: Order)
    ensures o.status == New && o.shopId == shopId && o.tableNo == tableNo
    ensures o.items == OrderLines(menu.items, cart)
    ensures o.totalPrice == TotalPrice(Some(menu), cart)
  {
    Order("", shopId, tableNo, OrderLines(menu.items, cart), Total(menu.items, cart), New, 0)
  }

  /** A submitted order's total is the sum over its own lines. */
  lemma NewOrderTotal(menu: ShopMenu, shopId: string, tableNo: string, cart: Cart)
    requires NonNegative(cart)
    ensures NewOrder(menu, shopId, tableNo, cart).totalPrice == LinesTotal(NewOrder(menu, shopId, tableNo, cart).items)
  {
    OrderLinesTotal(menu.items, cart);
  }

  /** The page's state for one link. */
  class OrderPage {
    const shopId: string
    const tableNo: string
    const hash: string
    var menu: Option<ShopMenu>
    var cart: Cart
    var submitted: bool
    var error: Option<string>

    constructor (shopId: string, tableNo: string, hash: string)
      ensures this.shopId == shopId && this.tableNo == tableNo && this.hash == hash
      ensures menu == None && cart == map[] && !submitted && error == None
      ensures Valid()
    {
      this.shopId := shopId;
      this.tableNo := tableNo;
      this.hash := hash;
      menu := None;
      cart := map[];
      submitted := false;
      error := None;
    }

    /** The cart never holds a negative quantity. */
    ghost predicate Valid()
      reads this
    {
      NonNegative(cart)
    }

    /** The link is refused only when both a table number and a token are present and they do not match. */
    predicate LinkRejected(userAgent: string, isoNow: string)
      requires tableNo != "" && hash != "" ==> Crypto.IsLatin1(Crypto.RawInput(userAgent, Crypto.DateOf(isoNow), tableNo))
    {
      tableNo != "" && hash != "" && !Crypto.ValidateHash(userAgent, isoNow, tableNo, hash)
    }

    /**
     * The effect: a rejected token sets the link error and loads nothing; a
     * shop without a menu sets the other error; otherwise the menu is shown.
     * Without a shop id nothing happens. An unreadable menu slot throws.
     */
    method Load(ds: DataService.Store, userAgent: string, isoNow: string) returns (r: Result<()>)
      requires tableNo != "" && hash != "" ==> Crypto.IsLatin1(Crypto.RawInput(userAgent, Crypto.DateOf(isoNow), tableNo))
      modifies this`menu, this`error
      ensures LinkRejected(userAgent, isoNow) ==>
                r == Ok(()) && error == Some(LinkError) && menu == old(menu)
      ensures !LinkRejected(userAgent, isoNow) && shopId == "" ==>
                r == Ok(()) && error == old(error) && menu == old(menu)
      ensures !LinkRejected(userAgent, isoNow) && shopId != "" ==>
                match ds.MenuByShopId(shopId)
                case Err(f) => r == Err(f) && error == old(error) && menu == old(menu)
                case Ok(None) => r == Ok(()) && error == Some(NoMenuError) && menu == old(menu)
                case Ok(Some(m)) => r == Ok(()) && error == old(error) && menu == Some(m)
    {
      if tableNo != "" && hash != "" {
        var isValid := Crypto.ValidateHash(userAgent, isoNow, tableNo, hash);
        if !isValid {
          error := Some(LinkError);
          return Ok(());
        }
      }
      r := Ok(());
      if shopId != "" {
        var shopMenu := ds.MenuByShopId(shopId);
        match shopMenu
        case Err(f) => r := Err(f);
        case Ok(None) => error := Some(NoMenuError);
        case Ok(Some(m)) => menu := Some(m);
      }
    }

    /** `updateQuantity(itemId, delta)`. */
    method UpdateQuantity(itemId: string, delta: int)
      modifies this`cart
      ensures cart == Bumped(old(cart), itemId, delta)
      ensures old(Valid()) ==> Valid()
    {
      cart := Bumped(cart, itemId, delta);
    }

    /**
     * `handleSubmit`: without a menu, shop id or table number, or with nothing
     * chosen, nothing is written. Otherwise one order with status `new`, the
     * chosen lines and the cart total is appended to the store and the page
     * shows its confirmation. A store that throws leaves the page as it was.
     */
    method HandleSubmit(ds: DataService.Store, freshId: string, now: int, fits: bool) returns (r: Result<Option<Order>>)
      requires ds.orders.Json? ==> !HasKey(ds.orders.value, OrderId, freshId)
      modifies ds`orders, this`submitted
      ensures menu.None? || shopId == "" || tableNo == "" || OrderLines(menu.value.items, cart) == [] ==>
                r == Ok(None) && ds.orders == old(ds.orders) && submitted == old(submitted)
      ensures menu.Some? && shopId != "" && tableNo != "" && OrderLines(menu.value.items, cart) != [] ==>
                var placed := NewOrder(menu.value, shopId, tableNo, cart).(id := freshId, createdAt := now);
                && (old(ds.orders).Garbled? ==> r == Err(Unparsable) && ds.orders == old(ds.orders) && submitted == old(submitted))
                && (!old(ds.orders).Garbled? && !fits ==> r == Err(QuotaExceeded) && ds.orders == old(ds.orders) && submitted == old(submitted))
                && (!old(ds.orders).Garbled? && fits ==>
                      r == Ok(Some(placed)) && submitted
                      && ds.orders == Json(ParseList(old(ds.orders)).value + [placed]))
      ensures old(ds.Valid()) ==> ds.Valid()
    {
      if menu.None? || shopId == "" || tableNo == "" {
        return Ok(None);
      }
      var orderItems := OrderLines(menu.value.items, cart);
      if |orderItems| == 0 {
        return Ok(None);
      }
      var added := ds.AddOrder(NewOrder(menu.value, shopId, tableNo, cart), freshId, now, fits);
      match added
      case Err(f) => r := Err(f);
      case Ok(o) =>
        submitted := true;
        r := Ok(Some(o));
    }
  }
}
