/**
 * `ShopDetail`: the shop console. It looks the shop up by the id in the
 * address and sends the browser home when there is no such shop; its
 * orders tab moves each order forward from new to served to paid.
 */
module ShopDetail {
  import opened Basics
  import opened Keyed
  import opened Types
  import DataService

  /** What the console does with the shop id in the address. */
  datatype Route =
    | Wait            // no shop id: nothing is shown
    | RedirectHome    // `navigate('/')`
    | Show(shop: Shop)

  /** The effect's lookup: the first shop with that id, or the way home. */
  function FindShop(shops: seq<Shop>, shopId: string): (r: Route)
    ensures r.Wait? <==> shopId == ""
    ensures r.RedirectHome? <==> shopId != "" && !HasKey(shops, ShopId, shopId)
    ensures r.Show? ==> r.shop in shops && r.shop.id == shopId
  {
    if shopId == "" then Wait
    else match Find(shops, ShopId, shopId)
      case None => RedirectHome
      case Some(s) => Show(s)
  }

  /** A shop just created is found by its id. */
  lemma AddedShopFound(shops: seq<Shop>, s: Shop)
    requires s.id != "" && !HasKey(shops, ShopId, s.id)
    ensures FindShop(shops + [s], s.id) == Show(s)
  {
    var all := shops + [s];
    assert all[|shops|] == s;
    assert HasKey(all, ShopId, s.id);
  }

  /** The console's state. */
  class ShopPage {
    const shopId: string
    var shop: Option<Shop>
    var redirectedHome: bool

    constructor (shopId: string)
      ensures this.shopId == shopId && shop == None && !redirectedHome
    {
      this.shopId := shopId;
      shop := None;
      redirectedHome := false;
    }

    /** The effect: show the shop, or go home when the id is unknown. */
    method Load(ds: DataService.Store) returns (r: Result<Route>)
      modifies this`shop, this`redirectedHome
      ensures shopId == "" ==> r == Ok(Wait) && shop == old(shop) && redirectedHome == old(redirectedHome)
      ensures shopId != "" ==>
                match ds.Shops()
                case Err(f) => r == Err(f) && shop == old(shop) && redirectedHome == old(redirectedHome)
                case Ok(all) =>
                  && r == Ok(FindShop(all, shopId))
                  && (r.value.RedirectHome? ==> redirectedHome && shop == old(shop))
                  && (r.value.Show? ==> shop == Some(r.value.shop) && redirectedHome == old(redirectedHome))
    {
      if shopId == "" {
        return Ok(Wait);
      }
      var allShops := ds.Shops();
      if allShops.Err? {
        return Err(allShops.failure);
      }
      var route := FindShop(allShops.value, shopId);
      if route.RedirectHome? {
        redirectedHome := true;
      } else if route.Show? {
        shop := Some(route.shop);
      }
      r := Ok(route);
    }
  }

  /** The one button an order card shows: `出餐` for a new order, `結帳` for a served one, none once paid. */
  function Offered(status: OrderStatus): (next: Option<OrderStatus>)
    ensures status == New ==> next == Some(Served)
    ensures status == Served ==> next == Some(Paid)
    ensures status == Paid ==> next == None
  {
    match status
    case New => Some(Served)
    case Served => Some(Paid)
    case Paid => None
  }

  /** Position in the order lifecycle. */
  function Rank(status: OrderStatus): nat {
    match status
    case New => 0
    case Served => 1
    case Paid => 2
  }

  /** Every offered transition moves exactly one step forward, and paid is final. */
  lemma OfferedMovesForward(status: OrderStatus)
    ensures Offered(status).Some? ==> Rank(Offered(status).value) == Rank(status) + 1
    ensures Offered(status).None? <==> status == Paid
  {
  }

  /**
   * A click on a card whose order is in step with the store (the tab's list
   * is the shop's slice of the stored orders and ids are unique) moves that
   * order one step forward and changes no other order: no status goes back.
   */
  lemma ClickNeverRegresses(all: seq<Order>, shopId: string, shown: seq<Order>, row: nat)
    requires UniqueKeys(all, OrderId)
    requires shown == Where(all, OrderShop, shopId) && row < |shown|
    requires Offered(shown[row].status).Some?
    ensures var after := DataService.SetStatus(all, shown[row].id, Offered(shown[row].status).value);
            && |after| == |all|
            && (forall k :: 0 <= k < |all| ==> Rank(after[k].status) >= Rank(all[k].status))
            && (forall k :: 0 <= k < |all| && all[k].id != shown[row].id ==> after[k] == all[k])
            && (forall k :: 0 <= k < |all| && all[k].id == shown[row].id ==>
                  Rank(after[k].status) == Rank(all[k].status) + 1)
  {
    var id := shown[row].id;
    var next := Offered(shown[row].status).value;
    assert shown[row] in all;
    var j :| 0 <= j < |all| && all[j] == shown[row];
    var p := FirstIndex(all, OrderId, id);
    assert HasKey(all, OrderId, id);
    assert p == j;
    DataService.SetStatusAt(all, id, next);
    var after := DataService.SetStatus(all, id, next);
    forall k | 0 <= k < |all| && all[k].id == id ensures k == p {
    }
  }

  /** The orders tab of one shop. */
  class OrdersTab {
    const shopId: string
    var orders: seq<Order>

    constructor (shopId: string)
      ensures this.shopId == shopId && orders == []
    {
      this.shopId := shopId;
      orders := [];
    }

    /** The tab shows exactly the shop's stored orders. */
    ghost predicate InStep(ds: DataService.Store)
      reads this, ds
    {
      ds.orders.Json? ==> orders == Where(ds.orders.value, OrderShop, shopId)
    }

    /** The state initialiser `getOrders(shopId)`. */
    method Load(ds: DataService.Store) returns (r: Result<()>)
      modifies this`orders
      ensures match ds.Orders(shopId)
              case Err(f) => r == Err(f) && orders == old(orders)
              case Ok(list) => r == Ok(()) && orders == list
      ensures r.Ok? ==> InStep(ds)
    {
      var loaded := ds.Orders(shopId);
      match loaded
      case Err(f) => r := Err(f);
      case Ok(list) =>
        orders := list;
        r := Ok(());
    }

    /**
     * `handleStatusUpdate`: the store sets the order's status, and the tab
     * then reloads the shop's orders from the store.
     */
    method HandleStatusUpdate(ds: DataService.Store, orderId: string, status: OrderStatus, fits: bool) returns (r: Result<()>)
      modifies this`orders, ds`orders
      ensures old(ds.orders).Garbled? || !fits ==>
                r.Err? && orders == old(orders) && ds.orders == old(ds.orders)
      ensures !old(ds.orders).Garbled? && fits ==>
                && r == Ok(())
                && ds.orders == Json(DataService.SetStatus(ParseList(old(ds.orders)).value, orderId, status))
                && orders == Where(ds.orders.value, OrderShop, shopId)
                && InStep(ds)
      ensures old(ds.Valid()) ==> ds.Valid()
    {
      r := ds.UpdateOrderStatus(orderId, status, fits);
      if r.Err? {
        return;
      }
      var reloaded := ds.Orders(shopId);
      orders := reloaded.value;
    }

    /** A click on card `row`: only the transition the card offers can be asked for. */
    method ClickAdvance(ds: DataService.Store, row: nat, fits: bool) returns (r: Result<()>)
      requires row < |orders|
      modifies this`orders, ds`orders
      ensures Offered(old(orders)[row].status).None? ==>
                r == Ok(()) && orders == old(orders) && ds.orders == old(ds.orders)
      ensures Offered(old(orders)[row].status).Some? && !old(ds.orders).Garbled? && fits ==>
                && r == Ok(())
                && ds.orders == Json(DataService.SetStatus(ParseList(old(ds.orders)).value,
                                                           old(orders)[row].id, Offered(old(orders)[row].status).value))
                && InStep(ds)
      ensures Offered(old(orders)[row].status).Some? && (old(ds.orders).Garbled? || !fits) ==>
                r.Err? && orders == old(orders) && ds.orders == old(ds.orders)
      ensures old(ds.Valid()) ==> ds.Valid()
    {
      var order := orders[row];
      var next := Offered(order.status);
      if next.None? {
        return Ok(());
      }
      r := HandleStatusUpdate(ds, order.id, next.value, fits);
    }
  }
}
