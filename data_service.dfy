/**
 * `dataService`: the six slots of the SmartOrder store (user, shops, menus,
 * reservations, tables, orders), each a JSON text under its own
 * `localStorage` key. Every writer reads its whole slot, changes the array
 * and writes it back. Reads are not guarded: a slot whose text does not parse
 * makes the operation throw before anything is written, and so does the
 * browser refusing to store the new text.
 *
 * Identifiers (`crypto.randomUUID()`) and timestamps (`Date.now()`) are
 * parameters; each identifier is required to be unused.
 */
module DataService {
  import opened Basics
  import opened Keyed
  import opened Types
  import Text

  /** The name of a newly created user ("anonymous user"). */
  const AnonymousName: string := "匿名用戶"

  /** `all[index].status = status` after `findIndex`: the first order with that id gets the status. */
  function SetStatus(s: seq<Order>, id: string, status: OrderStatus): (r: seq<Order>)
    ensures |r| == |s|
    ensures forall i :: 0 <= i < |s| && s[i].id != id ==> r[i] == s[i]
    decreases |s|
  {
    if s == [] then []
    else if s[0].id == id then [s[0].(status := status)] + s[1..]
    else [s[0]] + SetStatus(s[1..], id, status)
  }

  /**
   * `const i = all.findIndex(o => o.id === id); if (i > -1) all[i].status = status;`
   * computes `SetStatus`.
   */
  lemma {:induction false} SetStatusAt(s: seq<Order>, id: string, status: OrderStatus)
    ensures FirstIndex(s, OrderId, id) == -1 ==> SetStatus(s, id, status) == s
    ensures FirstIndex(s, OrderId, id) >= 0 ==>
              SetStatus(s, id, status) == s[FirstIndex(s, OrderId, id) := s[FirstIndex(s, OrderId, id)].(status := status)]
  {
    if s != [] && s[0].id != id {
      var rest := s[1..];
      SetStatusAt(rest, id, status);
      assert SetStatus(s, id, status) == [s[0]] + SetStatus(rest, id, status);
      assert [s[0]] + rest == s;
      var i := FirstIndex(rest, OrderId, id);
      if i >= 0 {
        assert FirstIndex(s, OrderId, id) == i + 1;
        assert [s[0]] + rest[i := rest[i].(status := status)] == s[i + 1 := s[i + 1].(status := status)];
      } else {
        assert FirstIndex(s, OrderId, id) == -1;
      }
    } else if s != [] {
      assert [s[0].(status := status)] + s[1..] == s[0 := s[0].(status := status)];
    }
  }

  /**
   * What `updateOrderStatus` writes: only the `status` field of the first
   * order with that id changes; every other order and field is as it was, and
   * an unknown id changes nothing.
   */
  lemma SetStatusChangesOnlyStatus(s: seq<Order>, id: string, status: OrderStatus)
    ensures var r := SetStatus(s, id, status);
            var p := FirstIndex(s, OrderId, id);
            && |r| == |s|
            && (forall j :: 0 <= j < |s| && j != p ==> r[j] == s[j])
            && (p >= 0 ==> r[p] == s[p].(status := status))
            && (p == -1 ==> r == s)
  {
    SetStatusAt(s, id, status);
  }

  /** Changing a status keeps every order id, so ids stay unique. */
  lemma SetStatusKeepsIds(s: seq<Order>, id: string, status: OrderStatus)
    requires UniqueKeys(s, OrderId)
    ensures UniqueKeys(SetStatus(s, id, status), OrderId)
  {
    SetStatusChangesOnlyStatus(s, id, status);
    var r := SetStatus(s, id, status);
    forall i, j | 0 <= i < j < |r| ensures OrderId(r[i]) != OrderId(r[j]) {
      assert r[i].id == s[i].id && r[j].id == s[j].id;
    }
  }

  /** `tableNos.map(no => ({ id: <new uuid>, shopId, tableNo: no }))`. */
  function NewTables(shopId: string, nos: seq<string>, ids: seq<string>): (r: seq<Table>)
    requires |ids| == |nos|
    ensures |r| == |nos|
    ensures forall i :: 0 <= i < |r| ==> r[i] == Table(ids[i], shopId, nos[i])
    decreases |nos|
  {
    if nos == [] then [] else [Table(ids[0], shopId, nos[0])] + NewTables(shopId, nos[1..], ids[1..])
  }

  /** The table numbers of a list of tables, in order. */
  function TableNos(ts: seq<Table>): (r: seq<string>)
    ensures |r| == |ts|
    ensures forall i :: 0 <= i < |r| ==> r[i] == ts[i].tableNo
    decreases |ts|
  {
    if ts == [] then [] else [ts[0].tableNo] + TableNos(ts[1..])
  }

  /** What `saveTables` writes: the other shops' tables, then the new ones. */
  function ReplaceTables(all: seq<Table>, shopId: string, nos: seq<string>, ids: seq<string>): (r: seq<Table>)
    requires |ids| == |nos|
    ensures |r| == |Except(all, TableShop, shopId)| + |nos|
    ensures forall i :: 0 <= i < |nos| ==> r[|r| - |nos| + i] == Table(ids[i], shopId, nos[i])
  {
    Except(all, TableShop, shopId) + NewTables(shopId, nos, ids)
  }

  /**
   * After `saveTables(shopId, nos)` the shop's tables carry exactly the numbers
   * `nos`, in order, with no stale entry left, and every other shop's tables
   * are unchanged.
   */
  lemma TablesAfterReplace(all: seq<Table>, shopId: string, nos: seq<string>, ids: seq<string>, other: string)
    requires |ids| == |nos|
    ensures TableNos(Where(ReplaceTables(all, shopId, nos, ids), TableShop, shopId)) == nos
    ensures other != shopId ==> Where(ReplaceTables(all, shopId, nos, ids), TableShop, other) == Where(all, TableShop, other)
  {
    var added := NewTables(shopId, nos, ids);
    WhereAppend(Except(all, TableShop, shopId), added, TableShop, shopId);
    WhereExcept(all, TableShop, shopId, shopId);
    WhereAll(added, TableShop, shopId);
    if other != shopId {
      WhereAppend(Except(all, TableShop, shopId), added, TableShop, other);
      WhereExcept(all, TableShop, other, shopId);
      WhereNone(added, TableShop, other);
    }
  }

  /** With unused, distinct ids, the replaced table list keeps table ids unique. */
  lemma ReplaceTablesKeepsIds(all: seq<Table>, shopId: string, nos: seq<string>, ids: seq<string>)
    requires |ids| == |nos|
    requires UniqueKeys(all, TableId)
    requires forall i, j :: 0 <= i < j < |ids| ==> ids[i] != ids[j]
    requires forall i :: 0 <= i < |ids| ==> !HasKey(all, TableId, ids[i])
    ensures UniqueKeys(ReplaceTables(all, shopId, nos, ids), TableId)
  {
    var kept := Except(all, TableShop, shopId);
    var added := NewTables(shopId, nos, ids);
    UniqueFilter(all, TableShop, TableId, shopId);
    forall i, j | 0 <= i < |kept| && 0 <= j < |added| ensures TableId(kept[i]) != TableId(added[j]) {
      assert kept[i] in all;
    }
    UniqueConcat(kept, added, TableId);
  }

  /** The six slots. */
  class Store {
    var user: Cell<User>
    var shops: Cell<seq<Shop>>
    var menus: Cell<seq<ShopMenu>>
    var reservations: Cell<seq<Reservation>>
    var tables: Cell<seq<Table>>
    var orders: Cell<seq<Order>>

    /** A new browser profile: no slot holds anything. */
    constructor ()
      ensures user == Empty && shops == Empty && menus == Empty
      ensures reservations == Empty && tables == Empty && orders == Empty
    {
      user, shops, menus := Empty, Empty, Empty;
      reservations, tables, orders := Empty, Empty, Empty;
    }

    /**
     * The store's invariant: record ids are unique in every collection, and
     * there is at most one menu per shop.
     */
    ghost predicate Valid()
      reads this
    {
      && (shops.Json? ==> UniqueKeys(shops.value, ShopId))
      && (menus.Json? ==> UniqueKeys(menus.value, MenuShop))
      && (reservations.Json? ==> UniqueKeys(reservations.value, ReservationId))
      && (tables.Json? ==> UniqueKeys(tables.value, TableId))
      && (orders.Json? ==> UniqueKeys(orders.value, OrderId))
    }

    /**
     * `getOrCreateUser`: the saved user if there is one; otherwise a new
     * anonymous user, which is saved, so every later call returns it.
     */
    method GetOrCreateUser(freshId: string, fits: bool) returns (r: Result<User>)
      modifies this`user
      ensures old(user).Json? ==> r == Ok(old(user).value) && user == old(user)
      ensures old(user).Garbled? ==> r == Err(Unparsable) && user == old(user)
      ensures old(user).Empty? && fits ==>
                r == Ok(User(freshId, true, AnonymousName)) && user == Json(r.value)
      ensures old(user).Empty? && !fits ==> r == Err(QuotaExceeded) && user == old(user)
    {
      match user
      case Json(u) => r := Ok(u);
      case Garbled => r := Err(Unparsable);
      case Empty =>
        var newUser := User(freshId, true, AnonymousName);
        if fits {
          user := Json(newUser);
          r := Ok(newUser);
        } else {
          r := Err(QuotaExceeded);
        }
    }

    /** `getShops`: every stored shop, in stored order. */
    function Shops(): (r: Result<seq<Shop>>)
      reads this
      ensures r.Err? <==> shops.Garbled?
      ensures shops.Empty? ==> r == Ok([])
      ensures shops.Json? ==> r == Ok(shops.value)
    {
      ParseList(shops)
    }

    /**
     * `addShop`: appends one shop with the given name and owner; earlier shops
     * stay as they were and in order. The name has been trimmed and is not
     * empty (the only caller checks this).
     */
    method AddShop(name: string, ownerId: string, freshId: string, now: int, fits: bool) returns (r: Result<Shop>)
      requires name != "" && Text.Trim(name) == name
      requires shops.Json? ==> !HasKey(shops.value, ShopId, freshId)
      modifies this`shops
      ensures old(shops).Garbled? ==> r == Err(Unparsable) && shops == old(shops)
      ensures !old(shops).Garbled? && !fits ==> r == Err(QuotaExceeded) && shops == old(shops)
      ensures !old(shops).Garbled? && fits ==>
                && r == Ok(Shop(freshId, name, now, ownerId))
                && shops == Json(ParseList(old(shops)).value + [r.value])
      ensures old(Valid()) ==> Valid()
    {
      var loaded := ParseList(shops);
      if loaded.Err? {
        return Err(loaded.failure);
      }
      var all := loaded.value;
      var newShop := Shop(freshId, name, now, ownerId);
      if !fits {
        return Err(QuotaExceeded);
      }
      if shops.Json? && Valid() { UniqueAppend(all, newShop, ShopId); }
      shops := Json(all + [newShop]);
      r := Ok(newShop);
    }

    /** `getMenuByShopId`: the first menu of the shop, if any. */
    function MenuByShopId(shopId: string): (r: Result<Option<ShopMenu>>)
      reads this
      ensures r.Err? <==> menus.Garbled?
      ensures r.Ok? ==> r.value == Find(ParseList(menus).value, MenuShop, shopId)
    {
      match ParseList(menus)
      case Ok(ms) => Ok(Find(ms, MenuShop, shopId))
      case Err(f) => Err(f)
    }

    /**
     * `saveMenu`: keyed by `shopId`, not by `id`. The shop's menu is replaced
     * in place, or the menu is appended when the shop has none; the other
     * shops' menus stay as they were, and the shop's lookup then finds it.
     */
    method SaveMenu(menu: ShopMenu, fits: bool) returns (r: Result<()>)
      modifies this`menus
      ensures old(menus).Garbled? ==> r == Err(Unparsable) && menus == old(menus)
      ensures !old(menus).Garbled? && !fits ==> r == Err(QuotaExceeded) && menus == old(menus)
      ensures !old(menus).Garbled? && fits ==>
                r == Ok(()) && menus == Json(Upsert(ParseList(old(menus)).value, menu, MenuShop))
      ensures r.Ok? ==> MenuByShopId(menu.shopId) == Ok(Some(menu))
      ensures r.Ok? ==> Except(menus.value, MenuShop, menu.shopId) == Except(ParseList(old(menus)).value, MenuShop, menu.shopId)
      ensures old(Valid()) ==> Valid()
    {
      var loaded := ParseList(menus);
      if loaded.Err? {
        return Err(loaded.failure);
      }
      var all := loaded.value;
      var index := FirstIndex(all, MenuShop, menu.shopId);
      UpsertAt(all, menu, MenuShop);
      if index > -1 {
        all := all[index := menu];
      } else {
        all := all + [menu];
      }
      if !fits {
        return Err(QuotaExceeded);
      }
      if menus.Json? && Valid() { UpsertKeepsUnique(loaded.value, menu, MenuShop); }
      UpsertThenFind(loaded.value, menu, MenuShop);
      UpsertKeepsOthers(loaded.value, menu, MenuShop);
      menus := Json(all);
      r := Ok(());
    }

    /** `getReservations`: the shop's reservations, in stored order. */
    function Reservations(shopId: string): (r: Result<seq<Reservation>>)
      reads this
      ensures r.Err? <==> reservations.Garbled?
      ensures r.Ok? ==> r.value == Where(ParseList(reservations).value, ReservationShop, shopId)
    {
      match ParseList(reservations)
      case Ok(all) => Ok(Where(all, ReservationShop, shopId))
      case Err(f) => Err(f)
    }

    /** `addReservation`: appends the record with a new id and returns it. */
    method AddReservation(res: Reservation, freshId: string, fits: bool) returns (r: Result<Reservation>)
      requires reservations.Json? ==> !HasKey(reservations.value, ReservationId, freshId)
      modifies this`reservations
      ensures old(reservations).Garbled? ==> r == Err(Unparsable) && reservations == old(reservations)
      ensures !old(reservations).Garbled? && !fits ==> r == Err(QuotaExceeded) && reservations == old(reservations)
      ensures !old(reservations).Garbled? && fits ==>
                && r == Ok(res.(id := freshId))
                && reservations == Json(ParseList(old(reservations)).value + [r.value])
      ensures old(Valid()) ==> Valid()
    {
      var loaded := ParseList(reservations);
      if loaded.Err? {
        return Err(loaded.failure);
      }
      var all := loaded.value;
      var newRes := res.(id := freshId);
      if !fits {
        return Err(QuotaExceeded);
      }
      if reservations.Json? && Valid() { UniqueAppend(all, newRes, ReservationId); }
      reservations := Json(all + [newRes]);
      r := Ok(newRes);
    }

    /**
     * `updateReservation`: the first record with the same id is replaced; an
     * unknown id leaves the list as it was (it is still written back).
     */
    method UpdateReservation(res: Reservation, fits: bool) returns (r: Result<()>)
      modifies this`reservations
      ensures old(reservations).Garbled? ==> r == Err(Unparsable) && reservations == old(reservations)
      ensures !old(reservations).Garbled? && !fits ==> r == Err(QuotaExceeded) && reservations == old(reservations)
      ensures !old(reservations).Garbled? && fits ==>
                && r == Ok(())
                && reservations == Json(ReplaceFirst(ParseList(old(reservations)).value, ReservationId, res.id, res))
      ensures old(Valid()) ==> Valid()
    {
      var loaded := ParseList(reservations);
      if loaded.Err? {
        return Err(loaded.failure);
      }
      var all := loaded.value;
      var index := FirstIndex(all, ReservationId, res.id);
      ReplaceFirstAt(all, ReservationId, res.id, res);
      if index > -1 {
        all := all[index := res];
      }
      if !fits {
        return Err(QuotaExceeded);
      }
      if reservations.Json? && Valid() { UniqueReplaceFirst(loaded.value, ReservationId, res); }
      reservations := Json(all);
      r := Ok(());
    }

    /** `getTables`: the shop's tables, in stored order. */
    function Tables(shopId: string): (r: Result<seq<Table>>)
      reads this
      ensures r.Err? <==> tables.Garbled?
      ensures r.Ok? ==> r.value == Where(ParseList(tables).value, TableShop, shopId)
    {
      match ParseList(tables)
      case Ok(all) => Ok(Where(all, TableShop, shopId))
      case Err(f) => Err(f)
    }

    /**
     * `saveTables`: deletes every table of the shop and adds one table per
     * number, each with a new id.
     */
    method SaveTables(shopId: string, tableNos: seq<string>, freshIds: seq<string>, fits: bool) returns (r: Result<()>)
      requires |freshIds| == |tableNos|
      requires forall i, j :: 0 <= i < j < |freshIds| ==> freshIds[i] != freshIds[j]
      requires tables.Json? ==> forall i :: 0 <= i < |freshIds| ==> !HasKey(tables.value, TableId, freshIds[i])
      modifies this`tables
      ensures old(tables).Garbled? ==> r == Err(Unparsable) && tables == old(tables)
      ensures !old(tables).Garbled? && !fits ==> r == Err(QuotaExceeded) && tables == old(tables)
      ensures !old(tables).Garbled? && fits ==>
                r == Ok(()) && tables == Json(ReplaceTables(ParseList(old(tables)).value, shopId, tableNos, freshIds))
      ensures old(Valid()) ==> Valid()
    {
      var loaded := ParseList(tables);
      if loaded.Err? {
        return Err(loaded.failure);
      }
      var all := loaded.value;
      var filtered := Except(all, TableShop, shopId);
      var newTables := NewTables(shopId, tableNos, freshIds);
      if !fits {
        return Err(QuotaExceeded);
      }
      if tables.Json? && Valid() { ReplaceTablesKeepsIds(all, shopId, tableNos, freshIds); }
      tables := Json(filtered + newTables);
      r := Ok(());
    }

    /** `getOrders`: the shop's orders, in stored order. */
    function Orders(shopId: string): (r: Result<seq<Order>>)
      reads this
      ensures r.Err? <==> orders.Garbled?
      ensures r.Ok? ==> r.value == Where(ParseList(orders).value, OrderShop, shopId)
    {
      match ParseList(orders)
      case Ok(all) => Ok(Where(all, OrderShop, shopId))
      case Err(f) => Err(f)
    }

    /** `addOrder`: appends the order with a new id and the creation time, and returns it. */
    method AddOrder(order: Order, freshId: string, now: int, fits: bool) returns (r: Result<Order>)
      requires orders.Json? ==> !HasKey(orders.value, OrderId, freshId)
      modifies this`orders
      ensures old(orders).Garbled? ==> r == Err(Unparsable) && orders == old(orders)
      ensures !old(orders).Garbled? && !fits ==> r == Err(QuotaExceeded) && orders == old(orders)
      ensures !old(orders).Garbled? && fits ==>
                && r == Ok(order.(id := freshId, createdAt := now))
                && orders == Json(ParseList(old(orders)).value + [r.value])
      ensures old(Valid()) ==> Valid()
    {
      var loaded := ParseList(orders);
      if loaded.Err? {
        return Err(loaded.failure);
      }
      var all := loaded.value;
      var newOrder := order.(id := freshId, createdAt := now);
      if !fits {
        return Err(QuotaExceeded);
      }
      if orders.Json? && Valid() { UniqueAppend(all, newOrder, OrderId); }
      orders := Json(all + [newOrder]);
      r := Ok(newOrder);
    }

    /** `updateOrderStatus`: sets the status of the first order with that id. */
    method UpdateOrderStatus(orderId: string, status: OrderStatus, fits: bool) returns (r: Result<()>)
      modifies this`orders
      ensures old(orders).Garbled? ==> r == Err(Unparsable) && orders == old(orders)
      ensures !old(orders).Garbled? && !fits ==> r == Err(QuotaExceeded) && orders == old(orders)
      ensures !old(orders).Garbled? && fits ==>
                r == Ok(()) && orders == Json(SetStatus(ParseList(old(orders)).value, orderId, status))
      ensures old(Valid()) ==> Valid()
    {
      var loaded := ParseList(orders);
      if loaded.Err? {
        return Err(loaded.failure);
      }
      var all := loaded.value;
      var index := FirstIndex(all, OrderId, orderId);
      SetStatusAt(all, orderId, status);
      if index > -1 {
        all := all[index := all[index].(status := status)];
      }
      if !fits {
        return Err(QuotaExceeded);
      }
      if orders.Json? && Valid() { SetStatusKeepsIds(loaded.value, orderId, status); }
      orders := Json(all);
      r := Ok(());
    }
  }
}
