/**
 * The records of the SmartOrder store. Identifiers are opaque strings,
 * timestamps are milliseconds since the epoch (`Date.now()`), and prices
 * are whole amounts.
 */
module Types {
  import opened Basics

  /** The device's owner: created once, anonymous. */
  datatype User = User(id: string, isAnonymous: bool, name: string)

  /** One dish on a menu. */
  datatype MenuItem = MenuItem(id: string, name: string, price: int, image: Option<string>, category: string)

  /** A shop's menu. Its effective key is `shopId`, not `id`. */
  datatype ShopMenu = ShopMenu(
    id: string,
    shopId: string,
    brandName: string,
    categories: seq<string>,
    items: seq<MenuItem>,
    isPublished: bool)

  datatype Shop = Shop(id: string, name: string, createdAt: int, ownerId: string)

  /** How a reservation came in: booked ahead (`預訂`) or walk-in (`現場`). */
  datatype ReservationSource = Booked | WalkIn {
    function Text(): string {
      match this
      case Booked => "預訂"
      case WalkIn => "現場"
    }
  }

  /** Waiting to be seated (`待入座`), seated (`已入座`), cancelled (`已取消`). */
  datatype ReservationStatus = Waiting | Seated | Cancelled {
    function Text(): string {
      match this
      case Waiting => "待入座"
      case Seated => "已入座"
      case Cancelled => "已取消"
    }
  }

  datatype Reservation = Reservation(
    id: string,
    shopId: string,
    time: string,
    tableNo: string,
    phone: string,
    source: ReservationSource,
    status: ReservationStatus,
    checkInTime: Option<int>)

  datatype Table = Table(id: string, shopId: string, tableNo: string)

  /** An ordered dish, with its own copies of the dish's name and price. */
  datatype OrderItem = OrderItem(menuItemId: string, name: string, quantity: int, price: int)

  /** `'new' | 'served' | 'paid'`. */
  datatype OrderStatus = New | Served | Paid {
    function Text(): string {
      match this
      case New => "new"
      case Served => "served"
      case Paid => "paid"
    }
  }

  datatype Order = Order(
    id: string,
    shopId: string,
    tableNo: string,
    items: seq<OrderItem>,
    totalPrice: int,
    status: OrderStatus,
    createdAt: int)

  /** The string literals a stored record may hold, read back. */
  function SourceFromText(t: string): (r: Option<ReservationSource>)
    ensures r.Some? ==> r.value.Text() == t
  {
    if t == "預訂" then Some(Booked) else if t == "現場" then Some(WalkIn) else None
  }

  function ReservationStatusFromText(t: string): (r: Option<ReservationStatus>)
    ensures r.Some? ==> r.value.Text() == t
  {
    if t == "待入座" then Some(Waiting)
    else if t == "已入座" then Some(Seated)
    else if t == "已取消" then Some(Cancelled)
    else None
  }

  function OrderStatusFromText(t: string): (r: Option<OrderStatus>)
    ensures r.Some? ==> r.value.Text() == t
  {
    if t == "new" then Some(New) else if t == "served" then Some(Served) else if t == "paid" then Some(Paid) else None
  }

  /** The literals are distinct, so each value survives being stored as its text. */
  lemma EnumTextsRoundTrip(s: ReservationSource, r: ReservationStatus, o: OrderStatus)
    ensures SourceFromText(s.Text()) == Some(s)
    ensures ReservationStatusFromText(r.Text()) == Some(r)
    ensures OrderStatusFromText(o.Text()) == Some(o)
  {
  }

  // The fields the store looks records up by.
  function ShopId(s: Shop): string { s.id }
  function MenuShop(m: ShopMenu): string { m.shopId }
  function ItemId(it: MenuItem): string { it.id }
  function ReservationId(r: Reservation): string { r.id }
  function ReservationShop(r: Reservation): string { r.shopId }
  function TableShop(t: Table): string { t.shopId }
  function TableId(t: Table): string { t.id }
  function OrderId(o: Order): string { o.id }
  function OrderShop(o: Order): string { o.shopId }
}
