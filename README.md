# SmartOrder core in Dafny

SmartOrder is a restaurant ordering application. An owner creates a shop.
They import its menu from a photo and publish it with a list of table
numbers. Diners order from a per-table link, where each link carries a
token. Staff seat reservations and walk-ins, and move each order from new
to served to paid. Everything is kept in the browser's `localStorage`.

This project models the parts of that program that hold logic:

- the record store `dataService`, with its six slots: user, shops, menus,
  reservations, tables and orders;
- the generic key–value helper `storageService`;
- the table-link token in `cryptoUtils`;
- the record types;
- the state-changing handlers and pure rules of four views:
  - the diner's order page;
  - the owner's menu page;
  - the booking list;
  - the shop console with its orders tab.

Files, one module each:

| file | module | models |
|---|---|---|
| basics.dfy | `Basics` | `Option`, `Result`, and a stored slot as `Cell` (empty, parsable, unparsable) |
| text.dfy | `Text` | JavaScript `split` on one character and `trim` |
| keyed.dfy | `Keyed` | `findIndex`, `find`, `filter` by a key, replace-by-key and upsert over sequences |
| types.dfy | `Types` | `types.ts` |
| storage_service.dfy | `StorageService` | `services/storageService.ts` |
| data_service.dfy | `DataService` | `services/dataService.ts` |
| crypto.dfy | `Crypto` | `utils/crypto.ts`, with base64 as section 4 of RFC 4648 defines it |
| customer_order_view.dfy | `CustomerOrderView` | `views/CustomerOrderView.tsx` |
| menu_view.dfy | `MenuView` | `views/MenuView.tsx` |
| booking_view.dfy | `BookingView` | `views/BookingView.tsx` |
| shop_detail.dfy | `ShopDetail` | `views/ShopDetail.tsx` |

How the ambient world appears in the model:

- **Stored text.** A slot is a `Cell`:
  - `Empty`: no text, or an empty string;
  - `Json(v)`: text that parses to `v`;
  - `Garbled`: text on which `JSON.parse` throws.
- **Quota.** Every write takes a flag `fits`, which says whether the browser
  accepts the new text.
- **Failures in `dataService`.** These raise, and so does the browser
  refusing a write. A method returns `Err(Unparsable)` or
  `Err(QuotaExceeded)` and leaves its slot as it was.
- **Failures in the views.** A handler that calls a throwing writer stops at
  that call. State it set before the call stays set, and nothing after the
  call happens.
- **`storageService`.** It catches both failures: reads fall back to the
  default, and a refused write is dropped.
- **Ids, time and the device.** `crypto.randomUUID()`, `Date.now()`, the
  ISO timestamp and `navigator.userAgent` are parameters. Each new id is
  required to be unused.
- **Route parameters.** An absent parameter is the empty string. The source
  only tests whether a parameter is truthy, and `""` is falsy as `undefined`
  is.
- **The menu recogniser.** Its result is a parameter of the upload handler.
  Its fallback sample menu is `MenuView.FallbackMenu`.

## Model

| member | source | states |
|---|---|---|
| Types.EnumTextsRoundTrip | types.ts:32-33 | Each enumeration value maps to its stored text and back: the booked/walk-in source, the waiting/seated/cancelled reservation status, and new/served/paid for orders |
| Types.OrderStatusFromText | types.ts:65 | Only `new`, `served` and `paid` are order statuses, and each is recognised as the status whose text it is |
| Types.ReservationStatusFromText | types.ts:33 | The three reservation status texts, cancelled included, are recognised, and nothing else is |
| Types.SourceFromText | types.ts:32 | The two reservation sources, booked and walk-in, are recognised, and nothing else is |
| Basics.ParseList | services/dataService.ts:25 | `JSON.parse(text or '[]')`: an unparsable slot fails, an empty slot is the empty list, otherwise the stored list |
| Keyed.FirstIndex | services/storageService.ts:45 | `findIndex`: -1 when no record has the key, otherwise the smallest index holding it |
| Keyed.Find | services/dataService.ts:38 | `find`: absent exactly when no record has the key; otherwise the record at the first position holding the key, with no earlier record holding it |
| Keyed.Where | services/dataService.ts:51 | `filter` by key: only records with the key, each taken from the list, and every such record kept |
| Keyed.Except | services/dataService.ts:74 | `filter` by a different key: no record with the key remains, and every other record is kept |
| Keyed.Upsert | services/storageService.ts:45-50 | An upsert adds at most one record, removes none, and the result holds the record |
| Keyed.UpsertAt | services/storageService.ts:45-50 | An upsert puts the record at the first position with its key if there is one, and at the end otherwise |
| Keyed.UpsertIdempotent | services/storageService.ts:43-52 | Upserting the same record twice is upserting it once |
| Keyed.UpsertKeepsOthers | services/storageService.ts:45-50 | An upsert leaves every record with another key unchanged and in order |
| Keyed.UpsertThenFind | services/dataService.ts:36-46 | After an upsert, looking the key up finds the upserted record |
| Keyed.UpsertKeepsUnique | services/dataService.ts:42-44 | An upsert keeps keys unique, so there is at most one menu per shop |
| Keyed.ReplaceFirst | services/dataService.ts:62-63 | Replacing by key keeps the length, and every record with another key stays at its position |
| Keyed.ReplaceFirstAt | services/dataService.ts:62-63 | Replacing by key changes only the first position with that key; an unknown key changes nothing |
| Keyed.ReplaceAll | views/BookingView.tsx:37 | `map` keeps the length, puts the new record at every position whose key matches, and keeps every other record |
| Keyed.ReplaceAllIsReplaceFirst | views/BookingView.tsx:37 | With unique keys, `map` over every matching entry gives the same list as replacing the first match |
| Keyed.WhereExcept | services/dataService.ts:74 | Filtering out one shop removes all of that shop's records and leaves every other shop's slice unchanged |
| Keyed.UniqueFilter | services/dataService.ts:74 | Filtering keeps ids unique |
| StorageService.Lookup | services/storageService.ts:12-20 | `get`: the default when the key is absent, empty or unparsable; otherwise the stored value |
| StorageService.Storage.Get | services/storageService.ts:12-20 | `get` returns the value `Lookup` gives, and never fails |
| StorageService.Storage.Set | services/storageService.ts:25-31 | `set` stores the value under the key, or, when the browser refuses it, logs and changes nothing |
| StorageService.Storage.Remove | services/storageService.ts:57-59 | `remove` deletes that key and no other |
| StorageService.Storage.ClearAll | services/storageService.ts:64-66 | `clearAll` leaves no key |
| StorageService.GetCollection | services/storageService.ts:36-38 | A missing or unreadable collection is the empty sequence |
| StorageService.SaveToCollection | services/storageService.ts:43-52 | `saveToCollection` stores the collection upserted by `id`, or nothing when the write is refused |
| StorageService.Saved | services/storageService.ts:43-52 | After `saveToCollection` the key holds a parsable collection containing the record, no key is lost, and every other key is unchanged |
| StorageService.SetThenGet | services/storageService.ts:12-31 | `get` after `set` on the same key returns the value set |
| StorageService.OtherKeysUntouched | services/storageService.ts:25-59 | `set`, `remove` and `saveToCollection` on one key leave every other key's value as it was |
| StorageService.SaveTwiceIsSaveOnce | services/storageService.ts:43-52 | Saving the same record twice gives the store that saving it once gives |
| StorageService.SavedCollection | services/storageService.ts:43-52 | With the id present, the length stays and that position holds the record; otherwise the record is appended; records with other ids are unchanged and in order |
| DataService.Store.Shops | services/dataService.ts:24-26 | `getShops`: fails exactly when the shops slot is unparsable; an empty slot is no shops; otherwise the stored shops in order |
| DataService.Store.GetOrCreateUser | services/dataService.ts:15-21 | A saved user is returned unchanged, so every later call returns the first user created; otherwise a new anonymous user named 匿名用戶 with the given id is saved and returned |
| DataService.Store.AddShop | services/dataService.ts:27-33 | Exactly one shop, with the given name, owner, new id and time, is appended; earlier shops stay as they were and in order; shop ids stay unique |
| DataService.Store.MenuByShopId | services/dataService.ts:36-39 | Fails exactly when the menus slot is unparsable; otherwise returns the first menu of the shop, or none |
| DataService.Store.SaveMenu | services/dataService.ts:40-46 | The shop's menu is replaced in place, or appended when the shop has none; other shops' menus are unchanged; the shop's lookup then returns the saved menu; at most one menu per shop is kept |
| DataService.Store.Reservations | services/dataService.ts:49-52 | The shop's reservations, in stored order, or a failure exactly when the slot is unparsable |
| DataService.Store.AddReservation | services/dataService.ts:53-59 | Appends the input with the new id and returns it; earlier records are intact; ids stay unique |
| DataService.Store.UpdateReservation | services/dataService.ts:60-65 | Replaces the first record with the same id; an unknown id leaves the list as it was |
| DataService.Store.Tables | services/dataService.ts:68-71 | The shop's tables, in stored order, or a failure exactly when the slot is unparsable |
| DataService.Store.SaveTables | services/dataService.ts:72-77 | Writes the other shops' tables followed by one new table per number; table ids stay unique |
| DataService.ReplaceTables | services/dataService.ts:74-76 | The written list holds the other shops' tables followed by exactly one new table per number, in order, with its id, the shop and the number |
| DataService.TablesAfterReplace | services/dataService.ts:68-77 | After `saveTables(shopId, nos)` the shop's tables carry exactly the numbers `nos` in order, and every other shop's tables are unchanged |
| DataService.ReplaceTablesKeepsIds | services/dataService.ts:74-76 | With new distinct ids, the rewritten table list keeps ids unique |
| DataService.Store.Orders | services/dataService.ts:80-83 | The shop's orders, in stored order, or a failure exactly when the slot is unparsable |
| DataService.Store.AddOrder | services/dataService.ts:84-90 | Appends the input with the new id and creation time and returns it; earlier orders are intact |
| DataService.Store.UpdateOrderStatus | services/dataService.ts:91-96 | Writes the orders with the status of the first order with that id set; order ids stay unique |
| DataService.SetStatus | services/dataService.ts:93-94 | Setting a status keeps the number of orders, and every order with another id stays at its position unchanged |
| DataService.SetStatusAt | services/dataService.ts:93-94 | Setting a status changes only the position `findIndex` finds, and changes nothing when the id is unknown |
| DataService.SetStatusChangesOnlyStatus | services/dataService.ts:91-96 | Only the `status` field of the order with that id changes; every other order and field is unchanged; an unknown id leaves the collection unchanged |
| DataService.SetStatusKeepsIds | services/dataService.ts:94 | Changing a status keeps ids unique |
| DataService.NewTables | services/dataService.ts:75 | One table per number, in order, each with its id, the shop and the number |
| Text.Trim | views/MenuView.tsx:56 | `trim` never lengthens the text, and the result neither begins nor ends with white space |
| Text.TrimShape | views/MenuView.tsx:56 | `trim` gives a contiguous part of the text with no white space at either end |
| Text.TrimIdempotent | views/MenuView.tsx:56 | Trimming twice is trimming once |
| Text.Split | views/MenuView.tsx:56 | `split` gives at least one piece, and at most one more piece than the text has characters |
| Text.SplitCount | views/MenuView.tsx:56 | `split` on a character gives one more piece than there are separators |
| Text.SplitPiecesLackSeparator | views/MenuView.tsx:56 | No piece of a split contains the separator |
| Text.JoinSplit | views/MenuView.tsx:56 | Joining the pieces with the separator gives the text back |
| Text.SplitJoin | views/MenuView.tsx:56 | Splitting pieces that were joined, none of which contains the separator, gives the pieces back |
| Text.SplitAtFirst | utils/crypto.ts:8 | `split('T')[0]` is the text before the first `T` |
| Crypto.Sextet | utils/crypto.ts:13 | The base64 alphabet; exactly the values below 62 are letters or digits, so the filter removes only `+`, `/` and the `=` padding |
| Crypto.Btoa | utils/crypto.ts:13 | `btoa` gives four characters per started group of three characters |
| Crypto.Base64 | utils/crypto.ts:13 | `btoa` gives four characters per started group of three bytes |
| Crypto.Base64Append | utils/crypto.ts:13 | Encoding whole groups of three bytes and then the rest is encoding the whole |
| Crypto.KeepAlphanumeric | utils/crypto.ts:13 | `replace(/[^a-zA-Z0-9]/g, '')` keeps only letters and digits and never lengthens the text |
| Crypto.KeepAlphanumericKeeps | utils/crypto.ts:13 | The filter loses no letter or digit, and leaves a text of letters and digits alone as it is |
| Crypto.KeepAlphanumericSingle | utils/crypto.ts:13 | One character is kept exactly when it is a letter or digit; with the distribution over concatenation this fixes the filter on every text |
| Crypto.KeepAlphanumericAppend | utils/crypto.ts:13 | The filter works character by character, so it distributes over concatenation |
| Crypto.Last | utils/crypto.ts:13 | `slice(-12)`: the last 12 characters, or the whole text when it is shorter |
| Crypto.GenerateTableHash | utils/crypto.ts:7-14 | The token is the last 12 characters of the filtered encoding of `ua-date-tableNo`, or all of it when that is shorter; every character is a letter or digit |
| Crypto.DateOfLacksT | utils/crypto.ts:8 | The date taken from any timestamp never contains a `T` |
| Crypto.DateOfIso | utils/crypto.ts:8 | The date used is the part of the ISO timestamp before the `T`, which is the UTC date |
| Crypto.ValidateHash | utils/crypto.ts:19-21 | Valid exactly when the hash equals the token recomputed for the same table number, device and instant; nothing is looked up |
| Crypto.GeneratedTokenValidates | utils/crypto.ts:19-21 | A token just generated validates on the same device at the same date |
| Crypto.TokenOfDay | utils/crypto.ts:7-13 | At the instant `day`, `T`, `time`, the token is the last 12 filtered characters of the encoding of `ua-day-tableNo` |
| Crypto.LongTableNumberIgnoresDate | utils/crypto.ts:8-13 | For a table number of at least 14 `A`s, any two dates of equal length give the same token, so that link does not expire with the day |
| CustomerOrderView.Bumped | views/CustomerOrderView.tsx:40-46 | The entry becomes `max(0, current + delta)`, with a missing entry counting as 0; every other entry is kept |
| CustomerOrderView.BumpedKeepsNonNegative | views/CustomerOrderView.tsx:43 | No quantity ever goes negative |
| CustomerOrderView.ItemCount | views/CustomerOrderView.tsx:52 | The item count of a cart without negative quantities is never negative |
| CustomerOrderView.ItemCountRemove | views/CustomerOrderView.tsx:52 | The item count does not depend on the order in which the cart's values are summed |
| CustomerOrderView.ItemCountBumped | views/CustomerOrderView.tsx:40-52 | A button press changes the item count by exactly the change of that one entry |
| CustomerOrderView.ItemCountPositive | views/CustomerOrderView.tsx:52 | The count is never negative, and it is positive exactly when some item has been chosen |
| CustomerOrderView.Total | views/CustomerOrderView.tsx:53-55 | While no menu item has a quantity, the total is zero |
| CustomerOrderView.TotalPrice | views/CustomerOrderView.tsx:53-55 | Zero while no menu is loaded; otherwise the menu's total of price × quantity, where a missing entry counts as 0 |
| CustomerOrderView.OrderLines | views/CustomerOrderView.tsx:60-67 | There are never more order lines than menu items |
| CustomerOrderView.OrderLinesShape | views/CustomerOrderView.tsx:60-67 | Every line has a positive quantity and is a snapshot of a menu item's id, name and price with its quantity; every chosen item has a line; the lines are empty exactly when nothing is chosen |
| CustomerOrderView.OrderLinesAppend | views/CustomerOrderView.tsx:60-67 | The lines keep menu order |
| CustomerOrderView.OrderLinesTotal | views/CustomerOrderView.tsx:53-67 | For a cart without negative quantities, the cart total equals the sum of price × quantity over the order lines |
| CustomerOrderView.NewOrder | views/CustomerOrderView.tsx:71-77 | The submitted order has status `new`, the shop, the table, the chosen lines and the cart total |
| CustomerOrderView.NewOrderTotal | views/CustomerOrderView.tsx:53-77 | A submitted order's total equals the sum of price × quantity over its own items |
| CustomerOrderView.OrderPage.Load | views/CustomerOrderView.tsx:19-38 | A present but non-matching token sets the link error and loads no menu; a shop without a menu sets the other error; otherwise the menu is shown; without a shop id the menu is not fetched |
| CustomerOrderView.OrderPage.UpdateQuantity | views/CustomerOrderView.tsx:40-46 | The cart becomes the bumped cart and stays free of negative quantities |
| CustomerOrderView.OrderPage.HandleSubmit | views/CustomerOrderView.tsx:57-82 | A missing menu, shop id or table number, or an empty selection, writes nothing; otherwise exactly this order is appended to the store and the page shows its confirmation |
| MenuView.Draft | views/MenuView.tsx:34-41 | The draft is unpublished and for this shop; a missing or empty brand becomes 我的店鋪; missing categories become none; every dish keeps its fields except its id, which is the new id |
| MenuView.DraftItemIdsUnique | views/MenuView.tsx:39 | With distinct new ids, the dishes' ids are distinct whatever ids the recogniser returned |
| MenuView.FallbackDraft | views/MenuView.tsx:32-41 | Importing the recogniser's fallback gives the default brand, its two categories and its two sample dishes under new ids |
| MenuView.Published | views/MenuView.tsx:53 | Publishing sets `isPublished` and changes no other field |
| MenuView.WithoutItem | views/MenuView.tsx:63-64 | Deleting changes only `items`: the items without that id |
| MenuView.WithoutItemProperties | views/MenuView.tsx:61-67 | No dish with that id is left and every other dish is kept; deleting twice is deleting once; an unknown id changes nothing |
| MenuView.ParseTables | views/MenuView.tsx:56 | One entry per comma-separated piece, each the trimmed piece |
| MenuView.ParseTablesShape | views/MenuView.tsx:56 | There is one more table number than commas, and no table number contains a comma or has white space at either end |
| MenuView.DefaultTablesParse | views/MenuView.tsx:14 | The initial table list gives A1, A2, A3, B1 and B2 |
| MenuView.EmptyPieceKept | views/MenuView.tsx:56 | An empty piece is kept as an empty table number: `A1,,B2` gives three tables |
| MenuView.InitialStep | views/MenuView.tsx:16-22 | Step 1 exactly when there is no menu, 2 exactly for an unpublished one, 3 exactly for a published one |
| MenuView.StepsAfterHandlers | views/MenuView.tsx:43-57 | An imported draft comes back in the editing step and a published menu in the published step; deleting a dish keeps the step |
| MenuView.MenuPage.Load | views/MenuView.tsx:16-22 | A stored menu of the shop is shown in the step its publication state calls for; with none, the page stays on import |
| MenuView.MenuPage.EditTables | views/MenuView.tsx:194 | Typing in the table field sets the table text to what was typed |
| MenuView.MenuPage.HandleFileUpload | views/MenuView.tsx:24-49 | Without a file nothing changes; otherwise the draft is shown and saved by shop, replacing the shop's menu, and the shop's lookup returns it; the page then moves to editing |
| MenuView.MenuPage.HandlePublish | views/MenuView.tsx:51-59 | Without a menu nothing changes; otherwise the published menu is shown and saved, the shop's tables are replaced by the parsed list, and the page moves to the published step |
| MenuView.MenuPage.HandleDeleteItem | views/MenuView.tsx:61-67 | Without a menu nothing changes; otherwise the menu without that dish is shown and saved by shop |
| BookingView.NewReservation | views/BookingView.tsx:24-28 | The new reservation is waiting, has no check-in time, and takes the form's phone, table number, source and time as typed, with no check of the table number |
| BookingView.CheckedIn | views/BookingView.tsx:35 | Check-in sets status seated and the check-in time, and nothing else |
| BookingView.CanCheckIn | views/BookingView.tsx:100 | The check-in button is shown exactly when the status is 待入座 |
| BookingView.CheckInOffered | views/BookingView.tsx:100 | A new reservation is offered check-in and a checked-in one is not; check-in is offered exactly for status 待入座 |
| BookingView.CheckInListsAgree | views/BookingView.tsx:36-37 | With unique ids, the screen's list and the stored list get the same replacement, and only the entry with that id changes |
| BookingView.BookingPage.Load | views/BookingView.tsx:18-20 | The page shows the shop's reservations in stored order |
| BookingView.BookingPage.EditForm | views/BookingView.tsx:136-177 | Typing or choosing in the dialog sets the form to the edited fields |
| BookingView.BookingPage.OpenModal | views/BookingView.tsx:45 | The add button opens the dialog and the close controls close it |
| BookingView.BookingPage.HandleAdd | views/BookingView.tsx:22-32 | The waiting reservation is appended to the store with the new id and put first on the screen; the dialog closes; the form resets to empty fields with source 現場 |
| BookingView.BookingPage.HandleCheckIn | views/BookingView.tsx:34-38 | The store replaces the first record with the id and the screen replaces every entry with the id, both by the checked-in record |
| BookingView.BookingPage.ClickCheckIn | views/BookingView.tsx:100-102 | Only a waiting row has the button: other rows change nothing, and a waiting row is seated |
| ShopDetail.FindShop | views/ShopDetail.tsx:18-25 | Without a shop id nothing happens; an id no shop has redirects home; otherwise a stored shop with that id is shown |
| ShopDetail.AddedShopFound | views/ShopDetail.tsx:21 | A shop just added is found by its id |
| ShopDetail.ShopPage.Load | views/ShopDetail.tsx:18-25 | The effect shows the found shop or navigates home, and fails when the shops slot is unreadable |
| ShopDetail.Offered | views/ShopDetail.tsx:131-148 | A new order offers only served, a served order offers only paid, and a paid order offers nothing |
| ShopDetail.OfferedMovesForward | views/ShopDetail.tsx:131-148 | Every offered transition moves exactly one step forward, and only a paid order offers none |
| ShopDetail.ClickNeverRegresses | views/ShopDetail.tsx:131-148 | When the tab shows the shop's stored orders and ids are unique, a click moves that order one step forward and leaves every other order unchanged, so no status goes back |
| ShopDetail.OrdersTab.Load | views/ShopDetail.tsx:83 | The tab starts with the shop's stored orders |
| ShopDetail.OrdersTab.HandleStatusUpdate | views/ShopDetail.tsx:85-88 | The store sets the status, then the tab's list is reloaded from the store and again shows exactly the shop's orders |
| ShopDetail.OrdersTab.ClickAdvance | views/ShopDetail.tsx:132-147 | Only the transition the card offers is requested; a paid card changes nothing |

## Left out

- JSON serialisation and `localStorage` itself. A slot is an abstract `Cell` holding either no text, a parsed value or unparsable text. The browser quota is the `fits` parameter.
- Concurrency between tabs or devices: last-write-wins races are not modelled.
- The `order-updated` event that `handleSubmit` dispatches: an ambient browser channel.
- JSX rendering, styling, tab switching and the category filter `filteredItems`/`activeCategory` (presentation only).
- `views/Home.tsx` and `components/Sidebar.tsx` are not part of this model. Their one rule, a trimmed non-empty shop name, is the precondition of `DataService.Store.AddShop`.
- `App.tsx` routing is not part of this model. Route parameters are the constants of each page class.
- `services/geminiService.ts` is a foreign call. Its recognised menu is a parameter of `HandleFileUpload`, and its fallback result is `MenuView.FallbackMenu`.
- `FileReader` and the data-URL split in `handleFileUpload`: browser I/O whose only output is the recogniser's input.
- The recogniser's asynchrony: an upload is modelled as one step, without the interval in which `isParsing` is shown.
- QR rendering. The link at views/MenuView.tsx:82 has no token segment, while the route at App.tsx:13 expects one. No link builder with a token is modelled, because the source has none.
- `crypto.randomUUID`, `Date.now`, `new Date().toISOString()`, `toLocaleTimeString` and `navigator.userAgent` are parameters. The conversion from clock to ISO text is not modelled.
- `btoa` throws on characters above U+00FF. That case is a precondition of `Crypto.GenerateTableHash` and `Crypto.ValidateHash`.
- Prices and quantities are unbounded integers rather than JavaScript floating-point numbers.
- `ReservationStatus` value 已取消 (cancelled) is defined in `Types` but no operation assigns it, just as in the source.
- Behaviour of the source that the model keeps as it is, though it may surprise a reader:
  - the token date is the UTC date, because `toISOString` is in UTC (utils/crypto.ts:8);
  - empty pieces of the table list become tables with an empty number (views/MenuView.tsx:56, `MenuView.EmptyPieceKept`);
  - `dataService` calls `JSON.parse` without a guard, so an unparsable slot raises instead of falling back to a default (services/dataService.ts:25);
  - a token need not change with the day (`Crypto.LongTableNumberIgnoresDate`).
- StorageService.Storage: one class value type `T` per store. Keys holding values of different types in one `localStorage` are not modelled.
- ShopDetail.OrdersTab.Load: the tab's state initialiser runs during render and throws on an unreadable slot. Here it is a separate call that returns the failure.
