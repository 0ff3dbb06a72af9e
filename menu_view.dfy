/**
 * `MenuView`: the owner's menu page. It imports a menu from a photo (the
 * recognised menu is a parameter), lets the owner delete dishes, and
 * publishes the menu together with the shop's list of table numbers.
 */
module MenuView {
  import opened Basics
  import opened Keyed
  import opened Types
  import Text
  import DataService

  /** The brand name an import falls back to, and the shop name passed to the recogniser. */
  const DefaultBrand: string := "我的店鋪"

  /** The table-list field's initial text. */
  const DefaultTables: string := "A1, A2, A3, B1, B2"

  /** `Partial<ShopMenu>` as the recogniser returns it: each part may be missing. */
  datatype ParsedMenu = ParsedMenu(
    brandName: Option<string>,
    categories: Option<seq<string>>,
    items: Option<seq<MenuItem>>)

  /** `parsed.items || []`. */
  function ParsedItems(parsed: ParsedMenu): seq<MenuItem> {
    if parsed.items.Some? then parsed.items.value else []
  }

  /**
   * What `parseMenuFromImage` returns when the recogniser fails: a two-dish
   * sample menu under the given shop name.
   */
  function FallbackMenu(shopName: string): ParsedMenu {
    ParsedMenu(
      Some(shopName),
      Some(["主食", "飲品"]),
      Some([MenuItem("1", "模擬牛肉麵", 150, None, "主食"),
            MenuItem("2", "模擬珍珠奶茶", 60, None, "飲品")]))
  }

  /**
   * The draft `newMenu` an import builds: unpublished, for this shop, with a
   * missing or empty brand name replaced by the default, missing categories
   * replaced by none, and every dish given a new id in place of any it had.
   */
  function Draft(parsed: ParsedMenu, shopId: string, menuId: string, itemIds: seq<string>): (m: ShopMenu)
    requires |itemIds| == |ParsedItems(parsed)|
    ensures m.id == menuId && m.shopId == shopId && !m.isPublished
    ensures parsed.brandName.Some? && parsed.brandName.value != "" ==> m.brandName == parsed.brandName.value
    ensures parsed.brandName.None? || parsed.brandName.value == "" ==> m.brandName == DefaultBrand
    ensures parsed.categories.Some? ==> m.categories == parsed.categories.value
    ensures parsed.categories.None? ==> m.categories == []
    ensures |m.items| == |ParsedItems(parsed)|
    ensures forall i :: 0 <= i < |m.items| ==>
              m.items[i] == ParsedItems(parsed)[i].(id := itemIds[i])
  {
    var items := ParsedItems(parsed);
    ShopMenu(
      menuId,
      shopId,
      if parsed.brandName.Some? && parsed.brandName.value != "" then parsed.brandName.value else DefaultBrand,
      if parsed.categories.Some? then parsed.categories.value else [],
      seq(|items|, i requires 0 <= i < |items| => items[i].(id := itemIds[i])),
      false)
  }

  /** With distinct new ids, the draft's dishes have distinct ids whatever the recogniser returned. */
  lemma DraftItemIdsUnique(parsed: ParsedMenu, shopId: string, menuId: string, itemIds: seq<string>)
    requires |itemIds| == |ParsedItems(parsed)|
    requires forall i, j :: 0 <= i < j < |itemIds| ==> itemIds[i] != itemIds[j]
    ensures UniqueKeys(Draft(parsed, shopId, menuId, itemIds).items, ItemId)
  {
  }

  /** The fallback import: the default brand, two categories and the two sample dishes under new ids. */
  lemma FallbackDraft(shopId: string, menuId: string, itemIds: seq<string>)
    requires |itemIds| == 2
    ensures var m := Draft(FallbackMenu(DefaultBrand), shopId, menuId, itemIds);
            && m.brandName == DefaultBrand
            && m.categories == ["主食", "飲品"]
            && m.items == [MenuItem(itemIds[0], "模擬牛肉麵", 150, None, "主食"),
                           MenuItem(itemIds[1], "模擬珍珠奶茶", 60, None, "飲品")]
  {
    var m := Draft(FallbackMenu(DefaultBrand), shopId, menuId, itemIds);
    assert m.items[0] == MenuItem(itemIds[0], "模擬牛肉麵", 150, None, "主食");
    assert m.items[1] == MenuItem(itemIds[1], "模擬珍珠奶茶", 60, None, "飲品");
  }

  /** `{ ...menu, isPublished: true }`. */
  function Published(m: ShopMenu): (p: ShopMenu)
    ensures p.isPublished
    ensures p.(isPublished := m.isPublished) == m
  {
    m.(isPublished := true)
  }

  /** `{ ...menu, items: menu.items.filter(it => it.id !== id) }`. */
  function WithoutItem(m: ShopMenu, id: string): (d: ShopMenu)
    ensures d.(items := m.items) == m
    ensures d.items == Except(m.items, ItemId, id)
  {
    m.(items := Except(m.items, ItemId, id))
  }

  /**
   * Deleting keeps every other dish, in order, and no dish with that id is
   * left; deleting twice is deleting once; an unknown id changes nothing.
   */
  lemma WithoutItemProperties(m: ShopMenu, id: string)
    ensures forall i :: 0 <= i < |WithoutItem(m, id).items| ==> WithoutItem(m, id).items[i].id != id
    ensures forall i :: 0 <= i < |m.items| && m.items[i].id != id ==> m.items[i] in WithoutItem(m, id).items
    ensures WithoutItem(WithoutItem(m, id), id) == WithoutItem(m, id)
    ensures !HasKey(m.items, ItemId, id) ==> WithoutItem(m, id) == m
  {
    ExceptIdempotent(m.items, ItemId, id);
    if !HasKey(m.items, ItemId, id) {
      ExceptAbsent(m.items, ItemId, id);
    }
  }

  /** `tableInput.split(',').map(s => s.trim())`: empty pieces are kept. */
  function ParseTables(input: string): (nos: seq<string>)
    ensures |nos| == |Text.Split(input, ',')|
    ensures forall i :: 0 <= i < |nos| ==> nos[i] == Text.Trim(Text.Split(input, ',')[i])
  {
    Text.TrimAll(Text.Split(input, ','))
  }

  /**
   * One table number per comma-separated piece, each without commas and
   * without surrounding white space.
   */
  lemma ParseTablesShape(input: string)
    ensures |ParseTables(input)| == Text.Occurrences(input, ',') + 1
    ensures forall k, i :: 0 <= k < |ParseTables(input)| && 0 <= i < |ParseTables(input)[k]| ==>
              ParseTables(input)[k][i] != ','
    ensures forall k :: 0 <= k < |ParseTables(input)| ==> Text.Trim(ParseTables(input)[k]) == ParseTables(input)[k]
  {
    Text.SplitCount(input, ',');
    Text.SplitPiecesLackSeparator(input, ',');
    var pieces := Text.Split(input, ',');
    forall k | 0 <= k < |pieces|
      ensures forall i :: 0 <= i < |ParseTables(input)[k]| ==> ParseTables(input)[k][i] != ','
      ensures Text.Trim(ParseTables(input)[k]) == ParseTables(input)[k]
    {
      Text.TrimKeepsAbsent(pieces[k], ',');
      Text.TrimIdempotent(pieces[k]);
    }
  }

  /** Neither end is white space. */
  predicate Plain(s: string) {
    s != [] && !Text.IsWhitespace(s[0]) && !Text.IsWhitespace(s[|s| - 1])
  }

  /** A piece of the table list that is a table number, possibly after one space, or empty. */
  predicate TrimsTo(piece: string, no: string) {
    (Plain(no) && (piece == no || piece == [' '] + no)) || (piece == "" && no == "")
  }

  lemma TrimPiece(piece: string, no: string)
    requires TrimsTo(piece, no)
    ensures Text.Trim(piece) == no
  {
    if piece != "" && piece != no {
      assert piece[1..] == no;
    }
  }

  /** Trimming such pieces gives the table numbers. */
  lemma TrimPieces(input: string, pieces: seq<string>, nos: seq<string>)
    requires Text.Split(input, ',') == pieces
    requires |pieces| == |nos|
    requires forall i :: 0 <= i < |pieces| ==> TrimsTo(pieces[i], nos[i])
    ensures ParseTables(input) == nos
  {
    var r := ParseTables(input);
    forall i | 0 <= i < |r| ensures r[i] == nos[i] {
      TrimPiece(pieces[i], nos[i]);
    }
  }

  /** The initial text has five comma-separated pieces. */
  lemma SplitDefaultTables()
    ensures Text.Split(DefaultTables, ',') == ["A1", " A2", " A3", " B1", " B2"]
  {
    var pieces := ["A1", " A2", " A3", " B1", " B2"];
    assert Text.Join(pieces, ',') == DefaultTables;
    Text.SplitJoin(pieces, ',');
  }

  /** Each of those pieces is a table number after at most one space. */
  lemma DefaultPieces(pieces: seq<string>, nos: seq<string>)
    requires pieces == ["A1", " A2", " A3", " B1", " B2"] && nos == ["A1", "A2", "A3", "B1", "B2"]
    ensures forall i :: 0 <= i < |pieces| ==> TrimsTo(pieces[i], nos[i])
  {
    assert TrimsTo(pieces[0], nos[0]);
    assert TrimsTo(pieces[1], nos[1]) by { assert pieces[1] == [' '] + nos[1]; }
    assert TrimsTo(pieces[2], nos[2]) by { assert pieces[2] == [' '] + nos[2]; }
    assert TrimsTo(pieces[3], nos[3]) by { assert pieces[3] == [' '] + nos[3]; }
    assert TrimsTo(pieces[4], nos[4]) by { assert pieces[4] == [' '] + nos[4]; }
  }

  /** The initial text gives the five tables A1, A2, A3, B1 and B2. */
  lemma DefaultTablesParse()
    ensures ParseTables(DefaultTables) == ["A1", "A2", "A3", "B1", "B2"]
  {
    SplitDefaultTables();
    DefaultPieces(["A1", " A2", " A3", " B1", " B2"], ["A1", "A2", "A3", "B1", "B2"]);
    TrimPieces(DefaultTables, ["A1", " A2", " A3", " B1", " B2"], ["A1", "A2", "A3", "B1", "B2"]);
  }

  lemma SplitWithEmptyPiece()
    ensures Text.Split("A1,,B2", ',') == ["A1", "", "B2"]
  {
    var pieces := ["A1", "", "B2"];
    assert Text.Join(pieces, ',') == "A1,,B2";
    Text.SplitJoin(pieces, ',');
  }

  /** An empty piece stays in the list as an empty table number. */
  lemma EmptyPieceKept()
    ensures ParseTables("A1,,B2") == ["A1", "", "B2"]
  {
    SplitWithEmptyPiece();
    var pieces := ["A1", "", "B2"];
    assert TrimsTo(pieces[0], pieces[0]) && TrimsTo(pieces[1], pieces[1]) && TrimsTo(pieces[2], pieces[2]);
    TrimPieces("A1,,B2", pieces, pieces);
  }

  /** 1: import, 2: edit, 3: published. */
  function InitialStep(existing: Option<ShopMenu>): (step: int)
    ensures step == 1 <==> existing.None?
    ensures step == 2 <==> existing.Some? && !existing.value.isPublished
    ensures step == 3 <==> existing.Some? && existing.value.isPublished
  {
    match existing
    case None => 1
    case Some(m) => if m.isPublished then 3 else 2
  }

  /**
   * A menu is in the editing step after an import and in the published step
   * after publishing, and deleting a dish keeps the step it is in.
   */
  lemma StepsAfterHandlers(parsed: ParsedMenu, shopId: string, menuId: string, itemIds: seq<string>,
                           m: ShopMenu, itemId: string)
    requires |itemIds| == |ParsedItems(parsed)|
    ensures InitialStep(Some(Draft(parsed, shopId, menuId, itemIds))) == 2
    ensures InitialStep(Some(Published(m))) == 3
    ensures InitialStep(Some(WithoutItem(m, itemId))) == InitialStep(Some(m))
  {
  }

  /** The page's state for one shop. */
  class MenuPage {
    const shopId: string
    var menu: Option<ShopMenu>
    var step: int
    var isParsing: bool
    var tableInput: string

    constructor (shopId: string)
      ensures this.shopId == shopId
      ensures menu == None && step == 1 && !isParsing && tableInput == DefaultTables
    {
      this.shopId := shopId;
      menu := None;
      step := 1;
      isParsing := false;
      tableInput := DefaultTables;
    }

    /** The effect: a stored menu for the shop is shown, in the step its publication state calls for. */
    method Load(ds: DataService.Store) returns (r: Result<()>)
      modifies this`menu, this`step
      ensures match ds.MenuByShopId(shopId)
              case Err(f) => r == Err(f) && menu == old(menu) && step == old(step)
              case Ok(None) => r == Ok(()) && menu == old(menu) && step == old(step)
              case Ok(Some(m)) => r == Ok(()) && menu == Some(m) && step == InitialStep(Some(m))
    {
      var existing := ds.MenuByShopId(shopId);
      match existing
      case Err(f) => r := Err(f);
      case Ok(None) => r := Ok(());
      case Ok(Some(m)) =>
        menu := Some(m);
        step := if m.isPublished then 3 else 2;
        r := Ok(());
    }

    /** The table-list field. */
    method EditTables(text: string)
      modifies this`tableInput
      ensures tableInput == text
    {
      tableInput := text;
    }

    /**
     * `handleFileUpload`: with no file chosen nothing happens. Otherwise the
     * draft built from the recognised menu is shown and saved by shop id,
     * replacing any menu the shop had, and the page moves to the editing
     * step. When the store throws, the draft is shown but the page stays
     * in its step, still parsing.
     */
    method HandleFileUpload(ds: DataService.Store, file: Option<ParsedMenu>, menuId: string, itemIds: seq<string>, fits: bool)
      returns (r: Result<()>)
      requires file.Some? ==> |itemIds| == |ParsedItems(file.value)|
      modifies this`menu, this`step, this`isParsing, ds`menus
      ensures file.None? ==>
                r == Ok(()) && unchanged(this) && ds.menus == old(ds.menus)
      ensures file.Some? ==>
                var draft := Draft(file.value, shopId, menuId, itemIds);
                && menu == Some(draft)
                && (old(ds.menus).Garbled? ==>
                      r == Err(Unparsable) && ds.menus == old(ds.menus) && isParsing && step == old(step))
                && (!old(ds.menus).Garbled? && !fits ==>
                      r == Err(QuotaExceeded) && ds.menus == old(ds.menus) && isParsing && step == old(step))
                && (!old(ds.menus).Garbled? && fits ==>
                      && r == Ok(()) && !isParsing && step == 2
                      && ds.menus == Json(Upsert(ParseList(old(ds.menus)).value, draft, MenuShop))
                      && ds.MenuByShopId(shopId) == Ok(Some(draft)))
      ensures old(ds.Valid()) ==> ds.Valid()
    {
      if file.None? {
        return Ok(());
      }
      isParsing := true;
      var newMenu := Draft(file.value, shopId, menuId, itemIds);
      menu := Some(newMenu);
      r := ds.SaveMenu(newMenu, fits);
      if r.Err? {
        return;
      }
      UpsertThenFind(ParseList(old(ds.menus)).value, newMenu, MenuShop);
      isParsing := false;
      step := 2;
    }

    /**
     * `handlePublish`: without a menu nothing happens. Otherwise the menu is
     * marked published and saved, the shop's tables are replaced by the
     * parsed table list, and the page moves to the published step. A write
     * that throws stops the handler where it is.
     */
    method HandlePublish(ds: DataService.Store, tableIds: seq<string>, menuFits: bool, tablesFit: bool)
      returns (r: Result<()>)
      requires |tableIds| == |ParseTables(tableInput)|
      requires forall i, j :: 0 <= i < j < |tableIds| ==> tableIds[i] != tableIds[j]
      requires ds.tables.Json? ==> forall i :: 0 <= i < |tableIds| ==> !HasKey(ds.tables.value, TableId, tableIds[i])
      modifies this`menu, this`step, ds`menus, ds`tables
      ensures old(menu).None? ==>
                r == Ok(()) && menu == old(menu) && step == old(step)
                && ds.menus == old(ds.menus) && ds.tables == old(ds.tables)
      ensures old(menu).Some? ==>
                var published := Published(old(menu).value);
                var menuSaved := !old(ds.menus).Garbled? && menuFits;
                var tablesSaved := !old(ds.tables).Garbled? && tablesFit;
                && menu == Some(published)
                && (menuSaved ==> ds.menus == Json(Upsert(ParseList(old(ds.menus)).value, published, MenuShop)))
                && (!menuSaved ==> ds.menus == old(ds.menus) && ds.tables == old(ds.tables)
                                   && r.Err? && step == old(step))
                && (menuSaved && tablesSaved ==>
                      && ds.tables == Json(DataService.ReplaceTables(ParseList(old(ds.tables)).value, shopId,
                                                                     ParseTables(tableInput), tableIds))
                      && r == Ok(()) && step == 3)
                && (menuSaved && !tablesSaved ==> ds.tables == old(ds.tables) && r.Err? && step == old(step))
      ensures old(ds.Valid()) ==> ds.Valid()
    {
      if menu.None? {
        return Ok(());
      }
      var publishedMenu := Published(menu.value);
      menu := Some(publishedMenu);
      r := ds.SaveMenu(publishedMenu, menuFits);
      if r.Err? {
        return;
      }
      r := ds.SaveTables(shopId, ParseTables(tableInput), tableIds, tablesFit);
      if r.Err? {
        return;
      }
      step := 3;
    }

    /**
     * `handleDeleteItem`: without a menu nothing happens; otherwise the dish
     * is removed from the shown menu and the menu is saved.
     */
    method HandleDeleteItem(ds: DataService.Store, id: string, fits: bool) returns (r: Result<()>)
      modifies this`menu, ds`menus
      ensures old(menu).None? ==> r == Ok(()) && menu == old(menu) && ds.menus == old(ds.menus)
      ensures old(menu).Some? ==>
                var updated := WithoutItem(old(menu).value, id);
                && menu == Some(updated)
                && (old(ds.menus).Garbled? ==> r == Err(Unparsable) && ds.menus == old(ds.menus))
                && (!old(ds.menus).Garbled? && !fits ==> r == Err(QuotaExceeded) && ds.menus == old(ds.menus))
                && (!old(ds.menus).Garbled? && fits ==>
                      r == Ok(()) && ds.menus == Json(Upsert(ParseList(old(ds.menus)).value, updated, MenuShop)))
      ensures old(ds.Valid()) ==> ds.Valid()
    {
      if menu.None? {
        return Ok(());
      }
      var updated := WithoutItem(menu.value, id);
      menu := Some(updated);
      r := ds.SaveMenu(updated, fits);
    }
  }
}
