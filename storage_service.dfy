/**
 * `storageService`: a generic key–value store over `localStorage` whose reads
 * fall back to a default instead of throwing and whose writes swallow the
 * browser's refusal to store.
 */
module StorageService {
  import opened Basics
  import opened Keyed

  /** What `get(key, defaultValue)` yields in a given state of the store. */
  function Lookup<T>(cells: map<string, Cell<T>>, key: string, defaultValue: T): (v: T)
    ensures key !in cells ==> v == defaultValue
    ensures key in cells && !cells[key].Json? ==> v == defaultValue
    ensures key in cells && cells[key].Json? ==> v == cells[key].value
  {
    if key in cells && cells[key].Json? then cells[key].value else defaultValue
  }

  /** The state after `saveToCollection(key, item)` has stored its collection. */
  function Saved<R>(cells: map<string, Cell<seq<R>>>, key: string, item: R, id: R -> string): (r: map<string, Cell<seq<R>>>)
    ensures r.Keys == cells.Keys + {key}
    ensures r[key].Json? && item in r[key].value
    ensures forall other :: other in cells && other != key ==> r[other] == cells[other]
  {
    cells[key := Json(Upsert(Lookup(cells, key, []), item, id))]
  }

  /** The store: the text under each key, seen through `JSON.parse`. */
  class Storage<T> {
    var cells: map<string, Cell<T>>

    /** An empty `localStorage`. */
    constructor ()
      ensures cells == map[]
    {
      cells := map[];
    }

    /**
     * `get`: the stored value, or `defaultValue` when the key is absent, its
     * text is empty, or its text does not parse. It never throws.
     */
    method Get(key: string, defaultValue: T) returns (v: T)
      ensures key !in cells ==> v == defaultValue
      ensures key in cells && (cells[key].Empty? || cells[key].Garbled?) ==> v == defaultValue
      ensures key in cells && cells[key].Json? ==> v == cells[key].value
      ensures v == Lookup(cells, key, defaultValue)
    {
      if key in cells {
        match cells[key]
        case Json(x) => v := x;
        case Empty => v := defaultValue;
        case Garbled => v := defaultValue;
      } else {
        v := defaultValue;
      }
    }

    /**
     * `set`: stores `value` under `key`. `fits` is whether the browser accepts
     * the text; when it does not, the error is logged and nothing changes.
     */
    method Set(key: string, value: T, fits: bool)
      modifies this
      ensures cells == if fits then old(cells)[key := Json(value)] else old(cells)
    {
      if fits {
        cells := cells[key := Json(value)];
      }
    }

    /** `remove`: deletes this key and no other. */
    method Remove(key: string)
      modifies this
      ensures cells == old(cells) - {key}
    {
      cells := cells - {key};
    }

    /** `clearAll`: deletes every key. */
    method ClearAll()
      modifies this
      ensures cells == map[]
    {
      cells := map[];
    }
  }

  /** `getCollection`: `get(key, [])`, so a missing or unreadable collection is empty. */
  method GetCollection<R>(st: Storage<seq<R>>, key: string) returns (c: seq<R>)
    ensures key !in st.cells ==> c == []
    ensures key in st.cells && !st.cells[key].Json? ==> c == []
    ensures c == Lookup(st.cells, key, [])
  {
    c := st.Get(key, []);
  }

  /**
   * `saveToCollection`: reads the collection, replaces the record with the
   * same `id` or appends the new one, and writes the whole collection back.
   */
  method SaveToCollection<R>(st: Storage<seq<R>>, key: string, item: R, id: R -> string, fits: bool)
    modifies st
    ensures st.cells == if fits then Saved(old(st.cells), key, item, id) else old(st.cells)
  {
    var collection := GetCollection(st, key);
    var index := FirstIndex(collection, id, id(item));
    UpsertAt(collection, item, id);
    if index > -1 {
      collection := collection[index := item];
    } else {
      collection := collection + [item];
    }
    st.Set(key, collection, fits);
  }

  /** `set` followed by `get` on the same key gives back the stored value. */
  lemma SetThenGet<T>(cells: map<string, Cell<T>>, key: string, value: T, defaultValue: T)
    ensures Lookup(cells[key := Json(value)], key, defaultValue) == value
  {
  }

  /** `set`, `remove` and `saveToCollection` on one key leave every other key as it was. */
  lemma OtherKeysUntouched<R>(cells: map<string, Cell<seq<R>>>, key: string, other: string, item: R, id: R -> string, value: seq<R>)
    requires other != key
    ensures Lookup(cells[key := Json(value)], other, []) == Lookup(cells, other, [])
    ensures Lookup(cells - {key}, other, []) == Lookup(cells, other, [])
    ensures Lookup(Saved(cells, key, item, id), other, []) == Lookup(cells, other, [])
  {
  }

  /** Saving the same record twice leaves the store as saving it once does. */
  lemma SaveTwiceIsSaveOnce<R>(cells: map<string, Cell<seq<R>>>, key: string, item: R, id: R -> string)
    ensures Saved(Saved(cells, key, item, id), key, item, id) == Saved(cells, key, item, id)
  {
    UpsertIdempotent(Lookup(cells, key, []), item, id);
  }

  /**
   * The saved collection: with the id present the length stays and that
   * position now holds the record; otherwise the record is appended; every
   * record with another id is unchanged and in order.
   */
  lemma SavedCollection<R>(cells: map<string, Cell<seq<R>>>, key: string, item: R, id: R -> string)
    ensures var before := Lookup(cells, key, []);
            var after := Lookup(Saved(cells, key, item, id), key, []);
            && (HasKey(before, id, id(item)) ==>
                  |after| == |before| && after[FirstIndex(before, id, id(item))] == item)
            && (!HasKey(before, id, id(item)) ==> after == before + [item])
            && Except(after, id, id(item)) == Except(before, id, id(item))
  {
    var before := Lookup(cells, key, []);
    UpsertAt(before, item, id);
    UpsertKeepsOthers(before, item, id);
  }
}


