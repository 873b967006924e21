/** The favourite ids: the click handler that toggles one, and the value
    kept in browser storage under the key "favorites". */
module Favorites {
  import opened Lists
  import opened Options

  /** The favourite button's click on recipe `id`: an id already in the
      list is removed (every copy of it), any other id is appended. */
  function Toggle(favorites: seq<int>, id: int): (r: seq<int>)
    ensures id in r <==> id !in favorites
    ensures forall x | x != id :: x in r <==> x in favorites
  {
    if id in favorites then Filter(favorites, (f: int) => f != id) else favorites + [id]
  }

  /** A duplicate-free list stays duplicate-free. */
  lemma ToggleKeepsDistinct(favorites: seq<int>, id: int)
    requires Distinct(favorites)
    ensures Distinct(Toggle(favorites, id))
  {
    if id in favorites {
      FilterKeepsDistinct(favorites, (f: int) => f != id);
    } else {
      AppendFreshKeepsDistinct(favorites, id);
    }
  }

  /** Toggling the same id twice gives back the same set of ids. */
  lemma ToggleTwiceSameIds(favorites: seq<int>, id: int)
    ensures forall x :: x in Toggle(Toggle(favorites, id), id) <==> x in favorites
  {
  }

  /** Toggling an id that was not a favourite, and then toggling it back,
      restores the list exactly. */
  lemma ToggleTwiceRestores(favorites: seq<int>, id: int)
    requires id !in favorites
    ensures Toggle(Toggle(favorites, id), id) == favorites
  {
    var p := (f: int) => f != id;
    FilterAppend(favorites, [id], p);
    FilterKeepsAll(favorites, p);
    assert Filter([id], p) == [];
  }

  /** Un-toggling and re-toggling an id that was not last moves it to the
      end, so the stored list differs although the set of ids is the same. */
  lemma ToggleTwiceMoves()
    ensures Toggle(Toggle([1, 2], 1), 1) == [2, 1]
  {
    var p := (f: int) => f != 1;
    assert Filter([1, 2], p) == Filter([2], p) == [2];
  }

  // ---------------------------------------------------------------------
  // storage

  /** What storage holds under "favorites" when the board starts: nothing,
      a JSON value that is falsy (null, false, 0 or ""), a JSON array of
      ids, or text that is not JSON. */
  datatype StoredItem = Missing | Falsy | IdList(ids: seq<int>) | Malformed

  /** The startup read `JSON.parse(getItem("favorites")) || []`: `None` is
      the exception `JSON.parse` throws on text that is not JSON. */
  function Load(item: StoredItem): Option<seq<int>>
  {
    match item
    case Missing => Some([])
    case Falsy => Some([])
    case IdList(ids) => Some(ids)
    case Malformed => None
  }

  /** What each toggle writes: the whole list, serialized. */
  function Save(favorites: seq<int>): StoredItem
  {
    IdList(favorites)
  }

  /** Whatever a toggle saved reloads as the same list. */
  lemma SaveLoad(favorites: seq<int>)
    ensures Load(Save(favorites)) == Some(favorites)
  {
  }
}
