/** The recipe board: the module state of the page script (the current
    view, the favourite ids, the search timer) gathered into one object,
    with one method per handler that updates it. Every handler except the
    keystroke handler ends by rendering, which here means recomputing the
    cards and the counter. */
module Board {
  import opened Options
  import opened Lists
  import opened Recipes
  import opened Favorites
  import opened Counter
  import opened Debounce

  /** A rendered recipe card, reduced to its recipe and whether its heart
      button carries the "active" mark. */
  datatype Card = Card(recipe: Recipe, favorite: bool)

  function Cards(view: seq<Recipe>, favorites: seq<int>): seq<Card>
  {
    seq(|view|, i requires 0 <= i < |view| => Card(view[i], view[i].id in favorites))
  }

  /** A fresh array holding `s`, as `[...s]` and `filter` produce. */
  method ToArray(s: seq<Recipe>) returns (a: array<Recipe>)
    ensures fresh(a) && a[..] == s
  {
    a := new Recipe[|s|](i requires 0 <= i < |s| => s[i]);
  }

  /** The comparator `(a, b) => a.time - b.time`, read as "a may precede b",
      orders recipes consistently. */
  lemma ByTimeOrders(le: (Recipe, Recipe) -> bool)
    requires forall a, b :: le(a, b) == (a.time <= b.time)
    ensures TotalPreorder(le)
  {
  }

  /** Comparing recipes by title inherits a consistent title collation. */
  lemma ByTitleOrders(titleLe: (string, string) -> bool, le: (Recipe, Recipe) -> bool)
    requires TotalPreorder(titleLe)
    requires forall a, b :: le(a, b) == titleLe(a.title, b.title)
    ensures TotalPreorder(le)
  {
  }

  class RecipeBoard {
    /** The fixed list (`recipes`). */
    const recipes: seq<Recipe>
    /** The view (`currentRecipes`); sorting works on it in place. */
    var current: array<Recipe>
    /** The favourite ids (`favorites`). */
    var favorites: seq<int>
    /** What storage holds under "favorites". */
    var stored: StoredItem
    /** What the last render showed: the cards and the counter label. */
    var cards: seq<Card>
    var counter: string
    /** The search bar's text and the debounce timer (`searchTimeout`). */
    var search: SearchInput

    /** The fixed list holds no recipe twice; the view only ever holds
        recipes of the fixed list, each at most as often as the list does; reloading storage would restore the
        favourites; the screen shows the view with up-to-date hearts and
        its length of the list's length; at most the newest search timer
        is pending. */
    ghost predicate Valid()
      reads this, current
    {
      Distinct(recipes) &&
      multiset(current[..]) <= multiset(recipes) &&
      Load(stored) == Some(favorites) &&
      cards == Cards(current[..], favorites) &&
      counter == CounterText(current.Length, |recipes|) &&
      WellFormed(search)
    }

    /** Startup: read the favourites from storage, show the full list. The
        read throws on stored text that is not JSON, so nothing starts then. */
    constructor (item: StoredItem)
      requires Load(item).Some?
      ensures Valid() && fresh(current)
      ensures recipes == Catalog && current[..] == Catalog
      ensures favorites == Load(item).value && stored == item
      ensures search == Initial()
    {
      recipes := Catalog;
      current := new Recipe[0];
      favorites := Load(item).value;
      stored := item;
      search := Initial();
      new;
      CatalogUniqueIds();
      current := ToArray(recipes);
      assert current[..] == recipes;
      Render(current[..]);
      // Valid(), conjunct by conjunct, with the literal list in scope
      assert Distinct(recipes);
      assert multiset(current[..]) <= multiset(recipes);
      assert Load(stored) == Some(favorites);
      assert cards == Cards(current[..], favorites);
      assert counter == CounterText(current.Length, |recipes|);
      assert WellFormed(search);
    }

    /** `renderRecipes(list)`: cards for `list`, counter "list of all". */
    method Render(list: seq<Recipe>)
      modifies this`cards, this`counter
      ensures cards == Cards(list, favorites)
      ensures counter == CounterText(|list|, |recipes|)
    {
      cards := Cards(list, favorites);
      counter := CounterText(|list|, |recipes|);
    }

    /** `filterRecipes(key)`: the view becomes a new array holding the
        selection from the full list, whatever the view was before, so an
        earlier sort is lost. */
    method FilterRecipes(key: string)
      requires Valid()
      modifies this
      ensures Valid() && fresh(current)
      ensures current[..] == Select(recipes, favorites, key)
      ensures favorites == old(favorites) && stored == old(stored)
      ensures search == old(search)
    {
      var view := Select(recipes, favorites, key);
      SelectWithin(recipes, favorites, key);
      current := ToArray(view);
      Render(current[..]);
    }

    /** `sortRecipes(key)`: "time" and "name" sort the current view in
        place, by minutes and by title under the collation `titleLe`; any
        other key leaves it as it is. Either way the view is shown again. */
    method SortRecipes(key: string, titleLe: (string, string) -> bool)
      requires Valid() && TotalPreorder(titleLe)
      modifies this, current
      ensures Valid() && current == old(current)
      ensures multiset(current[..]) == multiset(old(current[..]))
      ensures key == "time" ==> forall i, j | 0 <= i < j < current.Length :: current[i].time <= current[j].time
      ensures key == "name" ==> forall i, j | 0 <= i < j < current.Length :: titleLe(current[i].title, current[j].title)
      ensures key != "time" && key != "name" ==> current[..] == old(current[..])
      ensures favorites == old(favorites) && stored == old(stored)
      ensures search == old(search)
    {
      if key == "name" {
        var le := (a: Recipe, b: Recipe) => titleLe(a.title, b.title);
        ByTitleOrders(titleLe, le);
        SortInPlace(current, le);
      } else if key == "time" {
        var le := (a: Recipe, b: Recipe) => a.time <= b.time;
        ByTimeOrders(le);
        SortInPlace(current, le);
      }
      Render(current[..]);
    }

    /** The heart button of recipe `id`: toggle the id, save the whole
        list, show the same view again with its hearts brought up to date. */
    method ToggleFavorite(id: int)
      requires Valid()
      modifies this
      ensures Valid()
      ensures favorites == Toggle(old(favorites), id) && stored == Save(favorites)
      ensures current == old(current) && current[..] == old(current[..])
      ensures search == old(search)
    {
      favorites := Toggle(favorites, id);
      stored := Save(favorites);
      Render(current[..]);
    }

    /** A keystroke in the search bar leaving `text` there: clear the
        pending timer, schedule a new one. The view is not touched. */
    method OnSearchInput(text: string)
      requires Valid()
      modifies this
      ensures Valid()
      ensures search == Input(old(search), text)
      ensures current == old(current) && favorites == old(favorites) && stored == old(stored)
      ensures cards == old(cards) && counter == old(counter)
    {
      search := Input(search, text);
    }

    /** Search timer `h` fires: the view becomes the search result for the
        text the bar holds now, taken from the full list. */
    method OnSearchTimer(h: nat)
      requires Valid() && h in search.pending
      modifies this
      ensures Valid() && fresh(current)
      ensures search == Fire(old(search), h)
      ensures current[..] == Search(recipes, search.text)
      ensures favorites == old(favorites) && stored == old(stored)
    {
      search := Fire(search, h);
      var view := Search(recipes, search.text);
      SearchWithin(recipes, search.text);
      current := ToArray(view);
      Render(current[..]);
    }

    /** The counter never shows more than the total, and the view never
        holds a recipe twice. */
    lemma ViewBounds()
      requires Valid()
      ensures current.Length <= |recipes|
      ensures Distinct(current[..])
    {
      SubMultisetBounds(current[..], recipes);
    }
  }

  /** Marking recipe 2 and filtering by favourites shows only recipe 2;
      un-marking it again leaves its card on screen with the heart cleared,
      because the toggle re-renders the view without filtering again. */
  method FavoritesSession()
  {
    var board := new RecipeBoard(Missing);
    board.ToggleFavorite(2);
    assert board.favorites == [2];
    board.FilterRecipes("favorites");
    CatalogFavorites();
    assert board.current[..] == [Catalog[1]];
    board.ToggleFavorite(2);
    assert board.current[..] == [Catalog[1]] && 2 !in board.favorites;
  }

  /** Sorting and then filtering does not compose: the filter starts again
      from the full list and the sort is lost. */
  method SortFilterSession()
  {
    var sameTitle := (x: string, y: string) => true;
    var board := new RecipeBoard(Missing);
    board.SortRecipes("time", sameTitle);
    board.FilterRecipes("all");
    AllIsNoKey();
    SelectExactly(board.recipes, board.favorites, "all");
    assert board.current[..] == Catalog;
  }

  /** Three quick keystrokes leave one pending search, which runs on the
      text of the last one. */
  method TypingSession()
  {
    var board := new RecipeBoard(Missing);
    board.OnSearchInput("pa");
    board.OnSearchInput("past");
    board.OnSearchInput("pasta");
    assert board.search.pending == {2};
    board.OnSearchTimer(2);
    assert board.search.pending == {};
    assert board.current[..] == Search(Catalog, "pasta");
  }
}
