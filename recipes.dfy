/** The recipe records and the two ways the board recomputes its view from
    the full list: `filterRecipes` (a filter key) and the search callback
    (a free-text query). Both always start from the full list, so the
    result is a subsequence of it whatever the view showed before. */
module Recipes {
  import opened Lists
  import opened Text

  datatype Recipe = Recipe(
    id: int,
    title: string,
    time: int,          // minutes
    difficulty: string, // "easy", "medium" or "hard", possibly padded
    description: string,
    category: string,
    ingredients: seq<string>,
    steps: seq<string>)

  /** The built-in list the board starts from. */
  const Catalog: seq<Recipe> := [
    Recipe(1, "\U{1F35D} Classic Spaghetti Carbonara", 25, "easy",
      "A creamy Italian pasta dish made with eggs, cheese, pancetta, and black pepper.",
      "pasta",
      ["Spaghetti", "Eggs", "Pancetta", "Parmesan", "Black Pepper"],
      ["Boil pasta", "Cook pancetta", "Mix eggs and cheese", "Combine all"]),
    Recipe(2, "\U{1F35B} Chicken Tikka Masala", 45, "medium",
      "Tender chicken pieces in a creamy, spiced tomato sauce.",
      "curry",
      ["Chicken", "Yogurt", "Spices", "Tomatoes", "Cream"],
      ["Marinate chicken", "Grill chicken", "Prepare sauce", "Combine chicken and sauce"]),
    Recipe(3, "\U{1F957} Greek Salad", 15, "easy",
      "Fresh vegetables, feta cheese, and olives tossed in olive oil and herbs.",
      "salad",
      ["Cucumber", "Tomatoes", "Feta", "Olives", "Olive Oil"],
      ["Chop vegetables", "Mix with feta and olives", "Dress with olive oil"])
  ]

  /** Recipes below this many minutes count as quick. */
  const QuickMinutes := 30

  ghost predicate UniqueIds(rs: seq<Recipe>)
  {
    forall i, j | 0 <= i < j < |rs| :: rs[i].id != rs[j].id
  }

  /** Recipes with pairwise different ids are pairwise different. */
  lemma {:induction false} UniqueIdsDistinct(rs: seq<Recipe>)
    requires UniqueIds(rs)
    ensures Distinct(rs)
  {
    if rs != [] {
      var t := rs[1..];
      assert UniqueIds(t) by {
        forall i, j | 0 <= i < j < |t| ensures t[i].id != t[j].id {
          assert t[i] == rs[i + 1] && t[j] == rs[j + 1];
        }
      }
      UniqueIdsDistinct(t);
      assert rs[0] !in t by {
        forall k | 0 <= k < |t| ensures t[k] != rs[0] {
          assert t[k] == rs[k + 1];
        }
      }
      assert rs == [rs[0]] + t;
      assert multiset(rs) == multiset{rs[0]} + multiset(t);
    }
  }

  lemma CatalogUniqueIds()
    ensures UniqueIds(Catalog) && Distinct(Catalog)
  {
    UniqueIdsDistinct(Catalog);
  }

  // ---------------------------------------------------------------------
  // filterRecipes

  /** The keys `filterRecipes` recognises; any other key shows everything. */
  const FilterKeys: set<string> := {"easy", "medium", "hard", "quick", "favorites"}

  /** "all" is not one of them. */
  lemma AllIsNoKey()
    ensures "all" !in FilterKeys
  {
  }

  /** The test `filterRecipes` applies to each recipe for a recognised key. */
  function KeyTest(key: string, favorites: seq<int>): Recipe -> bool
    requires key in FilterKeys
  {
    if key == "quick" then (r: Recipe) => r.time < QuickMinutes
    else if key == "favorites" then (r: Recipe) => r.id in favorites
    else (r: Recipe) => Trim(r.difficulty) == key
  }

  /** The view `filterRecipes(key)` computes from the full list. */
  function Select(recipes: seq<Recipe>, favorites: seq<int>, key: string): seq<Recipe>
  {
    if key in FilterKeys then Filter(recipes, KeyTest(key, favorites)) else recipes
  }

  /** Whether `r` belongs in the view for `key`, stated key by key. */
  ghost predicate Wanted(key: string, favorites: seq<int>, r: Recipe)
  {
    match key
    case "easy" => Trim(r.difficulty) == "easy"
    case "medium" => Trim(r.difficulty) == "medium"
    case "hard" => Trim(r.difficulty) == "hard"
    case "quick" => r.time < 30
    case "favorites" => r.id in favorites
    case _ => true
  }

  lemma KeyTestWanted(key: string, favorites: seq<int>, r: Recipe)
    requires key in FilterKeys
    ensures KeyTest(key, favorites)(r) == Wanted(key, favorites, r)
  {
    if key == "quick" {
    } else if key == "favorites" {
    } else {
      assert key == "easy" || key == "medium" || key == "hard";
    }
  }

  /** The filtered view keeps the full list's order and holds each wanted
      recipe exactly as often as the full list does, and nothing else; an
      unknown key (such as "all") gives the full list itself. */
  lemma SelectExactly(recipes: seq<Recipe>, favorites: seq<int>, key: string)
    ensures IsSubsequence(Select(recipes, favorites, key), recipes)
    ensures forall r :: multiset(Select(recipes, favorites, key))[r] ==
                        (if Wanted(key, favorites, r) then multiset(recipes)[r] else 0)
    ensures key !in FilterKeys ==> Select(recipes, favorites, key) == recipes
  {
    var v := Select(recipes, favorites, key);
    if key in FilterKeys {
      var p := KeyTest(key, favorites);
      FilterIsSubsequence(recipes, p);
      forall r ensures multiset(v)[r] == if Wanted(key, favorites, r) then multiset(recipes)[r] else 0 {
        FilterMultiplicity(recipes, p, r);
        KeyTestWanted(key, favorites, r);
      }
    } else {
      SubsequenceRefl(recipes);
    }
  }

  lemma {:induction false} SubsequenceRefl<T>(s: seq<T>)
    ensures IsSubsequence(s, s)
  {
    if s != [] {
      SubsequenceRefl(s[1..]);
    }
  }

  /** On a list without repeats, the filtered view has none either. */
  lemma SelectDistinct(recipes: seq<Recipe>, favorites: seq<int>, key: string)
    requires Distinct(recipes)
    ensures Distinct(Select(recipes, favorites, key))
  {
    SelectExactly(recipes, favorites, key);
    var v := Select(recipes, favorites, key);
    forall r | r in v ensures multiset(v)[r] == 1 {
      assert multiset(v)[r] > 0;
    }
  }

  /** The filtered view draws only on the full list. */
  lemma SelectWithin(recipes: seq<Recipe>, favorites: seq<int>, key: string)
    ensures multiset(Select(recipes, favorites, key)) <= multiset(recipes)
  {
    SelectExactly(recipes, favorites, key);
  }

  // ---------------------------------------------------------------------
  // search

  /** Whether the lowered query occurs in some lowered ingredient
      (`ingredients.some(...)`). */
  predicate SomeIngredientContains(ingredients: seq<string>, query: string)
  {
    exists i | 0 <= i < |ingredients| :: Contains(Lower(ingredients[i]), query)
  }

  /** The search callback's test, for a query that is already lowered. */
  predicate Matches(r: Recipe, query: string)
  {
    Contains(Lower(r.title), query) || SomeIngredientContains(r.ingredients, query)
  }

  /** The view the search callback computes from the full list for the
      text in the search bar. */
  function Search(recipes: seq<Recipe>, text: string): seq<Recipe>
  {
    var query := Lower(text);
    Filter(recipes, (r: Recipe) => Matches(r, query))
  }

  /** The search result keeps the full list's order and holds exactly the
      recipes whose lowered title, or one of whose lowered ingredients,
      contains the lowered query. */
  lemma SearchExactly(recipes: seq<Recipe>, text: string)
    ensures IsSubsequence(Search(recipes, text), recipes)
    ensures forall r :: multiset(Search(recipes, text))[r] ==
                        (if Matches(r, Lower(text)) then multiset(recipes)[r] else 0)
  {
    var query := Lower(text);
    var p: Recipe -> bool := (r: Recipe) => Matches(r, query);
    FilterIsSubsequence(recipes, p);
    forall r ensures multiset(Search(recipes, text))[r] == if p(r) then multiset(recipes)[r] else 0 {
      FilterMultiplicity(recipes, p, r);
    }
  }

  /** The search result draws only on the full list. */
  lemma SearchWithin(recipes: seq<Recipe>, text: string)
    ensures multiset(Search(recipes, text)) <= multiset(recipes)
  {
    SearchExactly(recipes, text);
  }

  /** An empty search bar shows every recipe, in order. */
  lemma SearchEmpty(recipes: seq<Recipe>)
    ensures Search(recipes, "") == recipes
  {
    var p: Recipe -> bool := (r: Recipe) => Matches(r, Lower(""));
    forall r | r in recipes ensures p(r) {
      ContainsEmpty(Lower(r.title));
    }
    FilterKeepsAll(recipes, p);
  }

  /** Case does not matter: a recipe whose title or one of whose
      ingredients contains some text `u` that lowers to the same string as
      the query is found, so "SALAD" finds "Greek Salad". */
  lemma SearchFinds(recipes: seq<Recipe>, text: string, u: string, r: Recipe)
    requires r in recipes && Lower(u) == Lower(text)
    requires Contains(r.title, u) || exists i | 0 <= i < |r.ingredients| :: Contains(r.ingredients[i], u)
    ensures r in Search(recipes, text)
  {
    if Contains(r.title, u) {
      ContainsLower(r.title, u);
    } else {
      var i :| 0 <= i < |r.ingredients| && Contains(r.ingredients[i], u);
      ContainsLower(r.ingredients[i], u);
    }
  }

  /** The callback lowers the query itself, so lowering the bar's text
      beforehand changes nothing. */
  lemma SearchLowered(recipes: seq<Recipe>, text: string)
    ensures Search(recipes, Lower(text)) == Search(recipes, text)
  {
    LowerIdempotent(text);
  }

  // ---------------------------------------------------------------------
  // the built-in list

  /** "quick" shows the 25-minute carbonara and the 15-minute salad, not
      the 45-minute curry. */
  lemma CatalogQuick(favorites: seq<int>)
    ensures Select(Catalog, favorites, "quick") == [Catalog[0], Catalog[2]]
  {
    var p := KeyTest("quick", favorites);
    assert Catalog[1..][1..] == [Catalog[2]];
    assert Filter(Catalog[1..], p) == Filter([Catalog[2]], p);
  }

  /** "favorites" with only id 2 marked shows only the curry. */
  lemma CatalogFavorites()
    ensures Select(Catalog, [2], "favorites") == [Catalog[1]]
  {
    var p := KeyTest("favorites", [2]);
    assert Catalog[1..][1..] == [Catalog[2]];
    assert Filter([Catalog[2]], p) == [];
  }
}
