/**
 * The mini-app registry of src/constants/apps.js: the `APPS` table and its
 * queries. The queries take the table as a parameter so their contracts hold
 * for any registry; the lemmas at the end instantiate them with `APPS`.
 */
module AppRegistry {

  import opened Options
  import opened Seqs
  import Routes

  datatype App = App(id: string, title: string, description: string, icon: string, path: string, category: string)

  /** `APPS`, in declaration order. */
  const Apps: seq<App> := [
    App("snake", "Snake Game", "Classic snake game with arrow key controls", "\U{1F40D}", Routes.SnakePath, "games"),
    App("platformer", "Platformer", "Side-scrolling platformer game - jump over obstacles!", "\U{1F3C3}", Routes.PlatformerPath, "games"),
    App("blogger", "Knowledge Blog", "Read insightful articles and tutorials", "\U{1F4DA}", Routes.BloggerPath, "knowledge")
  ]

  /** A category's display entry; `caption` is the source's `label` field (a reserved word here). */
  datatype CategoryMeta = CategoryMeta(caption: string, icon: string, description: string)

  /** `getCategoryMetadata()`. */
  const CategoryMetadata: map<string, CategoryMeta> := map[
    "games" := CategoryMeta("Games", "\U{1F3AE}", "Fun games to play"),
    "utilities" := CategoryMeta("Utilities", "\U{1F6E0}\U{FE0F}", "Useful tools and applications"),
    "knowledge" := CategoryMeta("Knowledge", "\U{1F4DA}", "Educational content and resources")
  ]

  // ------------------------------------------------------------------ lookups

  /** `getAppById`: the first app with this id, or nothing. */
  function GetAppById(apps: seq<App>, id: string): (r: Option<App>)
    ensures r.None? <==> forall i :: 0 <= i < |apps| ==> apps[i].id != id
    ensures r.Some? ==> r.value.id == id
    ensures r.Some? ==> exists i :: 0 <= i < |apps| && apps[i] == r.value && forall j :: 0 <= j < i ==> apps[j].id != id
  {
    Find(apps, (a: App) => a.id == id)
  }

  /** `getAppByPath`: the first app with this path, or nothing. */
  function GetAppByPath(apps: seq<App>, path: string): (r: Option<App>)
    ensures r.None? <==> forall i :: 0 <= i < |apps| ==> apps[i].path != path
    ensures r.Some? ==> r.value.path == path
    ensures r.Some? ==> exists i :: 0 <= i < |apps| && apps[i] == r.value && forall j :: 0 <= j < i ==> apps[j].path != path
  {
    Find(apps, (a: App) => a.path == path)
  }

  /** No two apps share an id. */
  predicate UniqueIds(apps: seq<App>) {
    forall i, j :: 0 <= i < j < |apps| ==> apps[i].id != apps[j].id
  }

  /** When ids are unique, looking an app up by its own id returns that app. */
  lemma LookupOwnId(apps: seq<App>, i: nat)
    requires UniqueIds(apps) && i < |apps|
    ensures GetAppById(apps, apps[i].id) == Some(apps[i])
  {
    var id := apps[i].id;
    var r := GetAppById(apps, id);
    assert r.Some?;
    var k :| 0 <= k < |apps| && apps[k] == r.value && forall j :: 0 <= j < k ==> apps[j].id != id;
    assert k == i;
  }

  // --------------------------------------------------------------- categories

  function InCategory(c: string): App -> bool {
    (a: App) => a.category == c
  }

  /** The apps of category `c`, in table order. */
  function OfCategory(apps: seq<App>, c: string): seq<App> {
    Filter(apps, InCategory(c))
  }

  /**
   * `getAppsByCategory`: the `reduce` that appends each app to the group of
   * its category, creating the group on first sight.
   */
  function GetAppsByCategory(apps: seq<App>): (r: map<string, seq<App>>)
    ensures r.Keys == set a | a in apps :: a.category
    decreases |apps|
  {
    if |apps| == 0 then map[]
    else
      var init := apps[..|apps| - 1];
      var a := apps[|apps| - 1];
      var acc := GetAppsByCategory(init);
      assert apps == init + [a];
      acc[a.category := (if a.category in acc then acc[a.category] else []) + [a]]
  }

  /**
   * Each group holds its category's apps in table order, and no group is
   * empty; so every app lands in the group of its own category and no other.
   */
  lemma {:induction false} GroupIsFilter(apps: seq<App>, c: string)
    requires c in GetAppsByCategory(apps)
    ensures GetAppsByCategory(apps)[c] == OfCategory(apps, c)
    ensures |GetAppsByCategory(apps)[c]| > 0
    decreases |apps|
  {
    var init := apps[..|apps| - 1];
    var a := apps[|apps| - 1];
    var acc := GetAppsByCategory(init);
    assert apps == init + [a];
    FilterAppend(init, [a], InCategory(c));
    assert Filter([a], InCategory(c)) == (if a.category == c then [a] else []);
    if c in acc {
      GroupIsFilter(init, c);
    } else {
      assert a.category == c;
      assert forall i :: 0 <= i < |init| ==> init[i].category != c by {
        forall i | 0 <= i < |init| ensures init[i].category != c {
          assert init[i] in init;
        }
      }
      FilterNone(init, InCategory(c));
    }
  }

  lemma GroupsAreFilters(apps: seq<App>)
    ensures var g := GetAppsByCategory(apps);
      forall c :: c in g ==> g[c] == OfCategory(apps, c) && |g[c]| > 0
  {
    forall c | c in GetAppsByCategory(apps)
      ensures GetAppsByCategory(apps)[c] == OfCategory(apps, c) && |GetAppsByCategory(apps)[c]| > 0
    {
      GroupIsFilter(apps, c);
    }
  }

  /** The category of every app, in table order. */
  function CategoryColumn(apps: seq<App>): (r: seq<string>)
    ensures |r| == |apps| && forall i :: 0 <= i < |apps| ==> r[i] == apps[i].category
  {
    seq(|apps|, i requires 0 <= i < |apps| => apps[i].category)
  }

  /** `getCategories`: `[...new Set(APPS.map(app => app.category))]`. */
  function GetCategories(apps: seq<App>): (r: seq<string>)
    ensures Distinct(r)
    ensures forall c :: c in r <==> exists a :: a in apps && a.category == c
    ensures forall i, j :: 0 <= i < j < |r| ==>
      && r[i] in CategoryColumn(apps) && r[j] in CategoryColumn(apps)
      && IndexOf(CategoryColumn(apps), r[i]) < IndexOf(CategoryColumn(apps), r[j])
  {
    var col := CategoryColumn(apps);
    assert forall c :: c in col <==> exists a :: a in apps && a.category == c by {
      forall c ensures c in col <==> exists a :: a in apps && a.category == c {
        if c in col {
          var i :| 0 <= i < |col| && col[i] == c;
          assert apps[i] in apps;
        }
        if exists a :: a in apps && a.category == c {
          var a :| a in apps && a.category == c;
          var i :| 0 <= i < |apps| && apps[i] == a;
          assert col[i] == c;
        }
      }
    }
    Dedupe(col)
  }

  /** The categories are exactly the keys of the grouping. */
  lemma CategoriesAreGroupKeys(apps: seq<App>)
    ensures (set c | c in GetCategories(apps)) == GetAppsByCategory(apps).Keys
  {
  }

  /** The sizes of the groups, summed over the listed categories. */
  function GroupSizes(groups: map<string, seq<App>>, cats: seq<string>): nat
    requires forall c :: c in cats ==> c in groups
  {
    if |cats| == 0 then 0 else |groups[cats[0]]| + GroupSizes(groups, cats[1..])
  }

  /** The summed sizes of the category filters of `apps`, over the listed categories. */
  function FilterSizes(apps: seq<App>, cats: seq<string>): nat {
    if |cats| == 0 then 0 else |OfCategory(apps, cats[0])| + FilterSizes(apps, cats[1..])
  }

  /** How many times `c` is listed. */
  function Occurrences(cats: seq<string>, c: string): nat {
    if |cats| == 0 then 0 else (if cats[0] == c then 1 else 0) + Occurrences(cats[1..], c)
  }

  lemma {:induction false} OccursOnce(cats: seq<string>, c: string)
    requires Distinct(cats) && c in cats
    ensures Occurrences(cats, c) == 1
  {
    if cats[0] == c {
      OccursNever(cats[1..], c);
    } else {
      OccursOnce(cats[1..], c);
    }
  }

  lemma {:induction false} OccursNever(cats: seq<string>, c: string)
    requires c !in cats
    ensures Occurrences(cats, c) == 0
  {
    if |cats| > 0 {
      OccursNever(cats[1..], c);
    }
  }

  /** Putting one app in front adds one to the filter of its category and nothing elsewhere. */
  lemma {:induction false} FilterSizesCons(a: App, rest: seq<App>, cats: seq<string>)
    ensures FilterSizes([a] + rest, cats) == FilterSizes(rest, cats) + Occurrences(cats, a.category)
  {
    if |cats| > 0 {
      FilterSizesCons(a, rest, cats[1..]);
      assert ([a] + rest)[1..] == rest;
      assert OfCategory([a] + rest, cats[0]) == (if a.category == cats[0] then [a] else []) + OfCategory(rest, cats[0]);
    }
  }

  /** Over a duplicate-free list holding every category, the filters partition the table. */
  lemma {:induction false} FilterSizesTotal(apps: seq<App>, cats: seq<string>)
    requires Distinct(cats)
    requires forall i :: 0 <= i < |apps| ==> apps[i].category in cats
    ensures FilterSizes(apps, cats) == |apps|
    decreases |apps|
  {
    if |apps| == 0 {
      FilterSizesEmpty(cats);
    } else {
      assert apps == [apps[0]] + apps[1..];
      FilterSizesCons(apps[0], apps[1..], cats);
      FilterSizesTotal(apps[1..], cats);
      OccursOnce(cats, apps[0].category);
    }
  }

  lemma {:induction false} FilterSizesEmpty(cats: seq<string>)
    ensures FilterSizes([], cats) == 0
  {
    if |cats| > 0 {
      FilterSizesEmpty(cats[1..]);
    }
  }

  lemma {:induction false} GroupSizesAreFilterSizes(apps: seq<App>, cats: seq<string>)
    requires forall c :: c in cats ==> c in GetAppsByCategory(apps)
    ensures GroupSizes(GetAppsByCategory(apps), cats) == FilterSizes(apps, cats)
  {
    if |cats| > 0 {
      GroupsAreFilters(apps);
      GroupSizesAreFilterSizes(apps, cats[1..]);
    }
  }

  /** The group sizes, over the categories, add up to the number of apps. */
  lemma GroupSizesSum(apps: seq<App>)
    ensures forall c :: c in GetCategories(apps) ==> c in GetAppsByCategory(apps)
    ensures GroupSizes(GetAppsByCategory(apps), GetCategories(apps)) == |apps|
  {
    var cats := GetCategories(apps);
    CategoriesAreGroupKeys(apps);
    GroupSizesAreFilterSizes(apps, cats);
    assert forall i :: 0 <= i < |apps| ==> apps[i].category in cats by {
      forall i | 0 <= i < |apps| ensures apps[i].category in cats {
        assert apps[i] in apps;
      }
    }
    FilterSizesTotal(apps, cats);
  }

  // ------------------------------------------------------------- the tables

  /** The ids in `APPS` are distinct, so every app is found by its own id. */
  lemma StaticIdsUnique()
    ensures UniqueIds(Apps)
    ensures forall i :: 0 <= i < |Apps| ==> GetAppById(Apps, Apps[i].id) == Some(Apps[i])
  {
    forall i | 0 <= i < |Apps|
      ensures GetAppById(Apps, Apps[i].id) == Some(Apps[i])
    {
      LookupOwnId(Apps, i);
    }
  }

  /** Every app's path is one of the `ROUTES` values. */
  lemma StaticPathsAreRoutes()
    ensures forall a :: a in Apps ==> a.path in Routes.RouteList
  {
    Routes.RouteListFacts();
  }

  /** The current categories, in first-occurrence order, and each has display metadata. */
  lemma StaticCategoriesHaveMetadata()
    ensures GetCategories(Apps) == ["games", "knowledge"]
    ensures forall c :: c in GetCategories(Apps) ==> c in CategoryMetadata
  {
    var col := CategoryColumn(Apps);
    assert col == ["games", "games", "knowledge"];
    assert col[..2][..1] == ["games"] && col[..2] == ["games", "games"];
    assert Dedupe(col[..2][..1][..0]) == [];
    assert Dedupe(col[..2][..1]) == ["games"];
    assert Dedupe(col[..2]) == ["games"];
  }

}
