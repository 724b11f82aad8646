/**
 * The route table of src/constants/routes.js: the `ROUTES` constants, their
 * list, the per-route menu metadata, and `getMenuItems`.
 *
 * JavaScript objects are modelled as their entry sequences in insertion
 * order, which is the order `Object.values` and `Object.entries` return for
 * keys that are not array indices, as all these keys are.
 */
module Routes {

  import opened Seqs

  const HomePath: string := "/"
  const SnakePath: string := "/snake"
  const PlatformerPath: string := "/platformer"
  const BloggerPath: string := "/blogger"

  /** `ROUTES`: constant name and path, in declaration order. */
  const Routes: seq<(string, string)> :=
    [("HOME", HomePath), ("SNAKE", SnakePath), ("PLATFORMER", PlatformerPath), ("BLOGGER", BloggerPath)]

  /** `Object.values`. */
  function Values<K, V>(entries: seq<(K, V)>): (r: seq<V>)
    ensures |r| == |entries|
    ensures forall i :: 0 <= i < |entries| ==> r[i] == entries[i].1
  {
    seq(|entries|, i requires 0 <= i < |entries| => entries[i].1)
  }

  /** The keys of an entry sequence, in order. */
  function Keys<K, V>(entries: seq<(K, V)>): (r: seq<K>)
    ensures |r| == |entries|
    ensures forall i :: 0 <= i < |entries| ==> r[i] == entries[i].0
  {
    seq(|entries|, i requires 0 <= i < |entries| => entries[i].0)
  }

  /** `ROUTE_LIST`. */
  const RouteList: seq<string> := Values(Routes)

  /** A route's menu entry; `caption` is the source's `label` field (a reserved word here). */
  datatype RouteMeta = RouteMeta(caption: string, icon: string, showInMenu: bool)

  /** `ROUTE_METADATA`, keyed by the route paths. */
  const RouteMetadata: seq<(string, RouteMeta)> := [
    (HomePath, RouteMeta("Home", "\U{1F3E0}", true)),
    (SnakePath, RouteMeta("Snake Game", "\U{1F40D}", true)),
    (PlatformerPath, RouteMeta("Platformer", "\U{1F3C3}", true)),
    (BloggerPath, RouteMeta("Knowledge Blog", "\U{1F4DA}", true))
  ]

  datatype MenuItem = MenuItem(path: string, caption: string, icon: string)

  predicate Shown(e: (string, RouteMeta)) {
    e.1.showInMenu
  }

  function ToItem(e: (string, RouteMeta)): MenuItem {
    MenuItem(e.0, e.1.caption, e.1.icon)
  }

  /** The `map` half of `getMenuItems`: one item per entry, in order. */
  function ToItems(entries: seq<(string, RouteMeta)>): (r: seq<MenuItem>)
    ensures |r| == |entries|
    ensures forall i :: 0 <= i < |entries| ==> r[i] == ToItem(entries[i])
  {
    seq(|entries|, i requires 0 <= i < |entries| => ToItem(entries[i]))
  }

  /** `item` is the menu item of some entry of `meta` that is shown in the menu. */
  predicate FromShownEntry(meta: seq<(string, RouteMeta)>, item: MenuItem) {
    exists e :: e in meta && e.1.showInMenu && item == MenuItem(e.0, e.1.caption, e.1.icon)
  }

  /** `getMenuItems` over a metadata table: keep the entries shown in the menu, then reshape each. */
  function MenuItems(meta: seq<(string, RouteMeta)>): (r: seq<MenuItem>)
    ensures |r| <= |meta|
    ensures forall e :: e in meta && e.1.showInMenu ==> ToItem(e) in r
    ensures forall i :: 0 <= i < |r| ==> FromShownEntry(meta, r[i])
  {
    var shown := Filter(meta, Shown);
    var r := ToItems(shown);
    assert forall e :: e in meta && e.1.showInMenu ==> ToItem(e) in r by {
      forall e | e in meta && e.1.showInMenu
        ensures ToItem(e) in r
      {
        assert e in shown;
        var i :| 0 <= i < |shown| && shown[i] == e;
        assert r[i] == ToItem(e);
      }
    }
    assert forall i :: 0 <= i < |r| ==> FromShownEntry(meta, r[i]) by {
      forall i | 0 <= i < |r|
        ensures FromShownEntry(meta, r[i])
      {
        FilterElement(meta, Shown, i);
        var e := shown[i];
        assert e in meta && e.1.showInMenu && r[i] == MenuItem(e.0, e.1.caption, e.1.icon);
      }
    }
    r
  }

  /** The menu keeps declaration order: building it distributes over concatenation of tables. */
  lemma MenuKeepsOrder(a: seq<(string, RouteMeta)>, b: seq<(string, RouteMeta)>)
    ensures MenuItems(a + b) == MenuItems(a) + MenuItems(b)
  {
    FilterAppend(a, b, Shown);
  }

  /** When every entry is shown, the menu has one item per entry, with the entry's key as path. */
  lemma AllShownMenu(meta: seq<(string, RouteMeta)>)
    requires forall i :: 0 <= i < |meta| ==> meta[i].1.showInMenu
    ensures |MenuItems(meta)| == |meta|
    ensures forall i :: 0 <= i < |meta| ==> MenuItems(meta)[i] == ToItem(meta[i])
  {
    FilterAll(meta, Shown);
  }

  /** The route paths are distinct and listed in declaration order. */
  lemma RouteListFacts()
    ensures RouteList == [HomePath, SnakePath, PlatformerPath, BloggerPath]
    ensures Distinct(RouteList)
  {
  }

  /** The metadata is keyed by exactly the route paths, in the same order, so every route has an entry. */
  lemma MetadataCoversRoutes()
    ensures Keys(RouteMetadata) == RouteList
    ensures forall p :: p in RouteList ==> exists e :: e in RouteMetadata && e.0 == p
  {
    assert Keys(RouteMetadata) == RouteList;
    forall p | p in RouteList
      ensures exists e :: e in RouteMetadata && e.0 == p
    {
      var i :| 0 <= i < |RouteList| && RouteList[i] == p;
      assert RouteMetadata[i] in RouteMetadata && RouteMetadata[i].0 == p;
    }
  }

  /** With the current table the menu has four items, whose paths are `ROUTE_LIST` in order. */
  lemma CurrentMenu()
    ensures |MenuItems(RouteMetadata)| == 4
    ensures forall i :: 0 <= i < 4 ==> MenuItems(RouteMetadata)[i].path == RouteList[i]
  {
    AllShownMenu(RouteMetadata);
    MetadataCoversRoutes();
  }

}
