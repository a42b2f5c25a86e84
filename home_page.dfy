/** app/page.tsx: fetchItems builds the query string of GET /api/items from
    the selected tab, the selected category and the search box, always
    asking for active items only. */
module HomePage {
  import opened Common
  import opened ItemTypes
  import opened ItemsRoute

  /** activeTab: "all" | "lost" | "found" */
  datatype Tab = AllTab | LostTab | FoundTab

  function TabName(tab: Tab): string
  {
    match tab
    case AllTab => "all"
    case LostTab => "lost"
    case FoundTab => "found"
  }

  /** One name=value pair of a URLSearchParams, in insertion order. */
  datatype Param = Param(name: string, value: string)

  /** The pairs fetchItems appends, as one expression. */
  function HomeParams(tab: Tab, category: string, search: string): seq<Param>
  {
    (if tab != AllTab then [Param("type", TabName(tab))] else []) +
    (if category != "all" then [Param("category", category)] else []) +
    (if search != "" then [Param("search", search)] else []) +
    [Param("status", "active")]
  }

  /** fetchItems, as it builds `params` with successive appends. */
  method BuildHomeParams(tab: Tab, category: string, search: string) returns (params: seq<Param>)
    ensures params == HomeParams(tab, category, search)
  {
    params := [];
    if tab != AllTab {
      params := params + [Param("type", TabName(tab))];
    }
    if category != "all" {
      params := params + [Param("category", category)];
    }
    if search != "" {
      params := params + [Param("search", search)];
    }
    params := params + [Param("status", "active")];
  }

  /** URLSearchParams.get: the value of the first pair with that name. */
  function GetParam(params: seq<Param>, name: string): Option<string>
  {
    if params == [] then None
    else if params[0].name == name then Some(params[0].value)
    else GetParam(params[1..], name)
  }

  /** The filters GET /api/items reads from the query string. */
  function ServerFilters(params: seq<Param>): ItemFilters
  {
    ItemFilters(GetParam(params, "type"), GetParam(params, "status"),
                GetParam(params, "category"), GetParam(params, "search"))
  }

  /** The query always ends with status=active; type is sent iff a tab other
      than "all" is selected, category iff a category other than "all" is,
      and search iff the box is non-empty. */
  lemma HomeParamsShape(tab: Tab, category: string, search: string)
    ensures var ps := HomeParams(tab, category, search);
      ps != [] && ps[|ps| - 1] == Param("status", "active") &&
      ((exists i :: 0 <= i < |ps| && ps[i].name == "type") <==> tab != AllTab) &&
      ((exists i :: 0 <= i < |ps| && ps[i].name == "category") <==> category != "all") &&
      ((exists i :: 0 <= i < |ps| && ps[i].name == "search") <==> search != "") &&
      (forall i :: 0 <= i < |ps| - 1 ==> ps[i].name != "status")
  {
    var ps := HomeParams(tab, category, search);
    var a := if tab != AllTab then [Param("type", TabName(tab))] else [];
    var b := if category != "all" then [Param("category", category)] else [];
    var c := if search != "" then [Param("search", search)] else [];
    assert ps == a + b + c + [Param("status", "active")];
    if tab != AllTab { assert ps[0] == Param("type", TabName(tab)); }
    if category != "all" { assert ps[|a|] == Param("category", category); }
    if search != "" { assert ps[|a| + |b|] == Param("search", search); }
  }

  /** What the route sees: the tab's type, status "active", the category and
      the search term, each exactly when the page sent it. */
  lemma HomeFilters(tab: Tab, category: string, search: string)
    ensures ServerFilters(HomeParams(tab, category, search)) ==
      ItemFilters(if tab == AllTab then None else Some(TabName(tab)),
                  Some("active"),
                  if category == "all" then None else Some(category),
                  if search == "" then None else Some(search))
  {
    KeysDistinct("type", "category", "search", "status");
    GetEachKey("type", "category", "search", "status", tab, category, search);
  }

  /** The four parameter names differ from one another. */
  lemma KeysDistinct(t: string, c: string, s: string, st: string)
    requires t == "type" && c == "category" && s == "search" && st == "status"
    ensures t != c && t != s && t != st && c != s && c != st && s != st
  {
    assert t[0] != c[0] && t[0] != s[0] && c[0] != s[0];
    assert s[1] != st[1];
  }

  /** A pair appended under a condition. */
  function Opt(cond: bool, p: Param): seq<Param>
  {
    if cond then [p] else []
  }

  /** `get` on a conditionally appended pair followed by the rest: the pair's
      value when it is there and has the name, otherwise the rest's answer. */
  lemma GetOpt(cond: bool, p: Param, rest: seq<Param>, key: string)
    ensures GetParam(Opt(cond, p) + rest, key) ==
      if cond && p.name == key then Some(p.value) else GetParam(rest, key)
  {
    if cond {
      assert (Opt(cond, p) + rest)[1..] == rest;
    } else {
      assert Opt(cond, p) + rest == rest;
    }
  }

  /** `get` on a single pair. */
  lemma GetOne(ps: seq<Param>, key: string)
    requires |ps| == 1
    ensures GetParam(ps, key) == if ps[0].name == key then Some(ps[0].value) else None
  {
    assert ps[1..] == [];
  }

  /** `get` of each of four distinct names on the pairs fetchItems appends. */
  lemma GetEachKey(t: string, c: string, s: string, st: string, tab: Tab, category: string, search: string)
    requires t != c && t != s && t != st && c != s && c != st && s != st
    ensures var ps := (if tab != AllTab then [Param(t, TabName(tab))] else []) +
                      (if category != "all" then [Param(c, category)] else []) +
                      (if search != "" then [Param(s, search)] else []) +
                      [Param(st, "active")];
      GetParam(ps, t) == (if tab == AllTab then None else Some(TabName(tab))) &&
      GetParam(ps, c) == (if category == "all" then None else Some(category)) &&
      GetParam(ps, s) == (if search == "" then None else Some(search)) &&
      GetParam(ps, st) == Some("active")
  {
    var a, b, d := Opt(tab != AllTab, Param(t, TabName(tab))), Opt(category != "all", Param(c, category)),
                   Opt(search != "", Param(s, search));
    var e := [Param(st, "active")];
    assert (if tab != AllTab then [Param(t, TabName(tab))] else []) +
           (if category != "all" then [Param(c, category)] else []) +
           (if search != "" then [Param(s, search)] else []) +
           [Param(st, "active")] == a + (b + (d + e));
    forall key | key in {t, c, s, st} ensures GetParam(a + (b + (d + e)), key) ==
      if tab != AllTab && t == key then Some(TabName(tab))
      else if category != "all" && c == key then Some(category)
      else if search != "" && s == key then Some(search)
      else GetParam(e, key)
    {
      GetOpt(tab != AllTab, Param(t, TabName(tab)), b + (d + e), key);
      GetOpt(category != "all", Param(c, category), d + e, key);
      GetOpt(search != "", Param(s, search), e, key);
    }
    GetOne(e, t);
    GetOne(e, c);
    GetOne(e, s);
    GetOne(e, st);
  }

  /** Every item the home page lists is active, of the selected tab's type
      when a tab other than "all" is selected, and of the selected category
      when one other than "all" is selected (an empty category is sent but
      the route ignores it, so it filters nothing). */
  lemma HomeShowsOnlyActive(table: seq<Item>, tab: Tab, category: string, search: string)
    ensures var reply := GetItems(table, ServerFilters(HomeParams(tab, category, search)), false);
      reply.ItemsList? &&
      forall i :: 0 <= i < |reply.items| ==>
        reply.items[i].status == Active &&
        (tab != AllTab ==> TabName(tab) == TypeName(reply.items[i].itemType)) &&
        (category != "all" && category != "" ==> reply.items[i].category == category)
  {
    var f := ServerFilters(HomeParams(tab, category, search));
    HomeFilters(tab, category, search);
    GetItemsAnswersTheQuery(table, f, false);
    var items := GetItems(table, f, false).items;
    QueryResultMeans(table, f, items);
    forall i | 0 <= i < |items|
      ensures items[i].status == Active
      ensures tab != AllTab ==> TabName(tab) == TypeName(items[i].itemType)
      ensures category != "all" && category != "" ==> items[i].category == category
    {
      SelectedMeans(f, items[i]);
      NamesRoundTrip(items[i].itemType, items[i].status);
    }
  }
}
