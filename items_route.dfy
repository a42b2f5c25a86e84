/** app/api/items/route.ts. GET builds a parameterised SELECT from up to four
    optional search parameters; its meaning is given by evaluating the
    clauses against a table of items (MySQL's LIKE included). POST maps a
    CreateItemInput onto the ten-column INSERT into the items table and
    answers with the row read back by its new id. */
module ItemsRoute {
  import opened Common
  import opened ItemTypes

  // ---------------------------------------------------------------------
  // GET: the query text and its parameters

  /** searchParams.get(...) of the four filters; None is a missing parameter. */
  datatype ItemFilters = ItemFilters(
    itemType: Option<string>, status: Option<string>,
    category: Option<string>, search: Option<string>)

  /** One WHERE condition the builder can append. */
  datatype Clause =
    | TypeIs(t: string)
    | StatusIs(s: string)
    | CategoryIs(c: string)
    | TextMatches(term: string)

  const BaseQuery: string := "SELECT * FROM items WHERE 1=1"
  const TypeCondition: string := " AND type = ?"
  const StatusCondition: string := " AND status = ?"
  const CategoryCondition: string := " AND category = ?"
  const SearchCondition: string := " AND (title LIKE ? OR description LIKE ?)"
  const OrderByDate: string := " ORDER BY date_reported DESC"

  /** The SQL text a clause appends. */
  function ClauseText(c: Clause): string
  {
    match c
    case TypeIs(_) => TypeCondition
    case StatusIs(_) => StatusCondition
    case CategoryIs(_) => CategoryCondition
    case TextMatches(_) => SearchCondition
  }

  /** The LIKE pattern `%${search}%`. */
  function LikePattern(term: string): string
  {
    "%" + term + "%"
  }

  /** The values a clause pushes onto `params`. */
  function ClauseParams(c: Clause): seq<string>
  {
    match c
    case TypeIs(t) => [t]
    case StatusIs(s) => [s]
    case CategoryIs(x) => [x]
    case TextMatches(term) => [LikePattern(term), LikePattern(term)]
  }

  /** The position of a clause kind in the builder. */
  function Rank(c: Clause): nat
  {
    match c
    case TypeIs(_) => 0
    case StatusIs(_) => 1
    case CategoryIs(_) => 2
    case TextMatches(_) => 3
  }

  /** The clause each filter contributes: one when the parameter is truthy,
      none otherwise. */
  function TypeClauses(f: ItemFilters): seq<Clause>
  {
    if Falsy(f.itemType) then [] else [TypeIs(f.itemType.value)]
  }

  function StatusClauses(f: ItemFilters): seq<Clause>
  {
    if Falsy(f.status) then [] else [StatusIs(f.status.value)]
  }

  function CategoryClauses(f: ItemFilters): seq<Clause>
  {
    if Falsy(f.category) then [] else [CategoryIs(f.category.value)]
  }

  function SearchClauses(f: ItemFilters): seq<Clause>
  {
    if Falsy(f.search) then [] else [TextMatches(f.search.value)]
  }

  /** The clauses the builder appends, in the order it appends them. */
  function Clauses(f: ItemFilters): seq<Clause>
  {
    TypeClauses(f) + StatusClauses(f) + CategoryClauses(f) + SearchClauses(f)
  }

  function RenderClauses(cs: seq<Clause>): string
  {
    if cs == [] then "" else ClauseText(cs[0]) + RenderClauses(cs[1..])
  }

  function ParamsOf(cs: seq<Clause>): seq<string>
  {
    if cs == [] then [] else ClauseParams(cs[0]) + ParamsOf(cs[1..])
  }

  /** The SQL text the builder ends with. */
  function QuerySql(f: ItemFilters): string
  {
    BaseQuery + RenderClauses(Clauses(f)) + OrderByDate
  }

  /** The parameter array the builder ends with. */
  function QueryParams(f: ItemFilters): seq<string>
  {
    ParamsOf(Clauses(f))
  }

  /** The number of `?` placeholders in a SQL text. */
  function Placeholders(sql: string): nat
  {
    if sql == "" then 0 else (if sql[0] == '?' then 1 else 0) + Placeholders(sql[1..])
  }

  lemma {:induction false} PlaceholdersAppend(a: string, b: string)
    ensures Placeholders(a + b) == Placeholders(a) + Placeholders(b)
  {
    if a == "" {
      assert a + b == b;
    } else {
      assert (a + b)[0] == a[0] && (a + b)[1..] == a[1..] + b;
      PlaceholdersAppend(a[1..], b);
    }
  }

  lemma {:induction false} NoPlaceholders(s: string)
    requires forall i :: 0 <= i < |s| ==> s[i] != '?'
    ensures Placeholders(s) == 0
  {
    if s != "" {
      NoPlaceholders(s[1..]);
    }
  }

  /** The literal pieces of the SQL text hold no placeholder: the base
      query, the ORDER BY suffix, and the text of each condition around its
      `?`s. */
  lemma FragmentUnmarked(s: string)
    requires s == BaseQuery || s == OrderByDate || s == " AND type = " || s == " AND status = " ||
             s == " AND category = " || s == " AND (title LIKE " || s == " OR description LIKE "
    ensures Placeholders(s) == 0
  {
    assert forall j :: 0 <= j < |s| ==> s[j] != '?';
    NoPlaceholders(s);
  }

  lemma ConditionHasOnePlaceholder(s: string, a: string)
    requires s == a + "?" && Placeholders(a) == 0
    ensures Placeholders(s) == 1
  {
    PlaceholdersAppend(a, "?");
  }

  lemma ConditionHasTwoPlaceholders(s: string, a: string, b: string, c: string)
    requires s == a + "?" + b + "?" + c && Placeholders(a) == 0 && Placeholders(b) == 0 && c == ")"
    ensures Placeholders(s) == 2
  {
    var x := a + "?";
    var y := x + b;
    var z := y + "?";
    ConditionHasOnePlaceholder(x, a);
    PlaceholdersAppend(x, b);
    ConditionHasTwoMarks(z, y);
    NoPlaceholders(c);
    PlaceholdersAppend(z, c);
  }

  lemma ConditionHasTwoMarks(z: string, y: string)
    requires z == y + "?" && Placeholders(y) == 1
    ensures Placeholders(z) == 2
  {
    PlaceholdersAppend(y, "?");
  }

  lemma SearchConditionPieces(s: string)
    requires s == SearchCondition
    ensures s == " AND (title LIKE " + "?" + " OR description LIKE " + "?" + ")"
  {
  }

  lemma SearchConditionHasTwoPlaceholders(s: string)
    requires s == SearchCondition
    ensures Placeholders(s) == 2
  {
    SearchConditionPieces(s);
    FragmentUnmarked(" AND (title LIKE ");
    FragmentUnmarked(" OR description LIKE ");
    ConditionHasTwoPlaceholders(s, " AND (title LIKE ", " OR description LIKE ", ")");
  }

  lemma TypeConditionHasOnePlaceholder(s: string)
    requires s == TypeCondition
    ensures Placeholders(s) == 1
  {
    var a := " AND type = ";
    assert s == a + "?";
    FragmentUnmarked(" AND type = ");
    ConditionHasOnePlaceholder(s, a);
  }

  lemma StatusConditionHasOnePlaceholder(s: string)
    requires s == StatusCondition
    ensures Placeholders(s) == 1
  {
    var a := " AND status = ";
    assert s == a + "?";
    FragmentUnmarked(" AND status = ");
    ConditionHasOnePlaceholder(s, a);
  }

  lemma CategoryConditionHasOnePlaceholder(s: string)
    requires s == CategoryCondition
    ensures Placeholders(s) == 1
  {
    var a := " AND category = ";
    assert s == a + "?";
    FragmentUnmarked(" AND category = ");
    ConditionHasOnePlaceholder(s, a);
  }

  /** The fixed fragments, the base query and the ORDER BY suffix, carry no
      placeholder. */
  lemma FixedPlaceholders()
    ensures Placeholders(BaseQuery) == 0 && Placeholders(OrderByDate) == 0
  {
    FragmentUnmarked(BaseQuery);
    FragmentUnmarked(OrderByDate);
  }

  /** Each condition carries one placeholder per value it pushes. */
  lemma FragmentPlaceholders(c: Clause)
    ensures Placeholders(ClauseText(c)) == |ClauseParams(c)|
  {
    match c
    case TypeIs(_) => TypeConditionHasOnePlaceholder(TypeCondition);
    case StatusIs(_) => StatusConditionHasOnePlaceholder(StatusCondition);
    case CategoryIs(_) => CategoryConditionHasOnePlaceholder(CategoryCondition);
    case TextMatches(_) => SearchConditionHasTwoPlaceholders(SearchCondition);
  }

  lemma RenderAppend(cs: seq<Clause>, c: Clause)
    ensures RenderClauses(cs + [c]) == RenderClauses(cs) + ClauseText(c)
    ensures ParamsOf(cs + [c]) == ParamsOf(cs) + ClauseParams(c)
  {
    TextAppend(cs, c);
    ParamsAppend(cs, c);
  }

  lemma {:induction false} TextAppend(cs: seq<Clause>, c: Clause)
    ensures RenderClauses(cs + [c]) == RenderClauses(cs) + ClauseText(c)
  {
    if cs != [] {
      var rest := cs[1..];
      assert (cs + [c])[0] == cs[0] && (cs + [c])[1..] == rest + [c];
      TextAppend(rest, c);
      assert (ClauseText(cs[0]) + RenderClauses(rest)) + ClauseText(c) ==
             ClauseText(cs[0]) + (RenderClauses(rest) + ClauseText(c));
    }
  }

  lemma {:induction false} ParamsAppend(cs: seq<Clause>, c: Clause)
    ensures ParamsOf(cs + [c]) == ParamsOf(cs) + ClauseParams(c)
  {
    if cs != [] {
      var rest := cs[1..];
      assert (cs + [c])[0] == cs[0] && (cs + [c])[1..] == rest + [c];
      ParamsAppend(rest, c);
      var p := ClauseParams(cs[0]);
      assert ParamsOf(cs + [c]) == p + (ParamsOf(rest) + ClauseParams(c));
    }
  }

  lemma ConditionThenRest(c: Clause, rest: string)
    ensures Placeholders(ClauseText(c) + rest) == |ClauseParams(c)| + Placeholders(rest)
  {
    FragmentPlaceholders(c);
    PlaceholdersAppend(ClauseText(c), rest);
  }

  /** The running invariant of the builder: the text holds one `?` per
      parameter. */
  lemma {:induction false} RenderBalanced(cs: seq<Clause>)
    ensures Placeholders(RenderClauses(cs)) == |ParamsOf(cs)|
  {
    if cs != [] {
      ConditionThenRest(cs[0], RenderClauses(cs[1..]));
      RenderBalanced(cs[1..]);
    }
  }

  /** What the builder has after appending the clauses `cs`: the text and
      the parameters of those clauses, one `?` per parameter. */
  predicate Built(sql: string, params: seq<string>, cs: seq<Clause>)
  {
    sql == BaseQuery + RenderClauses(cs) && params == ParamsOf(cs) && Placeholders(sql) == |params|
  }

  /** Appending no clauses leaves the text as it is. */
  lemma AppendNoClauses(sql: string)
    ensures sql + RenderClauses([]) == sql
  {
    assert RenderClauses([]) == "";
  }

  lemma BuiltStart()
    ensures Built(BaseQuery, [], [])
  {
    FixedPlaceholders();
    AppendNoClauses(BaseQuery);
  }

  /** One `sql +=` with the matching `params.push` keeps the invariant. */
  lemma BuiltStep(sql: string, params: seq<string>, cs: seq<Clause>, c: Clause)
    requires Built(sql, params, cs)
    ensures Built(sql + ClauseText(c), params + ClauseParams(c), cs + [c])
  {
    RenderAppend(cs, c);
    FragmentPlaceholders(c);
    AppendKeepsBalance(sql, RenderClauses(cs), ClauseText(c), params, ClauseParams(c));
  }

  /** Appending a fragment with one `?` per new parameter to a balanced text. */
  lemma AppendKeepsBalance(sql: string, r: string, t: string, params: seq<string>, ps: seq<string>)
    requires sql == BaseQuery + r && Placeholders(sql) == |params| && Placeholders(t) == |ps|
    ensures sql + t == BaseQuery + (r + t) && Placeholders(sql + t) == |params + ps|
  {
    assert (BaseQuery + r) + t == BaseQuery + (r + t);
    PlaceholdersAppend(sql, t);
  }

  lemma TypeStep(f: ItemFilters, sql0: string, p0: seq<string>, sql1: string, p1: seq<string>)
    requires Built(sql0, p0, [])
    requires Falsy(f.itemType) ==> sql1 == sql0 && p1 == p0
    requires !Falsy(f.itemType) ==> sql1 == sql0 + TypeCondition && p1 == p0 + [f.itemType.value]
    ensures Built(sql1, p1, TypeClauses(f))
  {
    if !Falsy(f.itemType) {
      BuiltStep(sql0, p0, [], TypeIs(f.itemType.value));
    }
  }

  lemma StatusStep(f: ItemFilters, cs: seq<Clause>, sql0: string, p0: seq<string>, sql1: string, p1: seq<string>)
    requires Built(sql0, p0, cs)
    requires Falsy(f.status) ==> sql1 == sql0 && p1 == p0
    requires !Falsy(f.status) ==> sql1 == sql0 + StatusCondition && p1 == p0 + [f.status.value]
    ensures Built(sql1, p1, cs + StatusClauses(f))
  {
    if !Falsy(f.status) {
      BuiltStep(sql0, p0, cs, StatusIs(f.status.value));
    } else {
      assert cs + StatusClauses(f) == cs;
    }
  }

  lemma CategoryStep(f: ItemFilters, cs: seq<Clause>, sql0: string, p0: seq<string>, sql1: string, p1: seq<string>)
    requires Built(sql0, p0, cs)
    requires Falsy(f.category) ==> sql1 == sql0 && p1 == p0
    requires !Falsy(f.category) ==> sql1 == sql0 + CategoryCondition && p1 == p0 + [f.category.value]
    ensures Built(sql1, p1, cs + CategoryClauses(f))
  {
    if !Falsy(f.category) {
      BuiltStep(sql0, p0, cs, CategoryIs(f.category.value));
    } else {
      assert cs + CategoryClauses(f) == cs;
    }
  }

  lemma SearchStep(f: ItemFilters, cs: seq<Clause>, sql0: string, p0: seq<string>, sql1: string, p1: seq<string>)
    requires Built(sql0, p0, cs)
    requires Falsy(f.search) ==> sql1 == sql0 && p1 == p0
    requires !Falsy(f.search) ==>
      sql1 == sql0 + SearchCondition && p1 == p0 + [LikePattern(f.search.value), LikePattern(f.search.value)]
    ensures Built(sql1, p1, cs + SearchClauses(f))
  {
    if !Falsy(f.search) {
      BuiltStep(sql0, p0, cs, TextMatches(f.search.value));
    } else {
      assert cs + SearchClauses(f) == cs;
    }
  }

  /** The ORDER BY adds no placeholder and completes the query. */
  lemma OrderByStep(f: ItemFilters, sql: string, params: seq<string>)
    requires Built(sql, params, Clauses(f))
    ensures sql + OrderByDate == QuerySql(f) && params == QueryParams(f)
    ensures Placeholders(sql + OrderByDate) == |params|
  {
    FixedPlaceholders();
    AppendUnmarked(sql, OrderByDate);
  }

  /** Appending text without `?` leaves the count alone. */
  lemma AppendUnmarked(a: string, b: string)
    requires Placeholders(b) == 0
    ensures Placeholders(a + b) == Placeholders(a)
  {
    PlaceholdersAppend(a, b);
  }

  /** The builder, step by step as the handler writes it: `sql +=` and
      `params.push` under each truthy parameter, then the ORDER BY. The
      placeholder count equals the parameter count after every step. */
  method BuildItemsQuery(f: ItemFilters) returns (sql: string, params: seq<string>)
    ensures sql == QuerySql(f) && params == QueryParams(f)
    ensures Placeholders(sql) == |params|
  {
    sql := BaseQuery;
    params := [];
    BuiltStart();
    ghost var sql0, p0 := sql, params;
    if !Falsy(f.itemType) {
      sql := sql + TypeCondition;
      params := params + [f.itemType.value];
    }
    TypeStep(f, sql0, p0, sql, params);
    sql0, p0 := sql, params;
    if !Falsy(f.status) {
      sql := sql + StatusCondition;
      params := params + [f.status.value];
    }
    StatusStep(f, TypeClauses(f), sql0, p0, sql, params);
    sql0, p0 := sql, params;
    if !Falsy(f.category) {
      sql := sql + CategoryCondition;
      params := params + [f.category.value];
    }
    CategoryStep(f, TypeClauses(f) + StatusClauses(f), sql0, p0, sql, params);
    sql0, p0 := sql, params;
    if !Falsy(f.search) {
      var pattern := LikePattern(f.search.value);
      sql := sql + SearchCondition;
      params := params + [pattern, pattern];
    }
    SearchStep(f, TypeClauses(f) + StatusClauses(f) + CategoryClauses(f), sql0, p0, sql, params);
    OrderByStep(f, sql, params);
    sql := sql + OrderByDate;
  }

  /** Every query carries exactly one `?` per parameter. */
  lemma QueryBalanced(f: ItemFilters)
    ensures Placeholders(QuerySql(f)) == |QueryParams(f)|
  {
    var cs := Clauses(f);
    FixedPlaceholders();
    RenderBalanced(cs);
    PlaceholdersAppend(BaseQuery, RenderClauses(cs));
    AppendUnmarked(BaseQuery + RenderClauses(cs), OrderByDate);
  }

  /** A clause for a filter is present iff the parameter is truthy, with its
      value; the clauses come in the fixed order type, status, category,
      search, at most one of each. */
  lemma ClausePresence(f: ItemFilters)
    ensures (exists t :: TypeIs(t) in Clauses(f)) <==> !Falsy(f.itemType)
    ensures !Falsy(f.itemType) ==> TypeIs(f.itemType.value) in Clauses(f)
    ensures (exists s :: StatusIs(s) in Clauses(f)) <==> !Falsy(f.status)
    ensures !Falsy(f.status) ==> StatusIs(f.status.value) in Clauses(f)
    ensures (exists c :: CategoryIs(c) in Clauses(f)) <==> !Falsy(f.category)
    ensures !Falsy(f.category) ==> CategoryIs(f.category.value) in Clauses(f)
    ensures (exists t :: TextMatches(t) in Clauses(f)) <==> !Falsy(f.search)
    ensures !Falsy(f.search) ==> TextMatches(f.search.value) in Clauses(f)
    ensures forall i, j :: 0 <= i < j < |Clauses(f)| ==> Rank(Clauses(f)[i]) < Rank(Clauses(f)[j])
  {
    ClauseMembers(f);
    TypePresence(f);
    StatusPresence(f);
    CategoryPresence(f);
    SearchPresence(f);
    ClauseOrder(f);
  }

  lemma TypePresence(f: ItemFilters)
    requires forall x :: x in Clauses(f) <==>
      x in TypeClauses(f) || x in StatusClauses(f) || x in CategoryClauses(f) || x in SearchClauses(f)
    ensures (exists t :: TypeIs(t) in Clauses(f)) <==> !Falsy(f.itemType)
    ensures !Falsy(f.itemType) ==> TypeIs(f.itemType.value) in Clauses(f)
  {
    if !Falsy(f.itemType) {
      assert TypeIs(f.itemType.value) in TypeClauses(f);
    }
  }

  lemma StatusPresence(f: ItemFilters)
    requires forall x :: x in Clauses(f) <==>
      x in TypeClauses(f) || x in StatusClauses(f) || x in CategoryClauses(f) || x in SearchClauses(f)
    ensures (exists s :: StatusIs(s) in Clauses(f)) <==> !Falsy(f.status)
    ensures !Falsy(f.status) ==> StatusIs(f.status.value) in Clauses(f)
  {
    if !Falsy(f.status) {
      assert StatusIs(f.status.value) in StatusClauses(f);
    }
  }

  lemma CategoryPresence(f: ItemFilters)
    requires forall x :: x in Clauses(f) <==>
      x in TypeClauses(f) || x in StatusClauses(f) || x in CategoryClauses(f) || x in SearchClauses(f)
    ensures (exists c :: CategoryIs(c) in Clauses(f)) <==> !Falsy(f.category)
    ensures !Falsy(f.category) ==> CategoryIs(f.category.value) in Clauses(f)
  {
    if !Falsy(f.category) {
      assert CategoryIs(f.category.value) in CategoryClauses(f);
    }
  }

  lemma SearchPresence(f: ItemFilters)
    requires forall x :: x in Clauses(f) <==>
      x in TypeClauses(f) || x in StatusClauses(f) || x in CategoryClauses(f) || x in SearchClauses(f)
    ensures (exists t :: TextMatches(t) in Clauses(f)) <==> !Falsy(f.search)
    ensures !Falsy(f.search) ==> TextMatches(f.search.value) in Clauses(f)
  {
    if !Falsy(f.search) {
      assert TextMatches(f.search.value) in SearchClauses(f);
    }
  }

  /** A clause is in the query iff one of the four filters contributed it. */
  lemma ClauseMembers(f: ItemFilters)
    ensures forall x :: x in Clauses(f) <==>
      x in TypeClauses(f) || x in StatusClauses(f) || x in CategoryClauses(f) || x in SearchClauses(f)
  {
    var a, b, c, d := TypeClauses(f), StatusClauses(f), CategoryClauses(f), SearchClauses(f);
    assert Clauses(f) == a + b + c + d;
  }

  lemma ClauseOrder(f: ItemFilters)
    ensures forall i, j :: 0 <= i < j < |Clauses(f)| ==> Rank(Clauses(f)[i]) < Rank(Clauses(f)[j])
  {
    var a, b, c, d := TypeClauses(f), StatusClauses(f), CategoryClauses(f), SearchClauses(f);
    var cs := Clauses(f);
    assert forall i :: 0 <= i < |cs| ==>
      Rank(cs[i]) == if i < |a| then 0 else if i < |a + b| then 1 else if i < |a + b + c| then 2 else 3;
  }

  /** A search term adds the one condition `(title LIKE ? OR description LIKE
      ?)` and exactly two parameters, both `%term%`, at the end. */
  lemma SearchAddsTwoParams(f: ItemFilters)
    requires !Falsy(f.search)
    ensures var g := f.(search := None);
      QueryParams(f) == QueryParams(g) + [LikePattern(f.search.value), LikePattern(f.search.value)] &&
      QuerySql(f) == BaseQuery + RenderClauses(Clauses(g)) + SearchCondition + OrderByDate
  {
    var g := f.(search := None);
    var cg, t := Clauses(g), TextMatches(f.search.value);
    assert TypeClauses(f) + StatusClauses(f) + CategoryClauses(f) == cg;
    assert Clauses(f) == cg + [t];
    RenderAppend(cg, t);
    var r := RenderClauses(cg);
    assert RenderClauses(Clauses(f)) == r + SearchCondition;
    assert (BaseQuery + r) + SearchCondition == BaseQuery + (r + SearchCondition);
  }

  /** Without filters the query is the base query with the ORDER BY and no
      parameters; every query ends with the ORDER BY. */
  lemma QueryShape(f: ItemFilters)
    ensures Falsy(f.itemType) && Falsy(f.status) && Falsy(f.category) && Falsy(f.search) ==>
      QuerySql(f) == BaseQuery + OrderByDate && QueryParams(f) == []
    ensures |QuerySql(f)| >= |OrderByDate| && QuerySql(f)[|QuerySql(f)| - |OrderByDate|..] == OrderByDate
  {
    var s := QuerySql(f);
    assert s == (BaseQuery + RenderClauses(Clauses(f))) + OrderByDate;
  }

  // ---------------------------------------------------------------------
  // GET: what the query selects

  /** MySQL `s LIKE pattern`: `%` matches any run of characters, `_` any one
      character, and a backslash makes the next character literal. */
  function Like(s: string, p: string): bool
    decreases |s| + |p|
  {
    if p == [] then s == []
    else if p[0] == '%' then Like(s, p[1..]) || (s != [] && Like(s[1..], p))
    else if p[0] == '_' then s != [] && Like(s[1..], p[1..])
    else if p[0] == '\\' && |p| >= 2 then s != [] && s[0] == p[1] && Like(s[1..], p[2..])
    else s != [] && s[0] == p[0] && Like(s[1..], p[1..])
  }

  /** A term with none of LIKE's special characters. */
  predicate NoWildcards(t: string)
  {
    forall i :: 0 <= i < |t| ==> t[i] != '%' && t[i] != '_' && t[i] != '\\'
  }

  lemma {:induction false} PercentMatchesAll(s: string)
    ensures Like(s, "%")
    decreases |s|
  {
    if s != [] {
      PercentMatchesAll(s[1..]);
    }
  }

  /** `t%` matches exactly the strings that start with t. */
  lemma {:induction false} PrefixPattern(s: string, t: string)
    requires NoWildcards(t)
    ensures Like(s, t + "%") <==> OccursAt(s, t, 0)
    decreases |t|
  {
    if t == [] {
      assert t + "%" == "%";
      PercentMatchesAll(s);
    } else {
      var p := t + "%";
      assert p[0] == t[0] && p[1..] == t[1..] + "%";
      if s != [] {
        PrefixPattern(s[1..], t[1..]);
        assert OccursAt(s, t, 0) <==> s[0] == t[0] && OccursAt(s[1..], t[1..], 0) by {
          if |t| <= |s| {
            assert s[..|t|] == [s[0]] + s[1..][..|t| - 1];
            assert t == [t[0]] + t[1..];
          }
        }
      }
    }
  }

  lemma ContainsStep(s: string, t: string)
    requires s != []
    ensures Contains(s, t) <==> OccursAt(s, t, 0) || Contains(s[1..], t)
  {
    if Contains(s[1..], t) {
      var k :| 0 <= k <= |s[1..]| && OccursAt(s[1..], t, k);
      assert s[k + 1..k + 1 + |t|] == s[1..][k..k + |t|];
      assert OccursAt(s, t, k + 1);
    }
    if Contains(s, t) && !OccursAt(s, t, 0) {
      var k :| 0 <= k <= |s| && OccursAt(s, t, k);
      assert k > 0;
      assert s[1..][k - 1..k - 1 + |t|] == s[k..k + |t|];
      assert OccursAt(s[1..], t, k - 1);
    }
  }

  /** For a term without wildcards, `LIKE '%term%'` is substring containment. */
  lemma {:induction false} SearchIsContainment(s: string, t: string)
    requires NoWildcards(t)
    ensures Like(s, LikePattern(t)) <==> Contains(s, t)
    decreases |s|
  {
    var p := LikePattern(t);
    assert p[0] == '%' && p[1..] == t + "%";
    PrefixPattern(s, t);
    if s == [] {
      assert Contains(s, t) <==> OccursAt(s, t, 0);
    } else {
      SearchIsContainment(s[1..], t);
      ContainsStep(s, t);
    }
  }

  /** The term is not escaped: `_` in a search matches any character, so
      searching "a_c" finds "abc", which does not contain "a_c". */
  lemma UnderscoreIsAWildcard(s: string, t: string)
    requires s == "abc" && t == "a_c"
    ensures Like(s, LikePattern(t)) && !Contains(s, t)
  {
    MissingCharMeansNoOccurrence(s, t, 1);
    assert LikePattern(t)[1..] == "a_c%";
    assert Like("", "%");
    assert Like("c", "c%");
    assert Like("bc", "_c%");
    assert Like(s, "a_c%");
  }

  /** The WHERE condition of one clause, for one row. Comparisons are exact;
      MySQL's case-insensitive collation is not modelled. */
  predicate Satisfies(item: Item, c: Clause)
  {
    match c
    case TypeIs(t) => TypeName(item.itemType) == t
    case StatusIs(s) => StatusName(item.status) == s
    case CategoryIs(x) => item.category == x
    case TextMatches(term) => Like(item.title, LikePattern(term)) || Like(item.description, LikePattern(term))
  }

  predicate SatisfiesAll(item: Item, cs: seq<Clause>)
  {
    forall i :: 0 <= i < |cs| ==> Satisfies(item, cs[i])
  }

  lemma SatisfiesAllAppend(item: Item, a: seq<Clause>, b: seq<Clause>)
    ensures SatisfiesAll(item, a + b) <==> SatisfiesAll(item, a) && SatisfiesAll(item, b)
  {
    if SatisfiesAll(item, a + b) {
      forall i | 0 <= i < |a| ensures Satisfies(item, a[i]) {
        assert (a + b)[i] == a[i];
      }
      forall i | 0 <= i < |b| ensures Satisfies(item, b[i]) {
        assert (a + b)[|a| + i] == b[i];
      }
    }
  }

  /** What a row must satisfy to be selected by the filters. */
  predicate Selected(f: ItemFilters, item: Item)
  {
    SatisfiesAll(item, Clauses(f))
  }

  /** The WHERE clause as a row predicate. */
  function Where(f: ItemFilters): Item -> bool
  {
    (x: Item) => Selected(f, x)
  }

  /** The WHERE directly in terms of the parameters: each truthy filter must
      hold, and a missing one constrains nothing. */
  lemma SelectedMeans(f: ItemFilters, item: Item)
    ensures Selected(f, item) <==>
      (Falsy(f.itemType) || TypeName(item.itemType) == f.itemType.value) &&
      (Falsy(f.status) || StatusName(item.status) == f.status.value) &&
      (Falsy(f.category) || item.category == f.category.value) &&
      (Falsy(f.search) || Like(item.title, LikePattern(f.search.value)) ||
                          Like(item.description, LikePattern(f.search.value)))
  {
    var a, b, c, d := TypeClauses(f), StatusClauses(f), CategoryClauses(f), SearchClauses(f);
    SatisfiesAllAppend(item, a + b + c, d);
    SatisfiesAllAppend(item, a + b, c);
    SatisfiesAllAppend(item, a, b);
    assert SatisfiesAll(item, a) <==> Falsy(f.itemType) || Satisfies(item, TypeIs(f.itemType.value)) by {
      if !Falsy(f.itemType) { assert a[0] == TypeIs(f.itemType.value); }
    }
    assert SatisfiesAll(item, b) <==> Falsy(f.status) || Satisfies(item, StatusIs(f.status.value)) by {
      if !Falsy(f.status) { assert b[0] == StatusIs(f.status.value); }
    }
    assert SatisfiesAll(item, c) <==> Falsy(f.category) || Satisfies(item, CategoryIs(f.category.value)) by {
      if !Falsy(f.category) { assert c[0] == CategoryIs(f.category.value); }
    }
    assert SatisfiesAll(item, d) <==> Falsy(f.search) || Satisfies(item, TextMatches(f.search.value)) by {
      if !Falsy(f.search) { assert d[0] == TextMatches(f.search.value); }
    }
  }

  /** String order as MySQL compares DATE values written YYYY-MM-DD:
      lexicographic. */
  predicate LexLe(a: string, b: string)
  {
    a == [] || (b != [] && (a[0] < b[0] || (a[0] == b[0] && LexLe(a[1..], b[1..]))))
  }

  lemma {:induction false} LexLeTotal(a: string, b: string)
    ensures LexLe(a, b) || LexLe(b, a)
  {
    if a != [] && b != [] && a[0] == b[0] {
      LexLeTotal(a[1..], b[1..]);
    }
  }

  lemma {:induction false} LexLeTransitive(a: string, b: string, c: string)
    requires LexLe(a, b) && LexLe(b, c)
    ensures LexLe(a, c)
  {
    if a != [] && a[0] == b[0] && b[0] == c[0] {
      LexLeTransitive(a[1..], b[1..], c[1..]);
    }
  }

  /** ORDER BY date_reported DESC: newest first. Rows with equal dates may
      come in any order. */
  predicate NewestFirst(s: seq<Item>)
  {
    forall i, j :: 0 <= i < j < |s| ==> LexLe(s[j].dateReported, s[i].dateReported)
  }

  /** A correct answer to the query: exactly the selected rows (as a
      multiset), newest first. */
  predicate IsQueryResult(table: seq<Item>, f: ItemFilters, result: seq<Item>)
  {
    multiset(result) == multiset(Filter(table, Where(f))) && NewestFirst(result)
  }

  /** Every row of a correct answer satisfies every supplied filter, and
      every selected row of the table is in it. */
  lemma QueryResultMeans(table: seq<Item>, f: ItemFilters, result: seq<Item>)
    requires IsQueryResult(table, f, result)
    ensures forall i :: 0 <= i < |result| ==> result[i] in table && Selected(f, result[i])
    ensures forall i :: 0 <= i < |table| && Selected(f, table[i]) ==> table[i] in result
    ensures |result| <= |table|
  {
    var kept := Filter(table, Where(f));
    FilterMembers(table, Where(f));
    forall i | 0 <= i < |result|
      ensures result[i] in table && Selected(f, result[i])
    {
      assert result[i] in multiset(kept);
    }
    forall i | 0 <= i < |table| && Selected(f, table[i])
      ensures table[i] in result
    {
      assert Where(f)(table[i]);
      assert table[i] in kept;
      assert table[i] in multiset(result);
    }
    assert |result| == |multiset(result)| == |kept|;
  }

  /** No row of `s` is newer than `d`. */
  predicate NoNewerThan(s: seq<Item>, d: string)
  {
    forall j :: 0 <= j < |s| ==> LexLe(s[j].dateReported, d)
  }

  /** Inserting a row into a newest-first list, after the rows at least as
      new as it. */
  function InsertByDate(x: Item, s: seq<Item>): (r: seq<Item>)
    ensures multiset(r) == multiset(s) + multiset{x}
  {
    if s == [] then [x]
    else if LexLe(x.dateReported, s[0].dateReported) then
      assert s == [s[0]] + s[1..];
      [s[0]] + InsertByDate(x, s[1..])
    else [x] + s
  }

  /** A row no newer than `d` in front of rows no newer than `d`. */
  lemma ConsKeepsBound(y: Item, t: seq<Item>, d: string)
    requires LexLe(y.dateReported, d) && NoNewerThan(t, d)
    ensures NoNewerThan([y] + t, d)
  {
    var r := [y] + t;
    forall j | 0 <= j < |r| ensures LexLe(r[j].dateReported, d) {
      if j > 0 { assert r[j] == t[j - 1]; }
    }
  }

  /** Dropping the first row keeps the bound. */
  lemma TailKeepsBound(s: seq<Item>, d: string)
    requires s != [] && NoNewerThan(s, d)
    ensures NoNewerThan(s[1..], d)
  {
    var rest := s[1..];
    forall j | 0 <= j < |rest| ensures LexLe(rest[j].dateReported, d) {
      assert rest[j] == s[j + 1];
    }
  }

  /** Inserting a row no newer than `d` keeps every row no newer than `d`. */
  lemma {:induction false} InsertKeepsBound(x: Item, s: seq<Item>, d: string)
    requires NoNewerThan(s, d) && LexLe(x.dateReported, d)
    ensures NoNewerThan(InsertByDate(x, s), d)
  {
    if s == [] {
      ConsKeepsBound(x, [], d);
    } else if LexLe(x.dateReported, s[0].dateReported) {
      TailKeepsBound(s, d);
      InsertKeepsBound(x, s[1..], d);
      ConsKeepsBound(s[0], InsertByDate(x, s[1..]), d);
    } else {
      ConsKeepsBound(x, s, d);
    }
  }

  /** No later row of a newest-first list is newer than its first. */
  lemma RestNoNewerThanFirst(s: seq<Item>)
    requires s != [] && NewestFirst(s)
    ensures NoNewerThan(s[1..], s[0].dateReported)
  {
    var rest := s[1..];
    forall j | 0 <= j < |rest| ensures LexLe(rest[j].dateReported, s[0].dateReported) {
      assert rest[j] == s[j + 1];
    }
  }

  /** A row in front of a newest-first list none of whose rows is newer. */
  lemma ConsKeepsOrder(y: Item, t: seq<Item>)
    requires NewestFirst(t) && NoNewerThan(t, y.dateReported)
    ensures NewestFirst([y] + t)
  {
    var r := [y] + t;
    forall i, j | 0 <= i < j < |r|
      ensures LexLe(r[j].dateReported, r[i].dateReported)
    {
      assert r[j] == t[j - 1];
      if i > 0 { assert r[i] == t[i - 1]; }
    }
  }

  /** A bound that holds for `d` holds for any date at least `d`. */
  lemma RaiseBound(s: seq<Item>, d: string, e: string)
    requires NoNewerThan(s, d) && LexLe(d, e)
    ensures NoNewerThan(s, e)
  {
    forall j | 0 <= j < |s| ensures LexLe(s[j].dateReported, e) {
      LexLeTransitive(s[j].dateReported, d, e);
    }
  }

  /** Insertion keeps a list newest first. */
  lemma {:induction false} InsertKeepsOrder(x: Item, s: seq<Item>)
    requires NewestFirst(s)
    ensures NewestFirst(InsertByDate(x, s))
  {
    if s == [] {
      ConsKeepsOrder(x, []);
    } else {
      var d := s[0].dateReported;
      RestNoNewerThanFirst(s);
      if LexLe(x.dateReported, d) {
        InsertKeepsOrder(x, s[1..]);
        InsertKeepsBound(x, s[1..], d);
        ConsKeepsOrder(s[0], InsertByDate(x, s[1..]));
      } else {
        LexLeTotal(x.dateReported, d);
        RaiseBound(s[1..], d, x.dateReported);
        ConsKeepsBound(s[0], s[1..], x.dateReported);
        assert [s[0]] + s[1..] == s;
        ConsKeepsOrder(x, s);
      }
    }
  }

  /** One newest-first order of the given rows (MySQL may order rows with
      equal dates differently). */
  function SortNewestFirst(s: seq<Item>): (r: seq<Item>)
    ensures multiset(r) == multiset(s)
  {
    if s == [] then []
    else
      assert s == [s[0]] + s[1..];
      InsertByDate(s[0], SortNewestFirst(s[1..]))
  }

  /** The sort puts every row after the rows that are newer. */
  lemma {:induction false} SortIsNewestFirst(s: seq<Item>)
    ensures NewestFirst(SortNewestFirst(s))
  {
    if s != [] {
      SortIsNewestFirst(s[1..]);
      InsertKeepsOrder(s[0], SortNewestFirst(s[1..]));
    }
  }

  /** The response of GET /api/items. */
  datatype ItemsReply = ItemsList(items: seq<Item>) | FetchFailed
  {
    function Status(): int
    {
      if ItemsList? then 200 else 500
    }
  }

  const FetchFailedText: string := "Failed to fetch items"

  /** The handler, with one of MySQL's admissible answers standing for the
      query; `queryFails` is a failure of the query call. */
  function GetItems(table: seq<Item>, f: ItemFilters, queryFails: bool): ItemsReply
  {
    if queryFails then FetchFailed
    else ItemsList(SortNewestFirst(Filter(table, Where(f))))
  }

  /** The listed items are a correct answer to the filtered query; a failed
      query answers 500. */
  lemma GetItemsAnswersTheQuery(table: seq<Item>, f: ItemFilters, queryFails: bool)
    ensures GetItems(table, f, queryFails).ItemsList? <==> !queryFails
    ensures GetItems(table, f, queryFails).Status() == if queryFails then 500 else 200
    ensures !queryFails ==> IsQueryResult(table, f, GetItems(table, f, queryFails).items)
  {
    SortIsNewestFirst(Filter(table, Where(f)));
  }

  // ---------------------------------------------------------------------
  // POST: the INSERT parameters

  /** A bound parameter: a string or SQL NULL. */
  datatype SqlValue = SqlText(text: string) | SqlNull

  /** The INSERT's column list, in order. */
  const InsertColumns: seq<string> := ["type", "title", "description", "category", "location",
    "date_reported", "contact_name", "contact_email", "contact_phone", "image_url"]

  /** `value || null` for an optional string. */
  function OrNull(v: Option<string>): (r: SqlValue)
    ensures r == SqlNull <==> Falsy(v)
    ensures r.SqlText? ==> v == Some(r.text)
  {
    if Falsy(v) then SqlNull else SqlText(v.value)
  }

  /** The ten parameters, one per column of InsertColumns. */
  function InsertParams(body: CreateItemInput): seq<SqlValue>
  {
    [SqlText(TypeName(body.itemType)), SqlText(body.title), SqlText(body.description),
     SqlText(body.category), SqlText(body.location), SqlText(body.dateReported),
     SqlText(body.contactName), SqlText(body.contactEmail),
     OrNull(body.contactPhone), OrNull(body.imageUrl)]
  }

  /** The input as stored: an empty phone or image URL becomes NULL. */
  function StoredInput(body: CreateItemInput): CreateItemInput
  {
    body.(contactPhone := if Falsy(body.contactPhone) then None else body.contactPhone,
          imageUrl := if Falsy(body.imageUrl) then None else body.imageUrl)
  }

  /** Reading an input back from the ten bound values, as the row the INSERT
      creates holds them. */
  function ReadInsertParams(ps: seq<SqlValue>): Option<CreateItemInput>
  {
    if |ps| != 10 || !ps[0].SqlText? || ParseType(ps[0].text).None? then None
    else if exists i :: 1 <= i < 8 && ps[i].SqlNull? then None
    else
      Some(CreateItemInput(ParseType(ps[0].text).value, ps[1].text, ps[2].text, ps[3].text,
        ps[4].text, ps[5].text, ps[6].text, ps[7].text,
        if ps[8].SqlText? then Some(ps[8].text) else None,
        if ps[9].SqlText? then Some(ps[9].text) else None))
  }

  /** Ten parameters, in column order; the eight required fields pass through
      unchanged, and a missing or empty contact_phone or image_url becomes
      NULL. Reading the parameters back gives the input as stored. */
  lemma InsertParamsRoundTrip(body: CreateItemInput)
    ensures |InsertParams(body)| == |InsertColumns| == 10
    ensures InsertParams(body)[8] == SqlNull <==> Falsy(body.contactPhone)
    ensures InsertParams(body)[9] == SqlNull <==> Falsy(body.imageUrl)
    ensures ReadInsertParams(InsertParams(body)) == Some(StoredInput(body))
    ensures StoredInput(StoredInput(body)) == StoredInput(body)
    ensures (body.contactPhone != Some("") && body.imageUrl != Some("")) ==> StoredInput(body) == body
  {
    NamesRoundTrip(body.itemType, Active);
  }

  // ---------------------------------------------------------------------
  // POST: the INSERT and the read-back of the new row

  /** The `items` table: its rows in table order and the next AUTO_INCREMENT
      id. */
  datatype ItemsTable = ItemsTable(rows: seq<Item>, nextId: int)

  /** The value the status column takes when the INSERT does not name it. */
  const DefaultStatus: ItemStatus := Active

  /** Every id is below the next AUTO_INCREMENT value. */
  predicate ItemIdsBelow(t: ItemsTable)
  {
    forall i :: 0 <= i < |t.rows| ==> t.rows[i].id < t.nextId
  }

  /** The row an INSERT of the bound values `ps` stores: the ten values as
      the columns hold them, the next id, the default status and the
      database's current time `now` for both timestamps; None when the values
      do not fit the columns. */
  function InsertedRow(t: ItemsTable, ps: seq<SqlValue>, now: string): Option<Item>
  {
    match ReadInsertParams(ps)
    case None => None
    case Some(input) => Some(WithServerFields(input, t.nextId, DefaultStatus, now, now))
  }

  /** `query(INSERT ...)`: the table afterwards and `result.insertId`. */
  function InsertItem(t: ItemsTable, ps: seq<SqlValue>, now: string): Option<(ItemsTable, int)>
  {
    match InsertedRow(t, ps, now)
    case None => None
    case Some(row) => Some((ItemsTable(t.rows + [row], t.nextId + 1), t.nextId))
  }

  /** `WHERE id = ?` */
  function IdIs(id: int): Item -> bool { (x: Item) => x.id == id }

  /** `const [newItem] = await query("SELECT * FROM items WHERE id = ?", [id])`:
      the first row with that id, None (undefined) when there is none. */
  function SelectById(rows: seq<Item>, id: int): (r: Option<Item>)
    ensures r.Some? ==> r.value in rows && r.value.id == id
    ensures r.None? <==> forall i :: 0 <= i < |rows| ==> rows[i].id != id
  {
    var found := Filter(rows, IdIs(id));
    FilterMembers(rows, IdIs(id));
    if found == [] then None
    else
      assert IdIs(id)(found[0]);
      Some(found[0])
  }

  /** The response of POST /api/items: the re-read row with 201, 201 with an
      undefined body when the SELECT finds nothing, or 500. */
  datatype CreateReply = CreatedItem(item: Item) | CreatedUndefined | CreateFailed
  {
    function Status(): int
    {
      if CreateFailed? then 500 else 201
    }
  }

  const CreateFailedText: string := "Failed to create item"

  /** The handler. `insertFails` and `selectFails` say whether the INSERT
      and the SELECT after it throw; `now` is the database's current time.
      An INSERT that succeeds stays in the table even when the SELECT then
      fails. */
  function PostItem(t: ItemsTable, body: CreateItemInput, insertFails: bool, selectFails: bool,
                    now: string): (CreateReply, ItemsTable)
  {
    if insertFails then (CreateFailed, t)
    else
      match InsertItem(t, InsertParams(body), now)
      case None => (CreateFailed, t)
      case Some((t1, insertId)) =>
        if selectFails then (CreateFailed, t1)
        else
          match SelectById(t1.rows, insertId)
          case None => (CreatedUndefined, t1)
          case Some(newItem) => (CreatedItem(newItem), t1)
  }

  /** The row a successful INSERT of `body` adds. */
  function NewItemRow(t: ItemsTable, body: CreateItemInput, now: string): Item
  {
    WithServerFields(StoredInput(body), t.nextId, DefaultStatus, now, now)
  }

  /** Every item body fits the columns: the INSERT adds exactly the new row
      at the end under the next id. */
  lemma InsertAddsRow(t: ItemsTable, body: CreateItemInput, now: string)
    ensures InsertItem(t, InsertParams(body), now) ==
      Some((ItemsTable(t.rows + [NewItemRow(t, body, now)], t.nextId + 1), t.nextId))
  {
    InsertParamsRoundTrip(body);
  }

  /** While every id is below the counter, the new id selects exactly the
      new row. */
  lemma SelectFindsNewRow(t: ItemsTable, row: Item)
    requires ItemIdsBelow(t) && row.id == t.nextId
    ensures SelectById(t.rows + [row], t.nextId) == Some(row)
    ensures ItemIdsBelow(ItemsTable(t.rows + [row], t.nextId + 1))
  {
    var p := IdIs(t.nextId);
    FilterAppend(t.rows, [row], p);
    assert Filter(t.rows, p) == [] by {
      forall i | 0 <= i < |t.rows| ensures !p(t.rows[i]) {
      }
    }
    assert p(row);
    FilterKeepsAll([row], p);
    var rows := t.rows + [row];
    forall i | 0 <= i < |rows| ensures rows[i].id < t.nextId + 1 {
      if i < |t.rows| { assert rows[i] == t.rows[i]; }
    }
  }

  /** POST answers 201 exactly when neither query throws, and never with an
      undefined body. A thrown INSERT leaves the table as it was; otherwise
      the row holding the posted fields (empty phone and image URL as NULL),
      the next id, status "active" and the current time is appended. While
      ids stay below the counter, the 201 body is that row: its input part is
      the posted body as stored, and the invariant is kept. */
  lemma PostItemMeans(t: ItemsTable, body: CreateItemInput, insertFails: bool, selectFails: bool, now: string)
    ensures var (r, t1) := PostItem(t, body, insertFails, selectFails, now);
      (r.Status() == 201 <==> !insertFails && !selectFails) &&
      r != CreatedUndefined &&
      (insertFails ==> t1 == t) &&
      (!insertFails ==> t1 == ItemsTable(t.rows + [NewItemRow(t, body, now)], t.nextId + 1))
    ensures var (r, t1) := PostItem(t, body, insertFails, selectFails, now);
      ItemIdsBelow(t) ==>
        ItemIdsBelow(t1) &&
        (r.Status() == 201 ==>
          r.CreatedItem? && r.item == NewItemRow(t, body, now) &&
          InputOf(r.item) == StoredInput(body) && r.item.status == Active &&
          r.item.id == t.nextId && r.item.createdAt == now && r.item.updatedAt == now)
  {
    InsertAddsRow(t, body, now);
    var row := NewItemRow(t, body, now);
    var rows := t.rows + [row];
    assert rows[|t.rows|] == row;
    assert IdIs(t.nextId)(rows[|t.rows|]);
    if ItemIdsBelow(t) {
      SelectFindsNewRow(t, row);
    }
    ItemSplitsIntoInputAndServerFields(row, StoredInput(body), t.nextId, DefaultStatus, now, now);
  }
}
