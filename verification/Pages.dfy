/** Applying the paging condition to a table, and reading the table page by page. */
module Pages {
  import opened Collections
  import opened SortingRules
  import opened Paging

  // ---------- The ORDER BY is a strict order ----------

  lemma {:induction false} PrecedesIsOrder(keys: seq<OrderKey>, a: Row, b: Row, c: Row)
    ensures !Precedes(keys, a, a)
    ensures Precedes(keys, a, b) && Precedes(keys, b, c) ==> Precedes(keys, a, c)
  {
    if keys != [] {
      PrecedesIsOrder(keys[1..], a, b, c);
    }
  }

  lemma {:induction false} FirstDifference(usedFields: seq<string>, fields: Fields, a: Row, b: Row, n: nat)
    returns (i: nat)
    requires n < |usedFields| && forall f :: f in usedFields ==> f in fields
    requires Cell(a, fields[usedFields[n]].column) != Cell(b, fields[usedFields[n]].column)
    ensures i < |usedFields| && Cell(a, fields[usedFields[i]].column) != Cell(b, fields[usedFields[i]].column)
    ensures AgreeBefore(usedFields, fields, a, b, i)
  {
    if AgreeBefore(usedFields, fields, a, b, n) {
      i := n;
    } else {
      var j :| 0 <= j < n && Cell(b, fields[usedFields[j]].column) != Cell(a, fields[usedFields[j]].column);
      i := FirstDifference(usedFields, fields, a, b, j);
    }
  }

  ghost predicate SameTieBreakers(tieBreakers: set<string>, fields: Fields, a: Row, b: Row)
    requires forall f :: f in tieBreakers ==> f in fields
  {
    forall f :: f in tieBreakers ==> Cell(a, fields[f].column) == Cell(b, fields[f].column)
  }

  /** Columns of non-nullable fields are not NULL, and the tie-breakers tell all rows apart. */
  ghost predicate TableFits(usedFields: seq<string>, types: SortingTypes, fields: Fields, tieBreakers: set<string>,
                            table: set<Row>)
    requires IsPlan(usedFields, types, fields, tieBreakers)
  {
    && (forall r :: r in table ==> RowFits(usedFields, fields, types, r))
    && (forall r, s :: r in table && s in table && SameTieBreakers(tieBreakers, fields, r, s) ==> r == s)
  }

  /** Unique tie-breakers make the order total. */
  lemma RowsAreOrdered(usedFields: seq<string>, types: SortingTypes, fields: Fields, tieBreakers: set<string>,
                       table: set<Row>, a: Row, b: Row)
    requires IsPlan(usedFields, types, fields, tieBreakers) && TableFits(usedFields, types, fields, tieBreakers, table)
    requires a in table && b in table && a != b
    ensures var keys := OrderKeys(usedFields, fields, types); Precedes(keys, a, b) || Precedes(keys, b, a)
  {
    var f :| f in tieBreakers && Cell(a, fields[f].column) != Cell(b, fields[f].column);
    var n :| 0 <= n < |usedFields| && usedFields[n] == f;
    var i := FirstDifference(usedFields, fields, a, b, n);
    var column := fields[usedFields[i]].column;
    hide Cell;
    assert ComesBefore(types[usedFields[i]], Cell(a, column), Cell(b, column)) ||
           ComesBefore(types[usedFields[i]], Cell(b, column), Cell(a, column));
    assert FollowsAt(usedFields, fields, types, a, b, i) || FollowsAt(usedFields, fields, types, b, a, i);
    OrderMeaning(usedFields, fields, types, a, b);
    OrderMeaning(usedFields, fields, types, b, a);
  }

  // ---------- Applying the condition ----------

  /** Where to start from: `from.*` values (none or all of them), a sub-query of the caller with at most one row,
      or the first row in any case. */
  datatype Start = FromFirstRow | FromValues(values: Row) | FromSubQuery(page: Option<Row>)

  predicate SafeNamesDiffer(usedFields: seq<string>) {
    forall f, g :: f in usedFields && g in usedFields && SafeColumnName(f) == SafeColumnName(g) ==> f == g
  }

  /** The sub-query built from values gives its columns the safe names of the used fields, and the database refuses
      a sub-query with two columns of one name. */
  predicate IsRefused(usedFields: seq<string>, start: Start) {
    start.FromValues? && start.values != map[] && NeedsSubQuery(usedFields, start) && !SafeNamesDiffer(usedFields)
  }

  function PageOf(usedFields: seq<string>, fields: Fields, from: Row): Row
    requires SafeNamesDiffer(usedFields) && forall f :: f in usedFields ==> f in fields
  {
    map f | f in usedFields :: SafeColumnName(f) := Cell(from, fields[f].column)
  }

  predicate HasValues(fields: Fields, values: Row, row: Row)
    requires forall f :: f in values ==> f in fields
  {
    forall f | f in values :: Cell(row, fields[f].column) == values[f]
  }

  function Following(keys: seq<OrderKey>, table: set<Row>, from: Row): set<Row> {
    set r | r in table && Precedes(keys, from, r)
  }

  predicate NeedsSubQuery(usedFields: seq<string>, start: Start) {
    start.FromSubQuery? || (start.FromValues? && |usedFields| != |start.values|)
  }

  ghost predicate IsStart(start: Start, tieBreakers: set<string>) {
    start.FromValues? ==>
      && (start.values == map[] || start.values.Keys == tieBreakers)
      && forall f :: f in start.values ==> start.values[f].Value?
  }

  lemma {:induction false} AsManyMeansAll(usedFields: seq<string>, tieBreakers: set<string>)
    requires NoneTwice(usedFields) && |usedFields| == |tieBreakers| && forall f :: f in tieBreakers ==> f in usedFields
    ensures forall f :: f in usedFields ==> f in tieBreakers
  {
    if usedFields != [] {
      var last := usedFields[|usedFields| - 1];
      var fewer := usedFields[..|usedFields| - 1];
      assert usedFields == fewer + [last] && last !in fewer;
      if last in tieBreakers {
        AsManyMeansAll(fewer, tieBreakers - {last});
      } else {
        NotMoreThanListed(fewer, tieBreakers);
      }
    }
  }

  lemma {:induction false} NotMoreThanListed(names: seq<string>, all: set<string>)
    requires forall f :: f in all ==> f in names
    ensures |all| <= |names|
  {
    if names == [] {
      assert forall f :: f !in all;
      assert all == {};
    } else {
      var last, fewer := names[|names| - 1], names[..|names| - 1];
      assert names == fewer + [last];
      NotMoreThanListed(fewer, all - {last});
    }
  }

  /** `from` is a row that paging starts after: the one with the given values, or the one the caller's sub-query
      gives. */
  ghost predicate StartsAfter(start: Start, table: set<Row>, usedFields: seq<string>, types: SortingTypes,
                              fields: Fields, from: Row)
    requires Named(usedFields, fields, types) && (start.FromValues? ==> forall f :: f in start.values ==> f in fields)
  {
    match start
    case FromFirstRow => false
    case FromValues(values) =>
      values != map[] && HasValues(fields, values, from) && (NeedsSubQuery(usedFields, start) ==> from in table)
    case FromSubQuery(page) =>
      page.Some? && RowFits(usedFields, fields, types, from) && IsPageOf(usedFields, fields, from, page.value)
  }

  /** No row was found to start after. */
  ghost predicate StartsNowhere(start: Start, table: set<Row>, usedFields: seq<string>, fields: Fields)
    requires start.FromValues? ==> forall f :: f in start.values ==> f in fields
  {
    match start
    case FromFirstRow => false
    case FromValues(values) =>
      values != map[] && NeedsSubQuery(usedFields, start) && forall from :: from in table ==>
        !HasValues(fields, values, from)
    case FromSubQuery(page) => page.None?
  }

  /** What the paged query selects, before its ORDER BY and LIMIT, unless the database refuses the query */
  method ApplyPagingConditions(table: set<Row>, usedFields: seq<string>, types: SortingTypes, fields: Fields,
                               tieBreakers: set<string>, start: Start)
    returns (selected: Option<set<Row>>)
    requires IsPlan(usedFields, types, fields, tieBreakers) && TableFits(usedFields, types, fields, tieBreakers, table)
    requires ValidTieBreakers(fields, tieBreakers) && IsStart(start, tieBreakers)
    ensures selected.None? <==> IsRefused(usedFields, start)
    ensures start == FromFirstRow || start == FromValues(map[]) || usedFields == [] ==> selected == Some(table)
    ensures selected.Some? && usedFields != [] ==>
              forall from :: StartsAfter(start, table, usedFields, types, fields, from) ==>
                selected.value == Following(OrderKeys(usedFields, fields, types), table, from)
    ensures selected.Some? && usedFields != [] && StartsNowhere(start, table, usedFields, fields) ==>
              selected.value == {}
  {
    hide IsPlan, TableFits, SafeNamesDiffer, Conditions, QueryValues, OrderKeys, Following, AnyOf, Evaluate, Bind;
    hide RowFits;
    hide IsPageOf, Placeholders;
    RowsOfTableFit(usedFields, types, fields, tieBreakers, table);
    if start == FromFirstRow || start == FromValues(map[]) {
      return Some(table);
    }
    var subQueryNeeded := NeedsSubQuery(usedFields, start);
    var fromValues := if start.FromValues? then start.values else map[];
    var conditions, queryValues, safeColumnNames :=
      ConstructPagingConditions(usedFields, fields, subQueryNeeded, types, fromValues);
    AsManyConditions(usedFields, fields, types, subQueryNeeded, |usedFields|);
    if conditions == [] {
      NoFieldsNoValues(usedFields, types, fields, tieBreakers, start);
      return Some(table);
    }
    if subQueryNeeded {
      var refused, page := JoinSubQueryForPaging(table, usedFields, types, fields, tieBreakers, start);
      if refused {
        return None;
      }
      if page.None? {
        return Some({});
      }
      var rows := set r | r in table && Evaluate(AnyOf(conditions), r, page.value) == True;
      SelectedBySubQuery(table, usedFields, types, fields, tieBreakers, page.value, rows);
      return Some(rows);
    } else {
      ValuesMatchPlaceholders(usedFields, types, fields, tieBreakers, start.values);
      var rows := set r | r in table && Evaluate(Bind(AnyOf(conditions), queryValues), r, map[]) == True;
      SelectedByValues(table, usedFields, types, fields, tieBreakers, start.values, rows);
      return Some(rows);
    }
  }

  lemma {:induction false} AsManyConditions(usedFields: seq<string>, fields: Fields, types: SortingTypes,
                                            subQueryNeeded: bool, n: nat)
    requires Named(usedFields, fields, types) && n <= |usedFields|
    ensures |Conditions(usedFields, fields, types, subQueryNeeded, n)| == n
  {
    if n > 0 {
      AsManyConditions(usedFields, fields, types, subQueryNeeded, n - 1);
    }
  }

  lemma NoFieldsNoValues(usedFields: seq<string>, types: SortingTypes, fields: Fields, tieBreakers: set<string>,
                         start: Start)
    requires IsPlan(usedFields, types, fields, tieBreakers) && IsStart(start, tieBreakers) && usedFields == []
    ensures start.FromValues? ==> start.values == map[]
  {
    assert tieBreakers == {};
  }

  /** The row `from_page`: of the caller's sub-query, or the first row found with the given values (LIMIT 1).
      `refused` tells whether the database refuses the sub-query. */
  method JoinSubQueryForPaging(table: set<Row>, usedFields: seq<string>, types: SortingTypes, fields: Fields,
                               tieBreakers: set<string>, start: Start)
    returns (refused: bool, page: Option<Row>)
    requires IsPlan(usedFields, types, fields, tieBreakers) && TableFits(usedFields, types, fields, tieBreakers, table)
    requires ValidTieBreakers(fields, tieBreakers)
    requires IsStart(start, tieBreakers) && start != FromFirstRow && start != FromValues(map[])
    ensures refused <==> start.FromValues? && !SafeNamesDiffer(usedFields)
    ensures start.FromSubQuery? ==> page == start.page
    ensures start.FromValues? && !refused ==>
              && (page.None? <==> forall from :: from in table ==> !HasValues(fields, start.values, from))
              && forall from :: from in table && HasValues(fields, start.values, from) ==>
                   page.Some? && IsPageOf(usedFields, fields, from, page.value)
  {
    if start.FromSubQuery? {
      return false, start.page;
    }
    if !SafeNamesDiffer(usedFields) {
      return true, None;
    }
    refused := false;
    var candidates := set r | r in table && HasValues(fields, start.values, r);
    if candidates == {} {
      forall from | from in table
        ensures !HasValues(fields, start.values, from)
      {
        assert from !in candidates;
      }
      return false, None;
    }
    ghost var some := SomeRow(candidates);
    var found :| found in candidates;
    page := Some(PageOf(usedFields, fields, found));
    PageHoldsColumns(usedFields, fields, found);
    forall from | from in table && HasValues(fields, start.values, from)
      ensures from == found
    {
      assert SameTieBreakers(tieBreakers, fields, from, found);
    }
  }

  lemma SomeRow(rows: set<Row>) returns (r: Row)
    requires rows != {}
    ensures r in rows
  {
    r :| r in rows;
  }

  lemma PageHoldsColumns(usedFields: seq<string>, fields: Fields, from: Row)
    requires SafeNamesDiffer(usedFields) && forall f :: f in usedFields ==> f in fields
    ensures IsPageOf(usedFields, fields, from, PageOf(usedFields, fields, from))
  {
    var page := PageOf(usedFields, fields, from);
    hide SafeColumnName;
    forall f | f in usedFields
      ensures Cell(page, SafeColumnName(f)) == Cell(from, fields[f].column)
    {
      assert SafeColumnName(f) in page;
    }
  }

  lemma RowsOfTableFit(usedFields: seq<string>, types: SortingTypes, fields: Fields, tieBreakers: set<string>,
                       table: set<Row>)
    requires IsPlan(usedFields, types, fields, tieBreakers) && TableFits(usedFields, types, fields, tieBreakers, table)
    ensures Named(usedFields, fields, types) && forall f :: f in tieBreakers ==> f in fields
    ensures forall r :: r in table ==> RowFits(usedFields, fields, types, r)
  {
  }

  lemma SelectedBySubQuery(table: set<Row>, usedFields: seq<string>, types: SortingTypes, fields: Fields,
                           tieBreakers: set<string>, page: Row, selected: set<Row>)
    requires IsPlan(usedFields, types, fields, tieBreakers) && TableFits(usedFields, types, fields, tieBreakers, table)
    requires usedFields != []
    requires selected == set r | r in table &&
             Evaluate(AnyOf(Conditions(usedFields, fields, types, true, |usedFields|)), r, page) == True
    ensures forall from :: RowFits(usedFields, fields, types, from) && IsPageOf(usedFields, fields, from, page) ==>
              selected == Following(OrderKeys(usedFields, fields, types), table, from)
  {
    hide Conditions, AnyOf, Evaluate, OrderKeys, Precedes, RowFits, IsPageOf;
    forall from | RowFits(usedFields, fields, types, from) && IsPageOf(usedFields, fields, from, page)
      ensures selected == Following(OrderKeys(usedFields, fields, types), table, from)
    {
      forall r | r in table
        ensures r in selected <==> Precedes(OrderKeys(usedFields, fields, types), from, r)
      {
        SubQueryPagingIsExact(usedFields, fields, types, from, page, r);
      }
    }
  }

  lemma ValuesMatchPlaceholders(usedFields: seq<string>, types: SortingTypes, fields: Fields, tieBreakers: set<string>,
                                values: Row)
    requires IsPlan(usedFields, types, fields, tieBreakers) && usedFields != []
    ensures |QueryValues(usedFields, values, |usedFields|)| ==
            Placeholders(AnyOf(Conditions(usedFields, fields, types, false, |usedFields|)))
  {
    CountPlaceholders(usedFields, fields, types, values, |usedFields|);
  }

  lemma SelectedByValues(table: set<Row>, usedFields: seq<string>, types: SortingTypes, fields: Fields,
                         tieBreakers: set<string>, values: Row, selected: set<Row>)
    requires IsPlan(usedFields, types, fields, tieBreakers) && TableFits(usedFields, types, fields, tieBreakers, table)
    requires usedFields != []
    requires ValidTieBreakers(fields, tieBreakers) && |usedFields| == |values|
    requires values.Keys == tieBreakers && (forall f :: f in values ==> values[f].Value?)
    requires |QueryValues(usedFields, values, |usedFields|)| ==
             Placeholders(AnyOf(Conditions(usedFields, fields, types, false, |usedFields|)))
    requires selected == set r | r in table &&
               Evaluate(Bind(AnyOf(Conditions(usedFields, fields, types, false, |usedFields|)),
                             QueryValues(usedFields, values, |usedFields|)), r, map[]) == True
    ensures forall from :: HasValues(fields, values, from) ==>
              selected == Following(OrderKeys(usedFields, fields, types), table, from)
  {
    AsManyMeansAll(usedFields, tieBreakers);
    hide Conditions, AnyOf, Evaluate, Bind, OrderKeys, Precedes, QueryValues, Placeholders;
    forall from | HasValues(fields, values, from)
      ensures selected == Following(OrderKeys(usedFields, fields, types), table, from)
    {
      forall r | r in table
        ensures r in selected <==> Precedes(OrderKeys(usedFields, fields, types), from, r)
      {
        ValuePagingIsExact(usedFields, fields, types, from, values, r);
      }
    }
  }

  // ---------- Reading page by page ----------

  /** The rows in the order of the ORDER BY */
  ghost predicate IsListing(keys: seq<OrderKey>, rows: set<Row>, list: seq<Row>) {
    && (forall i, j :: 0 <= i < j < |list| ==> Precedes(keys, list[i], list[j]))
    && forall r :: r in rows <==> r in list
  }

  lemma {:induction false} ListingsAreEqual(keys: seq<OrderKey>, rows: set<Row>, a: seq<Row>, b: seq<Row>)
    requires IsListing(keys, rows, a) && IsListing(keys, rows, b)
    ensures a == b
  {
    hide Precedes;
    if a == [] {
      assert forall i :: 0 <= i < |b| ==> b[i] in rows;
    } else {
      assert a[0] in a && b != [];
      assert a[0] in b && b[0] in b && b[0] in a;
      PrecedesIsOrder(keys, a[0], b[0], a[0]);
      assert a[0] == b[0];
      RestIsListed(keys, rows, a);
      RestIsListed(keys, rows, b);
      ListingsAreEqual(keys, rows - {a[0]}, a[1..], b[1..]);
    }
  }

  lemma RestIsListed(keys: seq<OrderKey>, rows: set<Row>, list: seq<Row>)
    requires IsListing(keys, rows, list) && list != []
    ensures IsListing(keys, rows - {list[0]}, list[1..])
  {
    hide Precedes;
    forall r
      ensures r in rows - {list[0]} <==> r in list[1..]
    {
      assert list == [list[0]] + list[1..];
      if r in list[1..] {
        var j :| 1 <= j < |list| && list[j] == r;
        PrecedesIsOrder(keys, list[0], list[0], list[0]);
      }
    }
  }

  /** Tables with unique tie-breakers can be listed. */
  lemma {:induction false} ListingExists(usedFields: seq<string>, types: SortingTypes, fields: Fields,
                                         tieBreakers: set<string>, table: set<Row>, rows: set<Row>)
    returns (list: seq<Row>)
    requires IsPlan(usedFields, types, fields, tieBreakers) && TableFits(usedFields, types, fields, tieBreakers, table)
    requires rows <= table
    ensures IsListing(OrderKeys(usedFields, fields, types), rows, list)
    decreases |rows|
  {
    var keys := OrderKeys(usedFields, fields, types);
    if rows == {} {
      list := [];
    } else {
      var r := SomeRow(rows);
      var fewer := ListingExists(usedFields, types, fields, tieBreakers, table, rows - {r});
      var i := 0;
      while i < |fewer| && Precedes(keys, fewer[i], r)
        invariant 0 <= i <= |fewer|
        invariant forall j :: 0 <= j < i ==> Precedes(keys, fewer[j], r)
      {
        i := i + 1;
      }
      hide Precedes, OrderKeys;
      forall j | i <= j < |fewer|
        ensures Precedes(keys, r, fewer[j])
      {
        assert fewer[i] in fewer;
        RowsAreOrdered(usedFields, types, fields, tieBreakers, table, fewer[i], r);
        PrecedesIsOrder(keys, r, fewer[i], fewer[j]);
      }
      list := fewer[..i] + [r] + fewer[i..];
      InsertedIsListed(keys, rows, r, fewer, i, list);
    }
  }

  lemma InsertedIsListed(keys: seq<OrderKey>, rows: set<Row>, r: Row, fewer: seq<Row>, i: nat, list: seq<Row>)
    requires r in rows && IsListing(keys, rows - {r}, fewer) && i <= |fewer| && list == fewer[..i] + [r] + fewer[i..]
    requires forall j :: 0 <= j < i ==> Precedes(keys, fewer[j], r)
    requires forall j :: i <= j < |fewer| ==> Precedes(keys, r, fewer[j])
    ensures IsListing(keys, rows, list)
  {
    hide Precedes;
    assert fewer == fewer[..i] + fewer[i..];
    forall x
      ensures x in rows <==> x in list
    {
      assert x in fewer <==> x in fewer[..i] || x in fewer[i..];
      assert x in list <==> x in fewer[..i] || x == r || x in fewer[i..];
    }
    forall m, n | 0 <= m < n < |list|
      ensures Precedes(keys, list[m], list[n])
    {
      assert list[m] == if m < i then fewer[m] else if m == i then r else fewer[m - 1];
      assert list[n] == if n < i then fewer[n] else if n == i then r else fewer[n - 1];
    }
  }

  function Flatten(pages: seq<seq<Row>>): seq<Row> {
    if pages == [] then [] else pages[0] + Flatten(pages[1..])
  }

  /** What follows the `k`-th row of a listing is the rest of the listing. */
  lemma FollowingIsRest(keys: seq<OrderKey>, table: set<Row>, list: seq<Row>, k: nat)
    requires IsListing(keys, table, list) && 0 < k <= |list|
    ensures IsListing(keys, Following(keys, table, list[k - 1]), list[k..])
  {
    hide Precedes;
    forall r
      ensures r in Following(keys, table, list[k - 1]) <==> r in list[k..]
    {
      if r in list {
        var m :| 0 <= m < |list| && list[m] == r;
        PrecedesIsOrder(keys, list[k - 1], r, list[k - 1]);
        if m >= k {
          assert list[k..][m - k] == r;
        }
        if r in list[k..] {
          var n :| 0 <= n < |list| - k && list[k..][n] == r;
          assert list[k + n] == r;
        }
      }
    }
  }

  lemma {:induction false} FlattenOneMore(pages: seq<seq<Row>>, page: seq<Row>)
    ensures Flatten(pages + [page]) == Flatten(pages) + page
  {
    if pages == [] {
      assert pages + [page] == [page] && [page][1..] == [];
    } else {
      FlattenOneMore(pages[1..], page);
      assert (pages + [page])[1..] == pages[1..] + [page];
    }
  }

  /** ORDER BY ... LIMIT */
  method OrderAndLimit(keys: seq<OrderKey>, rows: set<Row>, size: nat, ghost list: seq<Row>) returns (page: seq<Row>)
    requires IsListing(keys, rows, list)
    ensures page == if size < |list| then list[..size] else list
  {
    hide Precedes, IsListing;
    page := [];
    var remaining := rows;
    ghost var rest := list;
    while |page| < size && remaining != {}
      invariant list == page + rest && IsListing(keys, remaining, rest) && |page| <= size
      decreases size - |page|
    {
      ghost var least := LeastIsFirst(keys, remaining, rest);
      var next :| next in remaining && IsLeast(keys, remaining, next);
      LeastIsUnique(keys, remaining, least, next);
      RestIsListed(keys, remaining, rest);
      assert rest == [rest[0]] + rest[1..];
      page, remaining, rest := page + [next], remaining - {next}, rest[1..];
    }
    FirstIsListed(keys, remaining, rest);
  }

  predicate IsLeast(keys: seq<OrderKey>, rows: set<Row>, row: Row) {
    forall r :: r in rows && r != row ==> Precedes(keys, row, r)
  }

  lemma LeastIsFirst(keys: seq<OrderKey>, rows: set<Row>, list: seq<Row>) returns (least: Row)
    requires IsListing(keys, rows, list) && rows != {}
    ensures list != [] && least == list[0] && least in rows && IsLeast(keys, rows, least)
  {
    hide Precedes;
    var some := SomeRow(rows);
    assert some in list;
    least := list[0];
    forall r | r in rows && r != least
      ensures Precedes(keys, least, r)
    {
      var j :| 0 <= j < |list| && list[j] == r;
    }
  }

  lemma LeastIsUnique(keys: seq<OrderKey>, rows: set<Row>, a: Row, b: Row)
    requires a in rows && b in rows && IsLeast(keys, rows, a) && IsLeast(keys, rows, b)
    ensures a == b
  {
    PrecedesIsOrder(keys, a, b, a);
  }

  lemma FirstIsListed(keys: seq<OrderKey>, rows: set<Row>, list: seq<Row>)
    requires IsListing(keys, rows, list)
    ensures list != [] ==> list[0] in rows
  {
    if list != [] {
      assert list[0] in list;
    }
  }

  function TieBreakerValues(fields: Fields, tieBreakers: set<string>, row: Row): Row
    requires forall f :: f in tieBreakers ==> f in fields
  {
    map f | f in tieBreakers :: Cell(row, fields[f].column)
  }

  /** The values of a row of the table lead back to that row. */
  lemma ValuesStartAfterRow(table: set<Row>, usedFields: seq<string>, types: SortingTypes, fields: Fields,
                            tieBreakers: set<string>, row: Row, start: Start)
    requires IsPlan(usedFields, types, fields, tieBreakers) && TableFits(usedFields, types, fields, tieBreakers, table)
    requires ValidTieBreakers(fields, tieBreakers) && tieBreakers != {} && row in table
    requires start == FromValues(TieBreakerValues(fields, tieBreakers, row))
    ensures IsStart(start, tieBreakers) && StartsAfter(start, table, usedFields, types, fields, row)
  {
    assert start.values.Keys == tieBreakers;
    assert RowFits(usedFields, fields, types, row);
  }

  /** A client that reads page after page, each time from the tie-breaker values of the last row it got, until a page is
      not full. It gets the sorted list, without gap or repetition, whatever the sorting rules and the size of the pages
      are. */
  method ReadPages(table: set<Row>, usedFields: seq<string>, types: SortingTypes, fields: Fields,
                   tieBreakers: set<string>, size: nat)
    returns (refused: bool, pages: seq<seq<Row>>)
    requires IsPlan(usedFields, types, fields, tieBreakers) && TableFits(usedFields, types, fields, tieBreakers, table)
    requires ValidTieBreakers(fields, tieBreakers) && tieBreakers != {} && size > 0
    ensures refused ==> |usedFields| != |tieBreakers| && !SafeNamesDiffer(usedFields)
    ensures !refused ==> forall list :: IsListing(OrderKeys(usedFields, fields, types), table, list) ==>
              Flatten(pages) == list
    ensures !refused ==> pages != [] && |pages[|pages| - 1]| < size
    ensures forall i :: 0 <= i < |pages| - 1 ==> |pages[i]| == size
  {
    hide IsPlan, TableFits, SafeNamesDiffer, OrderKeys, Precedes, Following, IsListing, StartsAfter, ValidTieBreakers;
    hide Flatten;
    hide TieBreakerValues, StartsNowhere;
    RowsOfTableFit(usedFields, types, fields, tieBreakers, table);
    SomeFieldIsUsed(usedFields, types, fields, tieBreakers);
    var keys := OrderKeys(usedFields, fields, types);
    ghost var list := ListingExists(usedFields, types, fields, tieBreakers, table, table);
    pages, refused := [], false;
    var start := FromValues(map[]);
    ghost var k := 0;
    assert list[..0] == [] == Flatten([]) by {
      NoPages();
    }
    while true
      invariant k <= |list| && Flatten(pages) == list[..k] && IsStart(start, tieBreakers)
      invariant if k == 0 then start == FromValues(map[])
                else start.FromValues? && start.values.Keys == tieBreakers &&
                     StartsAfter(start, table, usedFields, types, fields, list[k - 1])
      invariant forall i :: 0 <= i < |pages| ==> |pages[i]| == size
      decreases |list| - k
    {
      var selected := ApplyPagingConditions(table, usedFields, types, fields, tieBreakers, start);
      if selected.None? {
        KeysOfSameSize(start.values, tieBreakers);
        return true, pages;
      }
      if k > 0 {
        FollowingIsRest(keys, table, list, k);
      }
      assert list[0..] == list;
      var page := OrderAndLimit(keys, selected.value, size, list[k..]);
      FlattenOneMore(pages, page);
      pages := pages + [page];
      assert list[..k] + page == list[..k + |page|];
      if |page| < size {
        assert list[..k + |page|] == list;
        break;
      }
      k := k + size;
      assert page[size - 1] == list[k - 1];
      ListedAreRows(keys, table, list, k - 1);
      start := FromValues(TieBreakerValues(fields, tieBreakers, page[size - 1]));
      ValuesStartAfterRow(table, usedFields, types, fields, tieBreakers, page[size - 1], start);
      NotEmptyStart(fields, tieBreakers, page[size - 1]);
    }
    forall other | IsListing(keys, table, other)
      ensures other == list
    {
      ListingsAreEqual(keys, table, other, list);
    }
  }

  lemma NoPages()
    ensures Flatten([]) == []
  {
  }

  lemma SomeFieldIsUsed(usedFields: seq<string>, types: SortingTypes, fields: Fields, tieBreakers: set<string>)
    requires IsPlan(usedFields, types, fields, tieBreakers) && tieBreakers != {}
    ensures usedFields != []
  {
    assert usedFields == [] ==> tieBreakers == {};
  }

  lemma KeysOfSameSize(values: Row, names: set<string>)
    requires values.Keys == names
    ensures |values| == |names|
  {
    assert |values| == |values.Keys|;
  }

  lemma NotEmptyStart(fields: Fields, tieBreakers: set<string>, row: Row)
    requires forall f :: f in tieBreakers ==> f in fields
    ensures TieBreakerValues(fields, tieBreakers, row).Keys == tieBreakers
  {
  }

  lemma ListedAreRows(keys: seq<OrderKey>, rows: set<Row>, list: seq<Row>, i: nat)
    requires IsListing(keys, rows, list) && i < |list|
    ensures list[i] in rows
  {
    assert list[i] in list;
  }
}
