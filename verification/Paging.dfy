/** Sorting and keyset paging: the generated ORDER BY, the generated condition that selects what follows a row,
    and the agreement of the two under the three-valued logic of SQL. */
module Paging {
  import opened Collections
  import opened SortingRules

  datatype Value = Null | Value(rank: int)

  /** Column values by column name */
  type Row = map<string, Value>

  function Cell(row: Row, name: string): Value {
    if name in row then row[name] else Null
  }

  // ---------- ORDER BY ----------

  datatype OrderKey =
    | ByIsNull(column: string)
    | ByIsNotNull(column: string)
    | ByColumn(column: string, direction: Direction)

  function AsSQL(sorting: SortingType, column: string): seq<OrderKey> {
    (match sorting.placement
     case Last => [ByIsNull(column)]
     case First => [ByIsNotNull(column)]
     case Unplaced => []) + [ByColumn(column, sorting.direction)]
  }

  /** NULL is the lowest value for ORDER BY ... ASC. */
  predicate IsLower(a: Value, b: Value) {
    b.Value? && (a.Null? || a.rank < b.rank)
  }

  predicate KeyPrecedes(key: OrderKey, a: Row, b: Row) {
    var x, y := Cell(a, key.column), Cell(b, key.column);
    match key
    case ByIsNull(_) => x.Value? && y.Null?
    case ByIsNotNull(_) => x.Null? && y.Value?
    case ByColumn(_, direction) => if direction == Asc then IsLower(x, y) else IsLower(y, x)
  }

  predicate KeyTies(key: OrderKey, a: Row, b: Row) {
    var x, y := Cell(a, key.column), Cell(b, key.column);
    if key.ByColumn? then x == y else x.Null? == y.Null?
  }

  /** The first key that tells the rows apart decides. */
  predicate Precedes(keys: seq<OrderKey>, a: Row, b: Row) {
    keys != [] && (KeyPrecedes(keys[0], a, b) || (KeyTies(keys[0], a, b) && Precedes(keys[1..], a, b)))
  }

  predicate Named(usedFields: seq<string>, fields: Fields, types: SortingTypes) {
    forall f :: f in usedFields ==> f in fields && f in types
  }

  function OrderKeys(usedFields: seq<string>, fields: Fields, types: SortingTypes): seq<OrderKey>
    requires Named(usedFields, fields, types)
  {
    if usedFields == [] then [] else
      AsSQL(types[usedFields[0]], fields[usedFields[0]].column) + OrderKeys(usedFields[1..], fields, types)
  }

  lemma {:induction false} OrderKeysOfMore(usedFields: seq<string>, n: nat, fields: Fields, types: SortingTypes)
    requires Named(usedFields, fields, types) && n < |usedFields|
    ensures OrderKeys(usedFields[..n + 1], fields, types) ==
            OrderKeys(usedFields[..n], fields, types) + AsSQL(types[usedFields[n]], fields[usedFields[n]].column)
  {
    if n == 0 {
      assert usedFields[..1] == [usedFields[0]] && usedFields[..1][1..] == [];
    } else {
      OrderKeysOfMore(usedFields[1..], n - 1, fields, types);
      assert usedFields[..n + 1][1..] == usedFields[1..][..n] && usedFields[..n][1..] == usedFields[1..][..n - 1];
    }
  }

  method ApplyOrder(usedFields: seq<string>, fields: Fields, types: SortingTypes) returns (orderKeys: seq<OrderKey>)
    requires Named(usedFields, fields, types)
    ensures orderKeys == OrderKeys(usedFields, fields, types)
  {
    orderKeys := [];
    for n := 0 to |usedFields|
      invariant orderKeys == OrderKeys(usedFields[..n], fields, types)
    {
      OrderKeysOfMore(usedFields, n, fields, types);
      orderKeys := orderKeys + AsSQL(types[usedFields[n]], fields[usedFields[n]].column);
    }
    assert usedFields[..|usedFields|] == usedFields;
  }

  /** What a sorting type means for two values of its column: NULLs at their place, the others by their rank */
  predicate ComesBefore(sorting: SortingType, x: Value, y: Value) {
    if x.Null? then y.Value? && sorting.placement == First
    else if y.Null? then sorting.placement == Last
    else if sorting.direction == Asc then x.rank < y.rank else x.rank > y.rank
  }

  /** The rows agree on the first `i` fields and the next one orders them. */
  predicate FollowsAt(usedFields: seq<string>, fields: Fields, types: SortingTypes, from: Row, row: Row, i: nat)
    requires Named(usedFields, fields, types) && i < |usedFields|
  {
    && (forall j :: 0 <= j < i ==> Cell(row, fields[usedFields[j]].column) == Cell(from, fields[usedFields[j]].column))
    && var column := fields[usedFields[i]].column;
       ComesBefore(types[usedFields[i]], Cell(from, column), Cell(row, column))
  }

  predicate Follows(usedFields: seq<string>, fields: Fields, types: SortingTypes, from: Row, row: Row)
    requires Named(usedFields, fields, types)
  {
    exists i :: 0 <= i < |usedFields| && FollowsAt(usedFields, fields, types, from, row, i)
  }

  /** Fields without a placement are not NULL. */
  predicate RowFits(usedFields: seq<string>, fields: Fields, types: SortingTypes, row: Row)
    requires Named(usedFields, fields, types)
  {
    forall f :: f in usedFields && types[f].placement == Unplaced ==> Cell(row, fields[f].column).Value?
  }

  lemma {:induction false} KeysOfField(sorting: SortingType, column: string, keys: seq<OrderKey>, a: Row, b: Row)
    requires sorting.placement == Unplaced ==> Cell(a, column).Value? && Cell(b, column).Value?
    ensures Precedes(AsSQL(sorting, column) + keys, a, b) <==>
              ComesBefore(sorting, Cell(a, column), Cell(b, column)) ||
              (Cell(a, column) == Cell(b, column) && Precedes(keys, a, b))
  {
    var all := AsSQL(sorting, column) + keys;
    if sorting.placement == Unplaced {
      assert all[1..] == keys;
    } else {
      assert all[1..] == [ByColumn(column, sorting.direction)] + keys;
      assert all[1..][1..] == keys;
    }
  }

  /** The ORDER BY puts a row after another exactly when the first differing field says so. */
  lemma {:induction false} OrderMeaning(usedFields: seq<string>, fields: Fields, types: SortingTypes, from: Row,
                                        row: Row)
    requires Named(usedFields, fields, types)
    requires RowFits(usedFields, fields, types, from) && RowFits(usedFields, fields, types, row)
    ensures Precedes(OrderKeys(usedFields, fields, types), from, row) <==> Follows(usedFields, fields, types, from, row)
  {
    if usedFields != [] {
      var rest := usedFields[1..];
      var column := fields[usedFields[0]].column;
      KeysOfField(types[usedFields[0]], column, OrderKeys(rest, fields, types), from, row);
      OrderMeaning(rest, fields, types, from, row);
      if Follows(rest, fields, types, from, row) && Cell(from, column) == Cell(row, column) {
        var i :| 0 <= i < |rest| && FollowsAt(rest, fields, types, from, row, i);
        assert FollowsAt(usedFields, fields, types, from, row, i + 1);
      }
      if ComesBefore(types[usedFields[0]], Cell(from, column), Cell(row, column)) {
        assert FollowsAt(usedFields, fields, types, from, row, 0);
      }
      if Follows(usedFields, fields, types, from, row) {
        var i :| 0 <= i < |usedFields| && FollowsAt(usedFields, fields, types, from, row, i);
        if i > 0 {
          assert forall j :: 0 <= j < i - 1 ==> rest[j] == usedFields[j + 1];
          assert FollowsAt(rest, fields, types, from, row, i - 1);
        }
      }
    }
  }

  /** What the signs of a statement mean for the values of its field: "-" turns the order round, and NULLs come first
      in either direction unless the statement ends in "$". */
  lemma StatementMeaning(sortingRules: string, fields: Fields, tieBreakers: set<string>, rules: Rules, i: nat,
                         x: Value, y: Value)
    requires rules.Ok? && AreRules(Split(sortingRules, ','), fields, tieBreakers, rules)
    requires i < |Split(sortingRules, ',')|
    ensures var statement, field := Split(sortingRules, ',')[i], rules.usedFields[i];
            var descending := statement != "" && statement[0] == '-';
            var nullsLast := statement != "" && statement[|statement| - 1] == '$';
            && field in fields && field in rules.types
            && (x.Value? && y.Value? ==>
                  (ComesBefore(rules.types[field], x, y) <==> if descending then x.rank > y.rank else x.rank < y.rank))
            && (x.Null? && y.Value? && fields[field].nullable ==>
                  && (ComesBefore(rules.types[field], x, y) <==> !nullsLast)
                  && (ComesBefore(rules.types[field], y, x) <==> nullsLast))
  {
    var statements := Split(sortingRules, ',');
    hide Split;
    assert StatementError(statements, i, fields) == None;
  }

  // ---------- Conditions ----------

  datatype Operand = FromPage(name: string) | Placeholder | Bound(value: Value)

  datatype Condition =
    | Compare(column: string, direction: Direction, operand: Operand)
    | NullSafeEqual(column: string, operand: Operand)
    | Equal(column: string, operand: Operand)
    | IsNull(operand: Operand)
    | ColumnIsNull(column: string)
    | ColumnIsNotNull(column: string)
    | Or(left: Condition, right: Condition)
    | And(left: Condition, right: Condition)
    | If(test: Condition, yes: Condition, no: Condition)
    | Never

  datatype Truth = True | False | Unknown

  function Known(b: bool): Truth {
    if b then True else False
  }

  function OperandValue(operand: Operand, page: Row): Value {
    match operand
    case FromPage(name) => Cell(page, name)
    case Placeholder => Null
    case Bound(value) => value
  }

  /** The three-valued logic of SQL */
  function Evaluate(c: Condition, row: Row, page: Row): Truth {
    match c
    case Compare(column, direction, operand) =>
      var x, y := Cell(row, column), OperandValue(operand, page);
      if x.Null? || y.Null? then Unknown else Known(if direction == Asc then x.rank > y.rank else x.rank < y.rank)
    case NullSafeEqual(column, operand) => Known(Cell(row, column) == OperandValue(operand, page))
    case Equal(column, operand) =>
      var x, y := Cell(row, column), OperandValue(operand, page);
      if x.Null? || y.Null? then Unknown else Known(x == y)
    case IsNull(operand) => Known(OperandValue(operand, page).Null?)
    case ColumnIsNull(column) => Known(Cell(row, column).Null?)
    case ColumnIsNotNull(column) => Known(!Cell(row, column).Null?)
    case Or(left, right) =>
      var x, y := Evaluate(left, row, page), Evaluate(right, row, page);
      if x == True || y == True then True else if x == Unknown || y == Unknown then Unknown else False
    case And(left, right) =>
      var x, y := Evaluate(left, row, page), Evaluate(right, row, page);
      if x == False || y == False then False else if x == Unknown || y == Unknown then Unknown else True
    case If(test, yes, no) => if Evaluate(test, row, page) == True then Evaluate(yes, row, page)
      else Evaluate(no, row, page)
    case Never => False
  }

  predicate IsSafe(c: char) {
    'a' <= c <= 'z' || 'A' <= c <= 'Z' || c == '_' || '0' <= c <= '9'
  }

  function SafeColumnName(name: string): (safe: string)
    ensures |safe| == |name| && forall i :: 0 <= i < |name| ==> safe[i] == if IsSafe(name[i]) then name[i] else '_'
  {
    if name == "" then "" else [if IsSafe(name[0]) then name[0] else '_'] + SafeColumnName(name[1..])
  }

  function AndThen(prefix: Option<Condition>, condition: Condition): Condition {
    if prefix.None? then condition else And(prefix.value, condition)
  }

  /** The condition on one field, when all the fields before are equal */
  function FieldFollows(field: string, column: string, sorting: SortingType, subQueryNeeded: bool): Condition {
    if !subQueryNeeded then Compare(column, sorting.direction, Placeholder) else
      var name := SafeColumnName(field);
      var condition := Compare(column, sorting.direction, FromPage(name));
      match sorting.placement
      case First => If(IsNull(FromPage(name)), ColumnIsNotNull(column), condition)
      case Last => If(IsNull(FromPage(name)), Never, Or(ColumnIsNull(column), condition))
      case Unplaced => condition
  }

  function FieldEquals(field: string, column: string, subQueryNeeded: bool): Condition {
    if subQueryNeeded then NullSafeEqual(column, FromPage(SafeColumnName(field))) else Equal(column, Placeholder)
  }

  function PrefixAt(usedFields: seq<string>, fields: Fields, subQueryNeeded: bool, n: nat): (prefix: Option<Condition>)
    requires n <= |usedFields| && forall f :: f in usedFields ==> f in fields
    ensures prefix.None? <==> n == 0
  {
    if n == 0 then None else
      var field := usedFields[n - 1];
      Some(AndThen(PrefixAt(usedFields, fields, subQueryNeeded, n - 1),
                   FieldEquals(field, fields[field].column, subQueryNeeded)))
  }

  function ConditionAt(usedFields: seq<string>, fields: Fields, types: SortingTypes, subQueryNeeded: bool,
                       i: nat): Condition
    requires Named(usedFields, fields, types) && i < |usedFields|
  {
    var field := usedFields[i];
    AndThen(PrefixAt(usedFields, fields, subQueryNeeded, i),
            FieldFollows(field, fields[field].column, types[field], subQueryNeeded))
  }

  function Conditions(usedFields: seq<string>, fields: Fields, types: SortingTypes, subQueryNeeded: bool,
                      n: nat): (conditions: seq<Condition>)
    requires Named(usedFields, fields, types) && n <= |usedFields|
    ensures |conditions| == n
  {
    if n == 0 then [] else
      Conditions(usedFields, fields, types, subQueryNeeded, n - 1) +
        [ConditionAt(usedFields, fields, types, subQueryNeeded, n - 1)]
  }

  function SafeColumnNames(usedFields: seq<string>): (names: seq<string>)
    ensures |names| == |usedFields| && forall i :: 0 <= i < |names| ==> names[i] == SafeColumnName(usedFields[i])
  {
    if usedFields == [] then [] else
      var n := |usedFields| - 1;
      SafeColumnNames(usedFields[..n]) + [SafeColumnName(usedFields[n])]
  }

  function ValuesUpTo(usedFields: seq<string>, fromValues: Row, n: nat): (values: seq<Value>)
    requires n <= |usedFields|
    ensures |values| == n
  {
    if n == 0 then [] else ValuesUpTo(usedFields, fromValues, n - 1) + [Cell(fromValues, usedFields[n - 1])]
  }

  function QueryValues(usedFields: seq<string>, fromValues: Row, n: nat): seq<Value>
    requires n <= |usedFields|
  {
    if n == 0 then [] else QueryValues(usedFields, fromValues, n - 1) + ValuesUpTo(usedFields, fromValues, n)
  }

  method ConstructPagingConditions(usedFields: seq<string>, fields: Fields, subQueryNeeded: bool, types: SortingTypes,
                                   fromValues: Row)
    returns (conditions: seq<Condition>, queryValues: seq<Value>, safeColumnNames: seq<string>)
    requires Named(usedFields, fields, types)
    ensures conditions == Conditions(usedFields, fields, types, subQueryNeeded, |usedFields|)
    ensures queryValues == if subQueryNeeded then [] else QueryValues(usedFields, fromValues, |usedFields|)
    ensures safeColumnNames == SafeColumnNames(usedFields)
  {
    hide SafeColumnName, Cell, FieldFollows, FieldEquals;
    safeColumnNames, conditions, queryValues := [], [], [];
    var queryValuesPart := [];
    var conditionPrefix: Option<Condition> := None;
    for index := 0 to |usedFields|
      invariant conditionPrefix == PrefixAt(usedFields, fields, subQueryNeeded, index)
      invariant conditions == Conditions(usedFields, fields, types, subQueryNeeded, index)
      invariant safeColumnNames == SafeColumnNames(usedFields[..index])
      invariant !subQueryNeeded ==> queryValuesPart == ValuesUpTo(usedFields, fromValues, index)
      invariant queryValues == if subQueryNeeded then [] else QueryValues(usedFields, fromValues, index)
    {
      var fieldName := usedFields[index];
      assert usedFields[..index + 1][..index] == usedFields[..index];
      var safeColumnName := SafeColumnName(fieldName);
      safeColumnNames := safeColumnNames + [safeColumnName];
      var columnName := fields[fieldName].column;
      conditions := conditions +
        [AndThen(conditionPrefix, FieldFollows(fieldName, columnName, types[fieldName], subQueryNeeded))];
      conditionPrefix := Some(AndThen(conditionPrefix, FieldEquals(fieldName, columnName, subQueryNeeded)));
      if !subQueryNeeded {
        queryValuesPart := queryValuesPart + [Cell(fromValues, fieldName)];
        queryValues := queryValues + queryValuesPart;
      }
    }
    assert usedFields[..|usedFields|] == usedFields;
  }

  // ---------- The conditions agree with the ORDER BY ----------

  /** strings.Join(conditions, " OR ") */
  function AnyOf(conditions: seq<Condition>): Condition
    requires conditions != []
  {
    var n := |conditions| - 1;
    if n == 0 then conditions[0] else Or(AnyOf(conditions[..n]), conditions[n])
  }

  function IsOpen(operand: Operand): nat {
    if operand.Placeholder? then 1 else 0
  }

  function Placeholders(c: Condition): nat {
    match c
    case Compare(_, _, operand) => IsOpen(operand)
    case NullSafeEqual(_, operand) => IsOpen(operand)
    case Equal(_, operand) => IsOpen(operand)
    case IsNull(operand) => IsOpen(operand)
    case ColumnIsNull(_) => 0
    case ColumnIsNotNull(_) => 0
    case Or(left, right) => Placeholders(left) + Placeholders(right)
    case And(left, right) => Placeholders(left) + Placeholders(right)
    case If(test, yes, no) => Placeholders(test) + Placeholders(yes) + Placeholders(no)
    case Never => 0
  }

  function BindOperand(operand: Operand, values: seq<Value>): Operand
    requires |values| == IsOpen(operand)
  {
    if operand.Placeholder? then Bound(values[0]) else operand
  }

  /** The database fills the placeholders from left to right. */
  function Bind(c: Condition, values: seq<Value>): Condition
    requires |values| == Placeholders(c)
  {
    match c
    case Compare(column, direction, operand) => Compare(column, direction, BindOperand(operand, values))
    case NullSafeEqual(column, operand) => NullSafeEqual(column, BindOperand(operand, values))
    case Equal(column, operand) => Equal(column, BindOperand(operand, values))
    case IsNull(operand) => IsNull(BindOperand(operand, values))
    case ColumnIsNull(_) => c
    case ColumnIsNotNull(_) => c
    case Or(left, right) => Or(Bind(left, values[..Placeholders(left)]), Bind(right, values[Placeholders(left)..]))
    case And(left, right) => And(Bind(left, values[..Placeholders(left)]), Bind(right, values[Placeholders(left)..]))
    case If(test, yes, no) =>
      var m, n := Placeholders(test), Placeholders(test) + Placeholders(yes);
      If(Bind(test, values[..m]), Bind(yes, values[m..n]), Bind(no, values[n..]))
    case Never => c
  }

  /** The row `from_page` holds the columns of `from` under their safe names. */
  ghost predicate IsPageOf(usedFields: seq<string>, fields: Fields, from: Row, page: Row)
    requires forall f :: f in usedFields ==> f in fields
  {
    forall f :: f in usedFields ==> Cell(page, SafeColumnName(f)) == Cell(from, fields[f].column)
  }

  ghost predicate AgreeBefore(usedFields: seq<string>, fields: Fields, from: Row, row: Row, n: nat)
    requires n <= |usedFields| && forall f :: f in usedFields ==> f in fields
  {
    forall j :: 0 <= j < n ==> Cell(row, fields[usedFields[j]].column) == Cell(from, fields[usedFields[j]].column)
  }

  lemma {:induction false} PrefixMeaning(usedFields: seq<string>, fields: Fields, from: Row, page: Row, row: Row,
                                         n: nat)
    requires 0 < n <= |usedFields| && (forall f :: f in usedFields ==> f in fields)
    requires IsPageOf(usedFields, fields, from, page)
    ensures Evaluate(PrefixAt(usedFields, fields, true, n).value, row, page) == True <==>
            AgreeBefore(usedFields, fields, from, row, n)
  {
    hide SafeColumnName;
    if n > 1 {
      PrefixMeaning(usedFields, fields, from, page, row, n - 1);
    }
  }

  /** NULLs on either side included, the condition on one field holds exactly for what comes after. */
  lemma FieldMeaning(field: string, column: string, sorting: SortingType, from: Row, page: Row, row: Row)
    requires Cell(page, SafeColumnName(field)) == Cell(from, column)
    requires sorting.placement == Unplaced ==> Cell(from, column).Value? && Cell(row, column).Value?
    ensures Evaluate(FieldFollows(field, column, sorting, true), row, page) == True <==>
              ComesBefore(sorting, Cell(from, column), Cell(row, column))
  {
    var name := SafeColumnName(field);
    var x, y := Cell(from, column), Cell(row, column);
    hide SafeColumnName, Cell;
    var condition := Compare(column, sorting.direction, FromPage(name));
    assert Evaluate(condition, row, page) == True <==>
             x.Value? && y.Value? && if sorting.direction == Asc then x.rank < y.rank else x.rank > y.rank;
    assert Evaluate(Or(ColumnIsNull(column), condition), row, page) == True <==>
           y.Null? || Evaluate(condition, row, page) == True;
    assert Evaluate(IsNull(FromPage(name)), row, page) == True <==> x.Null?;
    assert Evaluate(ColumnIsNotNull(column), row, page) == True <==> y.Value?;
  }

  lemma ConditionMeaning(usedFields: seq<string>, fields: Fields, types: SortingTypes, from: Row, page: Row, row: Row,
                         i: nat)
    requires Named(usedFields, fields, types) && i < |usedFields| && IsPageOf(usedFields, fields, from, page)
    requires RowFits(usedFields, fields, types, from) && RowFits(usedFields, fields, types, row)
    ensures Evaluate(ConditionAt(usedFields, fields, types, true, i), row, page) == True <==>
              FollowsAt(usedFields, fields, types, from, row, i)
  {
    var field := usedFields[i];
    FieldMeaning(field, fields[field].column, types[field], from, page, row);
    if i > 0 {
      PrefixMeaning(usedFields, fields, from, page, row, i);
    }
    hide SafeColumnName, ComesBefore, FieldFollows, PrefixAt, Cell;
    assert FollowsAt(usedFields, fields, types, from, row, i) <==>
             AgreeBefore(usedFields, fields, from, row, i) &&
             ComesBefore(types[field], Cell(from, fields[field].column), Cell(row, fields[field].column));
  }

  lemma OrIsTrue(left: Condition, right: Condition, row: Row, page: Row)
    ensures Evaluate(Or(left, right), row, page) == True <==>
            Evaluate(left, row, page) == True || Evaluate(right, row, page) == True
  {
  }

  lemma {:induction false} ConditionsMeaning(usedFields: seq<string>, fields: Fields, types: SortingTypes, from: Row,
                                             page: Row, row: Row, n: nat)
    requires Named(usedFields, fields, types) && 0 < n <= |usedFields| && IsPageOf(usedFields, fields, from, page)
    requires RowFits(usedFields, fields, types, from) && RowFits(usedFields, fields, types, row)
    ensures Evaluate(AnyOf(Conditions(usedFields, fields, types, true, n)), row, page) == True <==>
              exists i :: 0 <= i < n && FollowsAt(usedFields, fields, types, from, row, i)
  {
    hide SafeColumnName, FollowsAt, ConditionAt, Cell, IsPageOf, RowFits, Evaluate;
    var conditions := Conditions(usedFields, fields, types, true, n);
    ConditionMeaning(usedFields, fields, types, from, page, row, n - 1);
    if n > 1 {
      ConditionsMeaning(usedFields, fields, types, from, page, row, n - 1);
      assert conditions[..n - 1] == Conditions(usedFields, fields, types, true, n - 1);
      OrIsTrue(AnyOf(conditions[..n - 1]), conditions[n - 1], row, page);
    }
  }

  /** The given values are those of `from`, and no column in use is NULL. */
  ghost predicate AreValuesOf(usedFields: seq<string>, fields: Fields, from: Row, fromValues: Row)
    requires forall f :: f in usedFields ==> f in fields
  {
    forall f :: f in usedFields ==> Cell(fromValues, f) == Cell(from, fields[f].column) && Cell(fromValues, f).Value?
  }

  lemma {:induction false} BoundPrefixMeaning(usedFields: seq<string>, fields: Fields, from: Row, fromValues: Row,
                                              row: Row, n: nat)
    requires 0 < n <= |usedFields| && (forall f :: f in usedFields ==> f in fields)
    requires AreValuesOf(usedFields, fields, from, fromValues)
    ensures var prefix := PrefixAt(usedFields, fields, false, n).value;
            && Placeholders(prefix) == n
            && (Evaluate(Bind(prefix, ValuesUpTo(usedFields, fromValues, n)), row, map[]) == True <==>
                  AgreeBefore(usedFields, fields, from, row, n))
  {
    var field := usedFields[n - 1];
    var equal := Equal(fields[field].column, Placeholder);
    var before, part := ValuesUpTo(usedFields, fromValues, n - 1), [Cell(fromValues, field)];
    EqualMeaning(fields[field].column, Cell(fromValues, field), row);
    assert ValuesUpTo(usedFields, fromValues, n) == before + part;
    hide Cell, FieldEquals, Evaluate, Bind, Placeholders;
    if n > 1 {
      BoundPrefixMeaning(usedFields, fields, from, fromValues, row, n - 1);
      AndOfBound(PrefixAt(usedFields, fields, false, n - 1).value, equal, before, part, row);
    } else {
      assert before + part == part;
    }
  }

  lemma EqualMeaning(column: string, value: Value, row: Row)
    requires value.Value?
    ensures var equal := FieldEquals("", column, false);
            && Placeholders(equal) == 1
            && (Evaluate(Bind(equal, [value]), row, map[]) == True <==> Cell(row, column) == value)
  {
  }

  lemma AndOfBound(left: Condition, right: Condition, before: seq<Value>, part: seq<Value>, row: Row)
    requires |before| == Placeholders(left) && |part| == Placeholders(right)
    ensures Placeholders(And(left, right)) == |before + part|
    ensures Evaluate(Bind(And(left, right), before + part), row, map[]) == True <==>
              Evaluate(Bind(left, before), row, map[]) == True && Evaluate(Bind(right, part), row, map[]) == True
  {
    var values := before + part;
    assert values[..|before|] == before && values[|before|..] == part;
  }

  lemma BoundConditionMeaning(usedFields: seq<string>, fields: Fields, types: SortingTypes, from: Row, fromValues: Row,
                              row: Row, i: nat)
    requires Named(usedFields, fields, types) && i < |usedFields| && AreValuesOf(usedFields, fields, from, fromValues)
    requires forall f :: f in usedFields ==> Cell(row, fields[f].column).Value?
    ensures var condition := ConditionAt(usedFields, fields, types, false, i);
            && Placeholders(condition) == i + 1
            && (Evaluate(Bind(condition, ValuesUpTo(usedFields, fromValues, i + 1)), row, map[]) == True <==>
                  FollowsAt(usedFields, fields, types, from, row, i))
  {
    var field := usedFields[i];
    var follows := FieldFollows(field, fields[field].column, types[field], false);
    var before, part := ValuesUpTo(usedFields, fromValues, i), [Cell(fromValues, field)];
    var column := fields[field].column;
    assert Placeholders(follows) == 1 && ValuesUpTo(usedFields, fromValues, i + 1) == before + part;
    assert Evaluate(Bind(follows, part), row, map[]) == True <==>
           ComesBefore(types[field], Cell(from, column), Cell(row, column));
    hide Cell, FieldFollows, Evaluate, Bind, Placeholders, ComesBefore;
    if i > 0 {
      BoundPrefixMeaning(usedFields, fields, from, fromValues, row, i);
      AndOfBound(PrefixAt(usedFields, fields, false, i).value, follows, before, part, row);
    } else {
      assert before + part == part;
    }
    assert FollowsAt(usedFields, fields, types, from, row, i) <==>
             AgreeBefore(usedFields, fields, from, row, i) &&
               ComesBefore(types[field], Cell(from, column), Cell(row, column));
  }

  lemma {:induction false} BoundConditionsMeaning(usedFields: seq<string>, fields: Fields, types: SortingTypes,
                                                  from: Row, fromValues: Row, row: Row, n: nat)
    requires Named(usedFields, fields, types) && 0 < n <= |usedFields|
    requires AreValuesOf(usedFields, fields, from, fromValues)
    requires forall f :: f in usedFields ==> Cell(row, fields[f].column).Value?
    ensures var condition := AnyOf(Conditions(usedFields, fields, types, false, n));
            && Placeholders(condition) == |QueryValues(usedFields, fromValues, n)|
            && (Evaluate(Bind(condition, QueryValues(usedFields, fromValues, n)), row, map[]) == True <==>
                  exists i :: 0 <= i < n && FollowsAt(usedFields, fields, types, from, row, i))
  {
    hide FollowsAt, ConditionAt, Evaluate, Bind, Placeholders, Cell;
    var conditions := Conditions(usedFields, fields, types, false, n);
    var before, part := QueryValues(usedFields, fromValues, n - 1), ValuesUpTo(usedFields, fromValues, n);
    BoundConditionMeaning(usedFields, fields, types, from, fromValues, row, n - 1);
    if n == 1 {
      assert QueryValues(usedFields, fromValues, 1) == before + part == part;
    } else {
      BoundConditionsMeaning(usedFields, fields, types, from, fromValues, row, n - 1);
      assert conditions[..n - 1] == Conditions(usedFields, fields, types, false, n - 1);
      OrOfBound(AnyOf(conditions[..n - 1]), conditions[n - 1], before, part, row);
    }
  }

  lemma {:induction false} CountPrefixPlaceholders(usedFields: seq<string>, fields: Fields, n: nat)
    requires 0 < n <= |usedFields| && (forall f :: f in usedFields ==> f in fields)
    ensures Placeholders(PrefixAt(usedFields, fields, false, n).value) == n
  {
    if n > 1 {
      CountPrefixPlaceholders(usedFields, fields, n - 1);
    }
  }

  /** As many values are passed as there are placeholders. */
  lemma {:induction false} CountPlaceholders(usedFields: seq<string>, fields: Fields, types: SortingTypes,
                                             fromValues: Row, n: nat)
    requires Named(usedFields, fields, types) && 0 < n <= |usedFields|
    ensures Placeholders(AnyOf(Conditions(usedFields, fields, types, false, n))) ==
            |QueryValues(usedFields, fromValues, n)|
  {
    var conditions := Conditions(usedFields, fields, types, false, n);
    CountConditionPlaceholders(usedFields, fields, types, n - 1);
    hide ConditionAt, Placeholders, Cell;
    if n > 1 {
      CountPlaceholders(usedFields, fields, types, fromValues, n - 1);
      assert conditions[..n - 1] == Conditions(usedFields, fields, types, false, n - 1);
      CountInOr(AnyOf(conditions[..n - 1]), conditions[n - 1]);
    } else {
      assert QueryValues(usedFields, fromValues, 0) == [];
    }
  }

  lemma CountInOr(left: Condition, right: Condition)
    ensures Placeholders(Or(left, right)) == Placeholders(left) + Placeholders(right)
  {
  }

  lemma CountConditionPlaceholders(usedFields: seq<string>, fields: Fields, types: SortingTypes, i: nat)
    requires Named(usedFields, fields, types) && i < |usedFields|
    ensures Placeholders(ConditionAt(usedFields, fields, types, false, i)) == i + 1
  {
    if i > 0 {
      CountPrefixPlaceholders(usedFields, fields, i);
    }
    hide PrefixAt;
  }

  lemma OrOfBound(left: Condition, right: Condition, before: seq<Value>, part: seq<Value>, row: Row)
    requires |before| == Placeholders(left) && |part| == Placeholders(right)
    ensures Placeholders(Or(left, right)) == |before + part|
    ensures Evaluate(Bind(Or(left, right), before + part), row, map[]) == True <==>
              Evaluate(Bind(left, before), row, map[]) == True || Evaluate(Bind(right, part), row, map[]) == True
  {
    var values := before + part;
    assert values[..|before|] == before && values[|before|..] == part;
  }

  /** The generated condition is true of a row exactly when the generated ORDER BY puts it after the row to start
      from. */
  lemma SubQueryPagingIsExact(usedFields: seq<string>, fields: Fields, types: SortingTypes, from: Row, page: Row,
                              row: Row)
    requires Named(usedFields, fields, types) && usedFields != [] && IsPageOf(usedFields, fields, from, page)
    requires RowFits(usedFields, fields, types, from) && RowFits(usedFields, fields, types, row)
    ensures Evaluate(AnyOf(Conditions(usedFields, fields, types, true, |usedFields|)), row, page) == True <==>
              Precedes(OrderKeys(usedFields, fields, types), from, row)
  {
    ConditionsMeaning(usedFields, fields, types, from, page, row, |usedFields|);
    OrderMeaning(usedFields, fields, types, from, row);
  }

  /** The same for the condition with values, each of which meets the placeholder of its own field. */
  lemma ValuePagingIsExact(usedFields: seq<string>, fields: Fields, types: SortingTypes, from: Row, fromValues: Row,
                           row: Row)
    requires Named(usedFields, fields, types) && usedFields != [] && AreValuesOf(usedFields, fields, from, fromValues)
    requires forall f :: f in usedFields ==> Cell(row, fields[f].column).Value?
    ensures var condition := AnyOf(Conditions(usedFields, fields, types, false, |usedFields|));
            var values := QueryValues(usedFields, fromValues, |usedFields|);
            && |values| == Placeholders(condition)
            && (Evaluate(Bind(condition, values), row, map[]) == True <==>
                Precedes(OrderKeys(usedFields, fields, types), from, row))
  {
    BoundConditionsMeaning(usedFields, fields, types, from, fromValues, row, |usedFields|);
    OrderMeaning(usedFields, fields, types, from, row);
  }
}
