/** Sorting rules: what "sort" statements such as "-name$,id" mean, and which of them are refused. */
module SortingRules {
  import opened Collections

  // ---------- Sort statements ----------

  datatype Direction = Asc | Desc

  datatype Placement = Unplaced | First | Last

  datatype SortingType = SortingType(direction: Direction, placement: Placement)

  datatype Field = Field(column: string, nullable: bool)

  type Fields = map<string, Field>

  type SortingTypes = map<string, SortingType>

  datatype SortingError = UsedTwice(field: string) | Unallowed(field: string) | NotNullable(field: string)

  datatype Rules = Ok(usedFields: seq<string>, types: SortingTypes) | Err(error: SortingError)

  function Split(s: string, separator: char): (parts: seq<string>)
    ensures parts != [] && forall p :: p in parts ==> separator !in p
  {
    if s == "" then [""]
    else
      var rest := Split(s[1..], separator);
      if s[0] == separator then [""] + rest else [[s[0]] + rest[0]] + rest[1..]
  }

  function Join(parts: seq<string>, separator: char): string
    requires parts != []
  {
    if |parts| == 1 then parts[0] else parts[0] + [separator] + Join(parts[1..], separator)
  }

  lemma {:induction false} SplitThenJoin(s: string, separator: char)
    ensures Join(Split(s, separator), separator) == s
  {
    if s != "" {
      SplitThenJoin(s[1..], separator);
      var rest := Split(s[1..], separator);
      if s[0] == separator {
        assert ([""] + rest)[1..] == rest;
      } else {
        var parts := [[s[0]] + rest[0]] + rest[1..];
        if |rest| > 1 {
          assert parts[1..] == rest[1..];
        }
      }
    }
  }

  datatype Statement = Statement(field: string, sorting: SortingType)

  /** "id", "-name", "-date$" */
  function ParseStatement(s: string): Statement {
    var descending := |s| > 0 && s[0] == '-';
    var unsigned := if descending then s[1..] else s;
    var nullsLast := |unsigned| > 0 && unsigned[|unsigned| - 1] == '$';
    Statement(if nullsLast then unsigned[..|unsigned| - 1] else unsigned,
              SortingType(if descending then Desc else Asc, if nullsLast then Last else Unplaced))
  }

  function RenderStatement(s: Statement): string {
    (if s.sorting.direction == Desc then "-" else "") + s.field + (if s.sorting.placement == Last then "$" else "")
  }

  /** Every statement is what its meaning is written as. */
  lemma ParseThenRender(s: string)
    ensures RenderStatement(ParseStatement(s)) == s
  {
    var unsigned := if |s| > 0 && s[0] == '-' then s[1..] else s;
    assert s == (if |s| > 0 && s[0] == '-' then "-" else "") + unsigned;
    if |unsigned| > 0 && unsigned[|unsigned| - 1] == '$' {
      assert unsigned == unsigned[..|unsigned| - 1] + "$";
    }
  }

  /** A name must not begin or end like a sign it does not carry. */
  predicate ReadsAs(t: Statement) {
    var named := t.field + (if t.sorting.placement == Last then "$" else "");
    && (t.sorting.direction == Asc ==> named == "" || named[0] != '-')
    && (t.sorting.placement == Unplaced ==> t.field == "" || t.field[|t.field| - 1] != '$')
  }

  lemma RenderThenParse(t: Statement)
    requires t.sorting.placement != First
    ensures ParseStatement(RenderStatement(t)) == t <==> ReadsAs(t)
  {
    var named := t.field + (if t.sorting.placement == Last then "$" else "");
    var text := RenderStatement(t);
    assert t.sorting.direction == Desc ==> text[1..] == named;
    assert t.sorting.direction == Asc ==> text == named;
    assert t.sorting.placement == Last ==> named[..|named| - 1] == t.field && named[|named| - 1] == '$';
    if t.sorting.placement == Unplaced {
      assert named == t.field;
    }
  }

  // ---------- Sorting rules ----------

  function FieldAt(statements: seq<string>, i: nat): string
    requires i < |statements|
  {
    ParseStatement(statements[i]).field
  }

  predicate IsNamedBefore(statements: seq<string>, i: nat, field: string)
    requires i <= |statements|
  {
    exists j: nat :: j < i && FieldAt(statements, j) == field
  }

  /** validateSortingField, given that no earlier statement is wrong */
  function StatementError(statements: seq<string>, i: nat, fields: Fields): Option<SortingError>
    requires i < |statements|
  {
    var s := ParseStatement(statements[i]);
    if IsNamedBefore(statements, i, s.field) then Some(UsedTwice(s.field))
    else if s.field !in fields then Some(Unallowed(s.field))
    else if !fields[s.field].nullable && s.sorting.placement != Unplaced then Some(NotNullable(s.field))
    else None
  }

  predicate IsFirstError(statements: seq<string>, i: nat, fields: Fields, error: SortingError)
    requires i < |statements|
  {
    StatementError(statements, i, fields) == Some(error) && forall j: nat :: j < i ==>
      StatementError(statements, j, fields) == None
  }

  ghost predicate IsRefused(statements: seq<string>, fields: Fields, error: SortingError) {
    exists i: nat :: i < |statements| && IsFirstError(statements, i, fields, error)
  }

  /** NULLs come first where nothing else is said. */
  function Placed(s: SortingType, nullable: bool): SortingType {
    if nullable && s.placement == Unplaced then s.(placement := First) else s
  }

  /** The panics of mustHaveValidTieBreakerFieldsList */
  predicate ValidTieBreakers(fields: Fields, tieBreakers: set<string>) {
    forall f :: f in tieBreakers ==> f in fields && !fields[f].nullable
  }

  /** Byte-wise order of strings */
  predicate LessThan(a: string, b: string) {
    b != "" && (a == "" || a[0] < b[0] || (a[0] == b[0] && LessThan(a[1..], b[1..])))
  }

  lemma {:induction false} StringsAreOrdered(a: string, b: string, c: string)
    ensures !LessThan(a, a)
    ensures a == b || LessThan(a, b) || LessThan(b, a)
    ensures LessThan(a, b) && LessThan(b, c) ==> LessThan(a, c)
  {
    if a != "" {
      StringsAreOrdered(a[1..], if b == "" then "" else b[1..], if c == "" then "" else c[1..]);
      if b != "" && a[0] == b[0] && a[1..] == b[1..] {
        assert a == [a[0]] + a[1..] && b == [b[0]] + b[1..];
      }
    }
  }

  predicate IsSorted(names: seq<string>) {
    forall i, j :: 0 <= i < j < |names| ==> LessThan(names[i], names[j])
  }

  /** Whatever the order in which the map of tie-breakers is iterated, sorting makes it one list. */
  lemma {:induction false} SortedListsAreEqual(a: seq<string>, b: seq<string>)
    requires IsSorted(a) && IsSorted(b) && forall n :: n in a <==> n in b
    ensures a == b
  {
    if a == [] {
      assert forall i :: 0 <= i < |b| ==> b[i] in a;
    } else {
      assert a[0] in a && a[0] in b && b[0] in b && b[0] in a;
      StringsAreOrdered(a[0], b[0], a[0]);
      StringsAreOrdered(b[0], a[0], b[0]);
      assert a[0] == b[0];
      forall n
        ensures n in a[1..] <==> n in b[1..]
      {
        StringsAreOrdered(n, n, n);
        assert n in a <==> n in b;
        assert n in a <==> n == a[0] || n in a[1..] by { assert a == [a[0]] + a[1..]; }
        assert n in b <==> n == b[0] || n in b[1..] by { assert b == [b[0]] + b[1..]; }
      }
      SortedListsAreEqual(a[1..], b[1..]);
    }
  }

  predicate NoneTwice<T(==)>(s: seq<T>) {
    forall i, j :: 0 <= i < j < |s| ==> s[i] != s[j]
  }

  /** What follows relies on: all tie-breakers are used, nothing is used twice, exactly the nullable fields have a
      placement. */
  ghost predicate IsPlan(usedFields: seq<string>, types: SortingTypes, fields: Fields, tieBreakers: set<string>) {
    && NoneTwice(usedFields)
    && (forall f :: f in usedFields ==>
        f in fields && f in types && (fields[f].nullable <==> types[f].placement != Unplaced))
    && (forall f :: f in tieBreakers ==> f in usedFields)
  }

  /** sort.Strings, one insertion at a time */
  method Insert(names: seq<string>, name: string) returns (longer: seq<string>)
    requires IsSorted(names) && name !in names
    ensures IsSorted(longer) && |longer| == |names| + 1 && forall n :: n in longer <==> n in names || n == name
  {
    var i := 0;
    while i < |names| && LessThan(names[i], name)
      invariant 0 <= i <= |names|
      invariant forall j :: 0 <= j < i ==> LessThan(names[j], name)
    {
      i := i + 1;
    }
    forall j | i <= j < |names|
      ensures LessThan(name, names[j])
    {
      StringsAreOrdered(names[i], name, names[j]);
      StringsAreOrdered(name, names[i], names[j]);
    }
    longer := names[..i] + [name] + names[i..];
    assert names == names[..i] + names[i..];
  }

  /** The tie-breakers no statement names, in byte-wise order */
  method TieBreakersToAdd(named: set<string>, tieBreakers: set<string>) returns (names: seq<string>)
    ensures IsSorted(names) && forall n :: n in names <==> n in tieBreakers - named
  {
    names := [];
    var rest := tieBreakers;
    while rest != {}
      invariant rest <= tieBreakers && IsSorted(names)
      invariant forall n :: n in names <==> n in (tieBreakers - rest) - named
      decreases rest
    {
      var f :| f in rest;
      if f !in named {
        names := Insert(names, f);
      }
      rest := rest - {f};
    }
  }

  ghost predicate AreRead(statements: seq<string>, n: nat, fields: Fields, usedFields: seq<string>, types: SortingTypes)
    requires n <= |statements|
  {
    && |usedFields| == n
    && (forall i :: 0 <= i < n ==>
        StatementError(statements, i, fields) == None && usedFields[i] == FieldAt(statements, i))
    && (forall f :: f in types <==> f in usedFields)
    && (forall i :: 0 <= i < n ==>
          usedFields[i] in fields && usedFields[i] in types &&
          types[usedFields[i]] == Placed(ParseStatement(statements[i]).sorting, fields[usedFields[i]].nullable))
  }

  /** The statements in their order, then the missing tie-breakers sorted ascending; or the error of the first wrong
      statement. */
  ghost predicate AreRules(statements: seq<string>, fields: Fields, tieBreakers: set<string>, rules: Rules) {
    match rules
    case Err(e) => IsRefused(statements, fields, e)
    case Ok(usedFields, types) =>
      var n := |statements|;
      && n <= |usedFields|
      && (forall i :: 0 <= i < n ==>
            && StatementError(statements, i, fields) == None && usedFields[i] == FieldAt(statements, i)
            && usedFields[i] in fields && usedFields[i] in types
            && types[usedFields[i]] == Placed(ParseStatement(statements[i]).sorting, fields[usedFields[i]].nullable))
      && IsSorted(usedFields[n..])
      && (forall f :: f in usedFields[n..] <==> f in tieBreakers && !IsNamedBefore(statements, n, f))
      && forall f :: f in usedFields[n..] ==> f in types && types[f] == SortingType(Asc, Unplaced)
  }

  method ParseSortingRules(sortingRules: string, fields: Fields, tieBreakers: set<string>) returns (rules: Rules)
    requires ValidTieBreakers(fields, tieBreakers)
    ensures AreRules(Split(sortingRules, ','), fields, tieBreakers, rules)
    ensures rules.Ok? ==> IsPlan(rules.usedFields, rules.types, fields, tieBreakers)
  {
    var statements := Split(sortingRules, ',');
    hide Split, AreRead, IsPlan, IsSorted, IsRefused, IsFirstError;
    var usedFields, types := [], map[];
    NothingIsRead(statements, fields);
    for n := 0 to |statements|
      invariant AreRead(statements, n, fields, usedFields, types)
    {
      var s := ParseStatement(statements[n]);
      NamedAreUsed(statements, n, fields, usedFields, types, s.field);
      ReadOneMore(statements, n, fields, usedFields, types);
      if s.field in types {
        return Err(UsedTwice(s.field));
      }
      if s.field !in fields {
        return Err(Unallowed(s.field));
      }
      if !fields[s.field].nullable && s.sorting.placement != Unplaced {
        return Err(NotNullable(s.field));
      }
      types := types[s.field := Placed(s.sorting, fields[s.field].nullable)];
      usedFields := usedFields + [s.field];
    }
    var toAdd := TieBreakersToAdd(types.Keys, tieBreakers);
    var added := map f | f in toAdd :: SortingType(Asc, Unplaced);
    PlanIsMade(statements, fields, tieBreakers, usedFields, types, toAdd, added);
    RulesAreRead(statements, fields, tieBreakers, usedFields, types, toAdd, added);
    rules := Ok(usedFields + toAdd, types + added);
  }

  lemma NothingIsRead(statements: seq<string>, fields: Fields)
    ensures AreRead(statements, 0, fields, [], map[])
  {
  }

  lemma ReadOneMore(statements: seq<string>, n: nat, fields: Fields, usedFields: seq<string>, types: SortingTypes)
    requires n < |statements| && AreRead(statements, n, fields, usedFields, types)
    ensures match StatementError(statements, n, fields)
            case Some(e) => IsRefused(statements, fields, e)
            case None =>
              var s := ParseStatement(statements[n]);
              && s.field in fields
              && AreRead(statements, n + 1, fields, usedFields + [s.field],
                         types[s.field := Placed(s.sorting, fields[s.field].nullable)])
  {
    var error := StatementError(statements, n, fields);
    var s := ParseStatement(statements[n]);
    if error.Some? {
      assert IsFirstError(statements, n, fields, error.value);
    } else {
      NamedAreUsed(statements, n, fields, usedFields, types, s.field);
    }
  }

  lemma NamedAreUsed(statements: seq<string>, n: nat, fields: Fields, usedFields: seq<string>, types: SortingTypes,
                     field: string)
    requires n <= |statements| && AreRead(statements, n, fields, usedFields, types)
    ensures field in types <==> IsNamedBefore(statements, n, field)
  {
    if field in usedFields {
      var i :| 0 <= i < n && usedFields[i] == field;
      assert FieldAt(statements, i) == field;
    }
    if IsNamedBefore(statements, n, field) {
      var j: nat :| j < n && FieldAt(statements, j) == field;
      assert usedFields[j] == field;
    }
  }

  lemma PlanIsMade(statements: seq<string>, fields: Fields, tieBreakers: set<string>, usedFields: seq<string>,
                   types: SortingTypes, toAdd: seq<string>, added: SortingTypes)
    requires ValidTieBreakers(fields, tieBreakers) && AreRead(statements, |statements|, fields, usedFields, types)
    requires IsSorted(toAdd) && forall n :: n in toAdd <==> n in tieBreakers - types.Keys
    requires added == map f | f in toAdd :: SortingType(Asc, Unplaced)
    ensures IsPlan(usedFields + toAdd, types + added, fields, tieBreakers)
  {
    hide LessThan;
    var n := |usedFields|;
    forall i, j | 0 <= i < j < n
      ensures usedFields[i] != usedFields[j]
    {
      assert FieldAt(statements, i) == usedFields[i] && StatementError(statements, j, fields) == None;
    }
    forall i, j | 0 <= i < j < |toAdd|
      ensures toAdd[i] != toAdd[j]
    {
      StringsAreOrdered(toAdd[i], toAdd[i], toAdd[i]);
    }
    assert forall j :: 0 <= j < |toAdd| ==> toAdd[j] in toAdd;
    forall i | 0 <= i < n
      ensures fields[usedFields[i]].nullable <==> types[usedFields[i]].placement != Unplaced
    {
      assert StatementError(statements, i, fields) == None;
    }
    hide AreRead, StatementError, IsSorted;
    assert NoneTwice(usedFields + toAdd);
  }

  lemma RulesAreRead(statements: seq<string>, fields: Fields, tieBreakers: set<string>, usedFields: seq<string>,
                     types: SortingTypes, toAdd: seq<string>, added: SortingTypes)
    requires AreRead(statements, |statements|, fields, usedFields, types)
    requires IsSorted(toAdd) && forall n :: n in toAdd <==> n in tieBreakers - types.Keys
    requires added == map f | f in toAdd :: SortingType(Asc, Unplaced)
    ensures AreRules(statements, fields, tieBreakers, Ok(usedFields + toAdd, types + added))
  {
    forall f
      ensures f in types <==> IsNamedBefore(statements, |statements|, f)
    {
      NamedAreUsed(statements, |statements|, fields, usedFields, types, f);
    }
    hide IsSorted, StatementError, IsNamedBefore;
    assert (usedFields + toAdd)[|statements|..] == toAdd;
  }
}
