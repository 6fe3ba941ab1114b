/** Conversion of a database row into nested JSON: keys such as "user__id" are paths, and sub-maps without a value
    become nil. */
module JsonConversion {
  import opened Collections

  datatype Json = Nil | Text(text: string) | Other(id: int) | Map(fields: map<string, Json>)

  /** A column value; `Other` stands for what is passed on as it is. */
  datatype DbValue = DbNull | DbInt64(number: int) | DbString(text: string) | DbOther(id: int)

  type Path = seq<string>

  // ---------- Keys ----------

  /** strings.Split(key, "__") */
  function SplitKey(key: string): (path: Path)
    ensures path != []
  {
    if key == "" then [""]
    else if |key| > 1 && key[0] == '_' && key[1] == '_' then [""] + SplitKey(key[2..])
    else
      var rest := SplitKey(key[1..]);
      [[key[0]] + rest[0]] + rest[1..]
  }

  function JoinPath(path: Path): string
    requires path != []
  {
    if |path| == 1 then path[0] else path[0] + "__" + JoinPath(path[1..])
  }

  /** No two keys have the same path. */
  lemma {:induction false} SplitThenJoin(key: string)
    ensures JoinPath(SplitKey(key)) == key
  {
    hide JoinPath;
    if key == "" {
      JoinOne("");
    } else if |key| > 1 && key[0] == '_' && key[1] == '_' {
      SplitThenJoin(key[2..]);
      JoinSeparated(SplitKey(key[2..]));
      assert key == "__" + key[2..];
    } else {
      SplitThenJoin(key[1..]);
      JoinLonger(key[0], SplitKey(key[1..]));
      assert key == [key[0]] + key[1..];
    }
  }

  lemma JoinOne(part: string)
    ensures JoinPath([part]) == part
  {
  }

  lemma JoinSeparated(path: Path)
    requires path != []
    ensures JoinPath([""] + path) == "__" + JoinPath(path)
  {
    assert ([""] + path)[1..] == path;
  }

  lemma JoinLonger(c: char, path: Path)
    requires path != []
    ensures JoinPath([[c] + path[0]] + path[1..]) == [c] + JoinPath(path)
  {
    var longer := [[c] + path[0]] + path[1..];
    assert longer[1..] == path[1..];
    if |path| > 1 {
      assert JoinPath(longer) == [c] + path[0] + "__" + JoinPath(path[1..]);
    }
  }

  ghost predicate HasSeparator(part: string) {
    exists i :: 0 < i < |part| && part[i - 1] == '_' && part[i] == '_'
  }

  predicate EndsInUnderscore(part: string) {
    part != "" && part[|part| - 1] == '_'
  }

  /** Parts found by cutting at separators from the left: none holds a separator, and only the last may end in an
      underscore. */
  ghost predicate IsSplit(path: Path) {
    && path != []
    && (forall k :: 0 <= k < |path| ==> !HasSeparator(path[k]))
    && (forall k :: 0 <= k < |path| - 1 ==> !EndsInUnderscore(path[k]))
  }

  /** The path of a key is the only split path that the key is joined from. */
  lemma PathIsUnique(key: string, path: Path)
    ensures path == SplitKey(key) <==> IsSplit(path) && JoinPath(path) == key
  {
    SplitThenJoin(key);
    PartsAreSplit(key);
    if IsSplit(path) {
      JoinThenSplit(path);
    }
  }

  lemma {:induction false} PartsAreSplit(key: string)
    ensures IsSplit(SplitKey(key))
    ensures SplitKey(key)[0] != "" ==> key != "" && SplitKey(key)[0][0] == key[0]
    ensures SplitKey(key)[0] == "" && |SplitKey(key)| > 1 ==> key != "" && key[0] == '_'
  {
    if key == "" {
    } else if |key| > 1 && key[0] == '_' && key[1] == '_' {
      PartsAreSplit(key[2..]);
    } else {
      PartsAreSplit(key[1..]);
      SplitWithLonger(key[0], SplitKey(key[1..]));
    }
  }

  lemma SplitWithLonger(c: char, path: Path)
    requires IsSplit(path)
    requires c == '_' && path[0] != "" ==> path[0][0] != '_'
    requires c == '_' && path[0] == "" ==> |path| == 1
    ensures IsSplit([[c] + path[0]] + path[1..])
  {
    var part, longer := [c] + path[0], [[c] + path[0]] + path[1..];
    assert !HasSeparator(part) by {
      assert !HasSeparator(path[0]) && part[1..] == path[0];
      assert forall i :: 0 < i < |part| ==> part[i] == path[0][i - 1];
    }
    assert forall k :: 0 < k < |path| ==> longer[k] == path[k];
    assert |path| > 1 ==> !EndsInUnderscore(path[0]);
  }

  lemma {:induction false} JoinThenSplit(path: Path)
    requires IsSplit(path)
    ensures SplitKey(JoinPath(path)) == path
    decreases |path|, |path[0]|
  {
    if path[0] != "" {
      var c, shorter := path[0][0], [path[0][1..]] + path[1..];
      ShorterIsSplit(path);
      JoinThenSplit(shorter);
      JoinLonger(c, shorter);
      assert [c] + shorter[0] == path[0] && [[c] + shorter[0]] + shorter[1..] == path;
      var key := JoinPath(path);
      assert key[1..] == JoinPath(shorter);
    } else if |path| > 1 {
      JoinThenSplit(path[1..]);
      JoinSeparated(path[1..]);
      assert path == [""] + path[1..] && JoinPath(path)[2..] == JoinPath(path[1..]);
    } else {
      assert path == [""];
    }
  }

  /** Without its first character the path is still split, and what follows that character completes no separator. */
  lemma ShorterIsSplit(path: Path)
    requires IsSplit(path) && path[0] != ""
    ensures var shorter := [path[0][1..]] + path[1..];
            && IsSplit(shorter)
            && !(JoinPath(shorter) != "" && path[0][0] == '_' && JoinPath(shorter)[0] == '_')
  {
    var part, shorter := path[0], [path[0][1..]] + path[1..];
    assert !HasSeparator(part[1..]) by {
      assert forall i :: 0 <= i < |part[1..]| ==> part[1..][i] == part[i + 1];
      assert !HasSeparator(part);
    }
    assert forall k :: 0 < k < |path| ==> shorter[k] == path[k];
    assert |path| > 1 ==> !EndsInUnderscore(part);
    if |part| > 1 {
      assert JoinPath(shorter)[0] == part[1];
      assert !HasSeparator(part);
    }
  }

  // ---------- Values ----------

  function Digits(n: nat): string {
    (if n < 10 then "" else Digits(n / 10)) + [('0' as int + n % 10) as char]
  }

  function FormatInt(n: int): string {
    if n < 0 then "-" + Digits(-n) else Digits(n)
  }

  predicate HasSuffix(s: string, suffix: string) {
    |s| >= |suffix| && s[|s| - |suffix|..] == suffix
  }

  predicate IsTimeName(name: string) {
    HasSuffix(name, "_date") || HasSuffix(name, "_at") || HasSuffix(name, "_since") || HasSuffix(name, "_until") ||
      name == "at"
  }

  /** The value stored under a name; None is a panic on what is not a time. `formatTime` parses a time and formats
      it. */
  function ConvertedValue(name: string, value: DbValue, formatTime: string -> Option<string>): Option<Json> {
    var plain := match value
      case DbNull => Nil
      case DbInt64(n) => Text(FormatInt(n))
      case DbString(text) => Text(text)
      case DbOther(id) => Other(id);
    if plain == Nil || !IsTimeName(name) then Some(plain)
    else if plain.Text? && formatTime(plain.text).Some? then Some(Text(formatTime(plain.text).value))
    else None
  }

  // ---------- What the values mean ----------

  predicate IsDigit(c: char) {
    '0' <= c <= '9'
  }

  /** The number a text stands for in base ten */
  function ParseDigits(text: string): int {
    if text == "" then 0
    else 10 * ParseDigits(text[..|text| - 1]) + (text[|text| - 1] as int - '0' as int)
  }

  /** Digits without leading zeros */
  ghost predicate IsNumeral(text: string) {
    text != "" && (forall i :: 0 <= i < |text| ==> IsDigit(text[i])) && (|text| > 1 ==> text[0] != '0')
  }

  ghost predicate IsText(text: string, n: int) {
    if n < 0 then text != "" && text[0] == '-' && IsNumeral(text[1..]) && ParseDigits(text[1..]) == -n
    else IsNumeral(text) && ParseDigits(text) == n
  }

  lemma {:induction false} DigitsMeaning(n: nat)
    ensures IsNumeral(Digits(n)) && ParseDigits(Digits(n)) == n
    ensures n > 0 ==> Digits(n)[0] != '0'
  {
    var text := Digits(n);
    if n >= 10 {
      DigitsMeaning(n / 10);
      assert text[..|text| - 1] == Digits(n / 10);
    } else {
      assert text[..0] == "";
    }
  }

  lemma FormatIntMeaning(n: int)
    ensures IsText(FormatInt(n), n)
  {
    DigitsMeaning(if n < 0 then -n else n);
    assert n < 0 ==> FormatInt(n)[1..] == Digits(-n);
  }

  ghost predicate EndsWith(name: string, suffix: string) {
    exists prefix :: name == prefix + suffix
  }

  ghost predicate NamesTime(name: string) {
    EndsWith(name, "_date") || EndsWith(name, "_at") || EndsWith(name, "_since") || EndsWith(name, "_until") ||
      name == "at"
  }

  lemma SuffixMeaning(name: string, suffix: string)
    ensures HasSuffix(name, suffix) <==> EndsWith(name, suffix)
  {
    if HasSuffix(name, suffix) {
      assert name == name[..|name| - |suffix|] + suffix;
    }
  }

  lemma TimeNameMeaning(name: string)
    ensures IsTimeName(name) <==> NamesTime(name)
  {
    hide HasSuffix, EndsWith;
    SuffixMeaning(name, "_date");
    SuffixMeaning(name, "_at");
    SuffixMeaning(name, "_since");
    SuffixMeaning(name, "_until");
  }

  /** Nil stays nil, numbers become their decimal text, and under the name of a time a text is formatted as one. */
  lemma ValueMeaning(name: string, value: DbValue, formatTime: string -> Option<string>)
    ensures var converted := ConvertedValue(name, value, formatTime);
            && (converted == Some(Nil) <==> value == DbNull)
            && (!NamesTime(name) ==> match value
                  case DbNull => true
                  case DbInt64(n) => exists text :: converted == Some(Text(text)) && IsText(text, n)
                  case DbString(text) => converted == Some(Text(text))
                  case DbOther(id) => converted == Some(Other(id)))
            && (NamesTime(name) ==> match value
                  case DbNull => true
                  case DbInt64(n) => exists text :: IsText(text, n) && converted == AsTime(formatTime(text))
                  case DbString(text) => converted == AsTime(formatTime(text))
                  case DbOther(_) => converted == None)
  {
    hide IsTimeName, NamesTime, FormatInt, IsText;
    TimeNameMeaning(name);
    if value.DbInt64? {
      FormatIntMeaning(value.number);
    }
  }

  function AsTime(formatted: Option<string>): Option<Json> {
    if formatted.Some? then Some(Text(formatted.value)) else None
  }

  // ---------- Building the tree ----------

  /** Walks down the path, making a map wherever there is none, and stores the value at its end. */
  function Insert(json: Json, path: Path, value: Json): Json
    decreases |path|
  {
    if path == [] then value else
      var fields := if json.Map? then json.fields else map[];
      var field := if path[0] in fields then fields[path[0]] else Nil;
      Map(fields[path[0] := Insert(field, path[1..], value)])
  }

  function Build(values: map<Path, Json>, order: seq<Path>): Json
    requires forall p :: p in order ==> p in values
  {
    if order == [] then Map(map[]) else
      var last := order[|order| - 1];
      Insert(Build(values, order[..|order| - 1]), last, values[last])
  }

  function LeafAt(json: Json, path: Path): Option<Json> {
    if path == [] then (if json.Map? then None else Some(json))
    else if json.Map? && path[0] in json.fields then LeafAt(json.fields[path[0]], path[1..])
    else None
  }

  predicate Conflict(p: Path, q: Path) {
    p != q && (p <= q || q <= p)
  }

  lemma {:induction false} InsertMeaning(json: Json, path: Path, value: Json, q: Path)
    requires !value.Map?
    ensures LeafAt(Insert(json, path, value), q) ==
            if q == path then Some(value) else if Conflict(path, q) then None else LeafAt(json, q)
    decreases |path|
  {
    if path != [] && q != [] {
      assert path == [path[0]] + path[1..] && q == [q[0]] + q[1..];
      if path[0] == q[0] {
        var fields := if json.Map? then json.fields else map[];
        var field := if path[0] in fields then fields[path[0]] else Nil;
        InsertMeaning(field, path[1..], value, q[1..]);
        assert path[1..] <= q[1..] <==> path <= q;
        assert q[1..] <= path[1..] <==> q <= path;
        if q[1..] == [] {
          assert path[1..] == q[1..] || Conflict(path[1..], q[1..]);
        }
      }
    }
  }

  ghost predicate NoEmptyMaps(json: Json) {
    json.Map? ==> json.fields != map[] && forall k :: k in json.fields ==> NoEmptyMaps(json.fields[k])
  }

  lemma {:induction false} InsertLeavesNoEmptyMaps(json: Json, path: Path, value: Json)
    requires !value.Map? && (NoEmptyMaps(json) || json == Map(map[]))
    ensures NoEmptyMaps(Insert(json, path, value))
    decreases |path|
  {
    if path != [] {
      var fields := if json.Map? then json.fields else map[];
      InsertLeavesNoEmptyMaps(if path[0] in fields then fields[path[0]] else Nil, path[1..], value);
      assert path[0] in Insert(json, path, value).fields;
    }
  }

  lemma {:induction false} SomeLeaf(json: Json) returns (path: Path)
    requires NoEmptyMaps(json)
    ensures LeafAt(json, path).Some?
  {
    if json.Map? {
      assert json.fields.Keys != {};
      var k := SomeElement(json.fields.Keys);
      var rest := SomeLeaf(json.fields[k]);
      path := [k] + rest;
      assert path[1..] == rest;
    } else {
      path := [];
    }
  }

  /** Without empty maps, a tree is determined by its leaves. */
  lemma {:induction false} LeavesDetermine(a: Json, b: Json)
    requires NoEmptyMaps(a) && NoEmptyMaps(b) && forall q :: LeafAt(a, q) == LeafAt(b, q)
    ensures a == b
  {
    assert LeafAt(a, []) == LeafAt(b, []);
    if a.Map? {
      SameFields(a, b);
      SameFields(b, a);
      forall k | k in a.fields
        ensures a.fields[k] == b.fields[k]
      {
        forall q
          ensures LeafAt(a.fields[k], q) == LeafAt(b.fields[k], q)
        {
          assert ([k] + q)[1..] == q && LeafAt(a, [k] + q) == LeafAt(b, [k] + q);
        }
        LeavesDetermine(a.fields[k], b.fields[k]);
      }
      assert a.fields == b.fields;
    }
  }

  lemma SameFields(a: Json, b: Json)
    requires NoEmptyMaps(a) && a.Map? && b.Map? && forall q :: LeafAt(a, q) == LeafAt(b, q)
    ensures forall k :: k in a.fields ==> k in b.fields
  {
    forall k | k in a.fields
      ensures k in b.fields
    {
      var q := SomeLeaf(a.fields[k]);
      assert ([k] + q)[1..] == q && LeafAt(a, [k] + q) == LeafAt(b, [k] + q);
    }
  }

  // ---------- What is left after all insertions ----------

  ghost predicate AreLeaves(values: map<Path, Json>) {
    forall p :: p in values ==> p != [] && !values[p].Map?
  }

  ghost predicate IsOrder(values: map<Path, Json>, order: seq<Path>) {
    (forall p :: p in order <==> p in values) && forall i, j :: 0 <= i < j < |order| ==> order[i] != order[j]
  }

  /** Stored as the `i`-th, and not in conflict with any path stored later */
  predicate Survives(order: seq<Path>, i: nat, q: Path) {
    i < |order| && order[i] == q && forall j :: i < j < |order| ==> order[j] != q && !Conflict(order[j], q)
  }

  /** The tree holds the values that survive, at their paths, and nothing else. */
  lemma {:induction false} BuildMeaning(values: map<Path, Json>, order: seq<Path>, q: Path)
    requires AreLeaves(values) && forall p :: p in order ==> p in values
    ensures (exists i: nat :: Survives(order, i, q)) ==> q in values
    ensures LeafAt(Build(values, order), q) == if exists i: nat :: Survives(order, i, q) then Some(values[q]) else None
  {
    if order != [] {
      var n := |order| - 1;
      var fewer, last := order[..n], order[n];
      BuildMeaning(values, fewer, q);
      InsertMeaning(Build(values, fewer), last, values[last], q);
      hide LeafAt, Insert, Conflict;
      if i: nat :| Survives(order, i, q) {
        assert i < n ==> Survives(fewer, i, q) && last != q && !Conflict(last, q);
      }
      if i: nat :| Survives(fewer, i, q) {
        assert last != q && !Conflict(last, q) ==> Survives(order, i, q);
      }
      assert last == q ==> Survives(order, n, q);
    }
  }

  lemma {:induction false} BuildLeavesNoEmptyMaps(values: map<Path, Json>, order: seq<Path>)
    requires AreLeaves(values) && forall p :: p in order ==> p in values
    ensures Build(values, order).Map? && (order == [] || NoEmptyMaps(Build(values, order)))
  {
    if order != [] {
      var n := |order| - 1;
      BuildLeavesNoEmptyMaps(values, order[..n]);
      InsertLeavesNoEmptyMaps(Build(values, order[..n]), order[n], values[order[n]]);
    }
  }

  ghost predicate PrefixFree(values: map<Path, Json>) {
    forall p, q :: p in values && q in values ==> !Conflict(p, q)
  }

  /** Without conflicts every value is at its path, whatever the order. */
  lemma PrefixFreeMeaning(values: map<Path, Json>, order: seq<Path>, q: Path)
    requires AreLeaves(values) && PrefixFree(values) && IsOrder(values, order)
    ensures LeafAt(Build(values, order), q) == if q in values then Some(values[q]) else None
  {
    BuildMeaning(values, order, q);
    if q in values {
      var i :| 0 <= i < |order| && order[i] == q;
      assert forall j :: 0 <= j < |order| ==> order[j] in values;
      assert Survives(order, i, q);
    }
  }

  // ---------- Sub-maps without a value ----------

  /** replaceEmptySubMapsWithNils, as it leaves a field: maps of nils only become nil, from the bottom up. */
  function Collapse(json: Json): Json {
    match json
    case Map(fields) =>
      var collapsed := map k | k in fields :: Collapse(fields[k]);
      if forall k :: k in collapsed ==> collapsed[k] == Nil then Nil else Map(collapsed)
    case _ => json
  }

  /** The whole map stays a map. */
  function Finish(json: Json): Json {
    if json.Map? then Map(map k | k in json.fields :: Collapse(json.fields[k])) else json
  }

  method ReplaceEmptySubMapsWithNils(json: Json) returns (processed: map<string, Json>, empty: bool)
    requires json.Map?
    ensures Finish(json) == Map(processed) && empty == (forall k :: k in processed ==> processed[k] == Nil)
    ensures Collapse(json) == if empty then Nil else Map(processed)
    decreases json
  {
    processed := json.fields;
    var keys := json.fields.Keys;
    while keys != {}
      invariant keys <= json.fields.Keys && processed.Keys == json.fields.Keys
      invariant forall k :: k in processed ==>
                  processed[k] == if k in keys then json.fields[k] else Collapse(json.fields[k])
      decreases keys
    {
      ghost var some := SomeElement(keys);
      var key :| key in keys;
      if json.fields[key].Map? {
        var sub, emptySub := ReplaceEmptySubMapsWithNils(json.fields[key]);
        processed := processed[key := if emptySub then Nil else Map(sub)];
      }
      keys := keys - {key};
    }
    empty := forall k | k in processed :: processed[k] == Nil;
    assert processed == map k | k in json.fields :: Collapse(json.fields[k]);
  }

  ghost predicate OnlyNils(json: Json) {
    forall q :: LeafAt(json, q).Some? ==> LeafAt(json, q).value == Nil
  }

  lemma {:induction false} CollapsesToNil(json: Json)
    ensures Collapse(json) == Nil <==> OnlyNils(json)
  {
    if json.Map? {
      forall k | k in json.fields
        ensures Collapse(json.fields[k]) == Nil <==> OnlyNils(json.fields[k])
      {
        CollapsesToNil(json.fields[k]);
      }
      if q :| LeafAt(json, q).Some? && LeafAt(json, q).value != Nil {
        assert LeafAt(json.fields[q[0]], q[1..]).value != Nil;
      }
      if k :| k in json.fields && !OnlyNils(json.fields[k]) {
        var q :| LeafAt(json.fields[k], q).Some? && LeafAt(json.fields[k], q).value != Nil;
        assert ([k] + q)[1..] == q && LeafAt(json, [k] + q) == LeafAt(json.fields[k], q);
        assert Collapse(json.fields[k]) != Nil;
        assert Collapse(json) != Nil by {
          var collapsed := map k | k in json.fields :: Collapse(json.fields[k]);
          assert k in collapsed && collapsed[k] != Nil;
        }
      } else {
        assert forall k :: k in json.fields ==> Collapse(json.fields[k]) == Nil;
      }
    } else {
      assert LeafAt(json, []) == Some(json);
    }
  }

  /** Values other than nil stay where they are, and no others appear. */
  lemma {:induction false} CollapseKeepsValues(json: Json, q: Path, value: Json)
    requires value != Nil
    ensures LeafAt(Collapse(json), q) == Some(value) <==> LeafAt(json, q) == Some(value)
    decreases |q|
  {
    CollapsesToNil(json);
    if json.Map? && q != [] && q[0] in json.fields {
      CollapseKeepsValues(json.fields[q[0]], q[1..], value);
    }
  }

  lemma FinishKeepsValues(json: Json, q: Path, value: Json)
    requires value != Nil && json.Map?
    ensures LeafAt(Finish(json), q) == Some(value) <==> LeafAt(json, q) == Some(value)
  {
    if q != [] && q[0] in json.fields {
      CollapseKeepsValues(json.fields[q[0]], q[1..], value);
    }
  }

  function NodeAt(json: Json, path: Path): Option<Json> {
    if path == [] then Some(json)
    else if json.Map? && path[0] in json.fields then NodeAt(json.fields[path[0]], path[1..])
    else None
  }

  /** A sub-map is nil, or gone with a nil map around it, exactly when all leaves under it are nil. */
  lemma {:induction false} SubMapMeaning(json: Json, path: Path)
    requires NodeAt(json, path).Some?
    ensures var before, after := NodeAt(json, path).value, NodeAt(Collapse(json), path);
            && (after.None? || after == Some(Nil) <==> OnlyNils(before))
            && (!OnlyNils(before) ==> after == Some(Collapse(before)))
    decreases |path|
  {
    CollapsesToNil(json);
    if path == [] {
    } else {
      SubMapMeaning(json.fields[path[0]], path[1..]);
      var field, rest := json.fields[path[0]], path[1..];
      if OnlyNils(json) {
        forall q
          ensures LeafAt(field, q).Some? ==> LeafAt(field, q).value == Nil
        {
          assert ([path[0]] + q)[1..] == q && LeafAt(json, [path[0]] + q) == LeafAt(field, q);
        }
        OnlyNilsBelow(field, rest);
      }
    }
  }

  lemma {:induction false} OnlyNilsBelow(json: Json, path: Path)
    requires OnlyNils(json) && NodeAt(json, path).Some?
    ensures OnlyNils(NodeAt(json, path).value)
    decreases |path|
  {
    if path != [] {
      var field := json.fields[path[0]];
      forall q
        ensures LeafAt(field, q).Some? ==> LeafAt(field, q).value == Nil
      {
        assert ([path[0]] + q)[1..] == q && LeafAt(json, [path[0]] + q) == LeafAt(field, q);
      }
      OnlyNilsBelow(field, path[1..]);
    }
  }

  // ---------- The order of insertion ----------

  /** Conflicts between nils only */
  ghost predicate HarmlessConflicts(values: map<Path, Json>) {
    forall p, q :: p in values && q in values && Conflict(p, q) ==> values[p] == Nil && values[q] == Nil
  }

  ghost predicate OrderDoesNotMatter(values: map<Path, Json>) {
    forall a, b :: IsOrder(values, a) && IsOrder(values, b) ==> Finish(Build(values, a)) == Finish(Build(values, b))
  }

  /** No value other than nil at `p` or under it */
  ghost predicate OnlyNilsUnder(json: Json, p: Path) {
    forall q :: p <= q && LeafAt(json, q).Some? ==> LeafAt(json, q).value == Nil
  }

  ghost predicate SameValues(a: Json, b: Json) {
    forall q, v :: v != Nil ==> (LeafAt(a, q) == Some(v) <==> LeafAt(b, q) == Some(v))
  }

  ghost predicate IsMatched(a: Json, b: Json, q: Path, p: Path, r: Path) {
    p <= q && p <= r && LeafAt(b, r).Some? && OnlyNilsUnder(a, p)
  }

  /** Each nil leaf of `a` lies under a path with nothing but nils in `a` and at least something in `b`. */
  ghost predicate NilsAreMatched(a: Json, b: Json) {
    forall q :: LeafAt(a, q) == Some(Nil) ==> exists p, r :: IsMatched(a, b, q, p, r)
  }

  ghost predicate SameUpToNils(a: Json, b: Json) {
    SameValues(a, b) && NilsAreMatched(a, b) && NilsAreMatched(b, a)
  }

  lemma LeafBelow(json: Json, k: string, q: Path)
    requires json.Map? && k in json.fields
    ensures LeafAt(json, [k] + q) == LeafAt(json.fields[k], q)
  {
    assert ([k] + q)[1..] == q;
  }

  lemma FieldsAreMatchedAtRoot(a: Json, b: Json, k: string)
    requires a.Map? && b.Map? && k in a.fields && k in b.fields
    requires forall q :: LeafAt(a, q) == Some(Nil) ==> exists p, r :: p != [] && IsMatched(a, b, q, p, r)
    ensures NilsAreMatched(a.fields[k], b.fields[k])
  {
    var x, y := a.fields[k], b.fields[k];
    forall q | LeafAt(x, q) == Some(Nil)
      ensures exists p, r :: IsMatched(x, y, q, p, r)
    {
      LeafBelow(a, k, q);
      var p, r :| p != [] && IsMatched(a, b, [k] + q, p, r);
      assert p[0] == k && r[0] == k;
      LeafBelow(b, k, r[1..]);
      assert r == [k] + r[1..] && p == [k] + p[1..];
      forall s | p[1..] <= s && LeafAt(x, s).Some?
        ensures LeafAt(x, s).value == Nil
      {
        LeafBelow(a, k, s);
        assert p <= [k] + s;
      }
      assert p[1..] <= q by { assert ([k] + q)[1..] == q; }
      assert IsMatched(x, y, q, p[1..], r[1..]);
    }
  }

  /** A match at the root itself needs a tree of nils only. */
  lemma FieldsAreMatched(a: Json, b: Json, k: string)
    requires a.Map? && b.Map? && k in a.fields && k in b.fields && NilsAreMatched(a, b) && !OnlyNils(a)
    ensures NilsAreMatched(a.fields[k], b.fields[k])
  {
    forall q | LeafAt(a, q) == Some(Nil)
      ensures exists p, r :: p != [] && IsMatched(a, b, q, p, r)
    {
      var p, r :| IsMatched(a, b, q, p, r);
      assert p != [];
    }
    FieldsAreMatchedAtRoot(a, b, k);
  }

  lemma FieldsHaveSameValues(a: Json, b: Json, k: string)
    requires a.Map? && b.Map? && k in a.fields && k in b.fields && SameValues(a, b)
    ensures SameValues(a.fields[k], b.fields[k])
  {
    forall q, v | v != Nil
      ensures LeafAt(a.fields[k], q) == Some(v) <==> LeafAt(b.fields[k], q) == Some(v)
    {
      LeafBelow(a, k, q);
      LeafBelow(b, k, q);
    }
  }

  /** Fields match as soon as not everything is nil, or everything nil is matched below the root. */
  lemma FieldExists(a: Json, b: Json, k: string, q: Path)
    requires a.Map? && b.Map? && k in a.fields && SameValues(a, b) && LeafAt(a.fields[k], q).Some?
    requires LeafAt(a, [k] + q) == Some(Nil) ==> exists p, r :: p != [] && IsMatched(a, b, [k] + q, p, r)
    ensures k in b.fields
  {
    LeafBelow(a, k, q);
    if LeafAt(a, [k] + q) == Some(Nil) {
      var p, r :| p != [] && IsMatched(a, b, [k] + q, p, r);
      assert p[0] == k && r[0] == k;
    } else {
      assert LeafAt(b, [k] + q).Some?;
    }
  }

  lemma {:induction false} CollapsedAlike(a: Json, b: Json)
    requires NoEmptyMaps(a) && NoEmptyMaps(b) && SameUpToNils(a, b)
    ensures Collapse(a) == Collapse(b)
  {
    CollapsesToNil(a);
    CollapsesToNil(b);
    if OnlyNils(a) || OnlyNils(b) {
      NoValues(a, b);
      NoValues(b, a);
    } else if a.Map? && b.Map? {
      FieldsOf(a, b);
      FieldsOf(b, a);
      forall k | k in a.fields
        ensures Collapse(a.fields[k]) == Collapse(b.fields[k])
      {
        FieldsAreMatched(a, b, k);
        FieldsAreMatched(b, a, k);
        FieldsHaveSameValues(a, b, k);
        CollapsedAlike(a.fields[k], b.fields[k]);
      }
      hide OnlyNils, SameUpToNils, NoEmptyMaps;
      CollapsedFieldwise(a, b);
    } else {
      LeavesAlike(a, b);
    }
  }

  lemma CollapsedFieldwise(a: Json, b: Json)
    requires a.Map? && b.Map? && a.fields.Keys == b.fields.Keys
    requires forall k :: k in a.fields ==> Collapse(a.fields[k]) == Collapse(b.fields[k])
    ensures Collapse(a) == Collapse(b) && Finish(a) == Finish(b)
  {
    hide Collapse;
    assert Finish(a).fields == Finish(b).fields;
    CollapseByFinish(a);
    CollapseByFinish(b);
  }

  lemma CollapseByFinish(json: Json)
    requires json.Map?
    ensures Collapse(json) ==
            if forall k :: k in json.fields ==> Finish(json).fields[k] == Nil then Nil else Finish(json)
  {
    var collapsed := map k | k in json.fields :: Collapse(json.fields[k]);
    assert Finish(json) == Map(collapsed);
  }

  lemma LeavesAlike(a: Json, b: Json)
    requires SameValues(a, b) && !OnlyNils(a) && !OnlyNils(b) && !(a.Map? && b.Map?)
    ensures a == b
  {
    NilHasOnlyNils();
    assert !a.Map? ==> LeafAt(a, []) == Some(a);
    assert !b.Map? ==> LeafAt(b, []) == Some(b);
    assert !a.Map? ==> LeafAt(b, []) == Some(a);
    assert !b.Map? ==> LeafAt(a, []) == Some(b);
  }

  lemma NilHasOnlyNils()
    ensures OnlyNils(Nil)
  {
    forall q: Path
      ensures LeafAt(Nil, q).Some? ==> LeafAt(Nil, q).value == Nil
    {
    }
  }

  lemma NoValues(a: Json, b: Json)
    requires SameValues(a, b) && OnlyNils(a)
    ensures OnlyNils(b)
  {
    forall q | LeafAt(b, q).Some?
      ensures LeafAt(b, q).value == Nil
    {
      var v := LeafAt(b, q).value;
      assert v != Nil ==> LeafAt(a, q) == Some(v);
    }
  }

  lemma FieldsOf(a: Json, b: Json)
    requires a.Map? && b.Map? && NoEmptyMaps(a) && SameValues(a, b) && NilsAreMatched(a, b) && !OnlyNils(a)
    ensures forall k :: k in a.fields ==> k in b.fields
  {
    forall k | k in a.fields
      ensures k in b.fields
    {
      var q := SomeLeaf(a.fields[k]);
      if LeafAt(a, [k] + q) == Some(Nil) {
        var p, r :| IsMatched(a, b, [k] + q, p, r);
        assert p != [];
      }
      FieldExists(a, b, k, q);
    }
  }

  // ---------- When the order matters ----------

  /** Both trees have the same values, and their nils are alike around each shortest path in conflict. */
  lemma OrdersAreAlike(values: map<Path, Json>, a: seq<Path>, b: seq<Path>)
    requires AreLeaves(values) && HarmlessConflicts(values) && IsOrder(values, a) && IsOrder(values, b)
    ensures SameValues(Build(values, a), Build(values, b))
    ensures forall q :: LeafAt(Build(values, a), q) == Some(Nil) ==>
              exists p, r :: p != [] && IsMatched(Build(values, a), Build(values, b), q, p, r)
  {
    hide Build, LeafAt, OnlyNilsUnder;
    forall q, v | v != Nil
      ensures LeafAt(Build(values, a), q) == Some(v) <==> LeafAt(Build(values, b), q) == Some(v)
    {
      ValueSurvives(values, a, q, v);
      ValueSurvives(values, b, q, v);
    }
    forall q | LeafAt(Build(values, a), q) == Some(Nil)
      ensures exists p, r :: p != [] && IsMatched(Build(values, a), Build(values, b), q, p, r)
    {
      BuildMeaning(values, a, q);
      var p := ShortestPrefix(values, q, |q|);
      var r := LastUnder(values, b, p);
      NilsUnderShortest(values, a, p);
      assert IsMatched(Build(values, a), Build(values, b), q, p, r);
    }
  }

  /** A value other than nil is in conflict with nothing, so it survives in every order. */
  lemma ValueSurvives(values: map<Path, Json>, order: seq<Path>, q: Path, v: Json)
    requires AreLeaves(values) && HarmlessConflicts(values) && IsOrder(values, order) && v != Nil
    ensures LeafAt(Build(values, order), q) == Some(v) <==> q in values && values[q] == v
  {
    BuildMeaning(values, order, q);
    hide LeafAt, Build;
    if q in values && values[q] == v {
      var i :| 0 <= i < |order| && order[i] == q;
      forall j | i < j < |order|
        ensures order[j] != q && !Conflict(order[j], q)
      {
        assert order[j] in values;
      }
      assert Survives(order, i, q);
    }
  }

  ghost predicate IsShortest(values: map<Path, Json>, p: Path) {
    p in values && forall s :: s in values && s <= p ==> s == p
  }

  lemma {:induction false} ShortestPrefix(values: map<Path, Json>, q: Path, n: nat) returns (p: Path)
    requires q in values && n == |q|
    ensures p <= q && IsShortest(values, p)
    decreases n
  {
    if s :| s in values && s <= q && s != q {
      p := ShortestPrefix(values, s, |s|);
    } else {
      p := q;
    }
  }

  lemma NilsUnderShortest(values: map<Path, Json>, order: seq<Path>, p: Path)
    requires AreLeaves(values) && HarmlessConflicts(values) && IsOrder(values, order) && p in values
    requires values[p] == Nil || exists s :: s in values && Conflict(p, s)
    ensures OnlyNilsUnder(Build(values, order), p)
  {
    forall q | p <= q && LeafAt(Build(values, order), q).Some?
      ensures LeafAt(Build(values, order), q).value == Nil
    {
      BuildMeaning(values, order, q);
      assert q == p || Conflict(p, q);
    }
  }

  /** The last path stored at `p` or under it survives. */
  lemma LastUnder(values: map<Path, Json>, order: seq<Path>, p: Path) returns (r: Path)
    requires AreLeaves(values) && IsOrder(values, order) && IsShortest(values, p)
    ensures p <= r && LeafAt(Build(values, order), r).Some?
  {
    var i := |order| - 1;
    var at :| 0 <= at < |order| && order[at] == p;
    while !(p <= order[i])
      invariant at <= i < |order|
      invariant forall j :: i < j < |order| ==> !(p <= order[j])
      decreases i
    {
      i := i - 1;
    }
    r := order[i];
    forall j | i < j < |order|
      ensures order[j] != r && !Conflict(order[j], r)
    {
      var s := order[j];
      assert s in values;
      if s <= r {
        PrefixesOfOne(s, p, r);
      }
    }
    assert Survives(order, i, r);
    BuildMeaning(values, order, r);
  }

  lemma PrefixesOfOne(s: Path, p: Path, r: Path)
    requires s <= r && p <= r
    ensures s <= p || p <= s
  {
  }

  lemma AnOrderEndingIn(values: map<Path, Json>, last: Path) returns (order: seq<Path>)
    requires last in values
    ensures IsOrder(values, order) && order != [] && order[|order| - 1] == last
  {
    var rest := AnOrder(values.Keys - {last});
    order := rest + [last];
  }

  lemma {:induction false} AnOrder(paths: set<Path>) returns (order: seq<Path>)
    ensures forall p :: p in order <==> p in paths
    ensures forall i, j :: 0 <= i < j < |order| ==> order[i] != order[j]
  {
    if paths == {} {
      order := [];
    } else {
      var p := SomeElement(paths);
      var rest := AnOrder(paths - {p});
      order := rest + [p];
      assert forall j :: 0 <= j < |rest| ==> rest[j] in rest;
    }
  }

  /** The result is the same for every iteration order exactly when only nils are in conflict;
      in particular when no key path is a prefix of another. */
  lemma OrderMattersExactlyForValues(values: map<Path, Json>)
    requires AreLeaves(values)
    ensures OrderDoesNotMatter(values) <==> HarmlessConflicts(values)
    ensures PrefixFree(values) ==> HarmlessConflicts(values)
  {
    if HarmlessConflicts(values) {
      forall a, b | IsOrder(values, a) && IsOrder(values, b)
        ensures Finish(Build(values, a)) == Finish(Build(values, b))
      {
        OrdersFinishAlike(values, a, b);
      }
    } else {
      var p, q :| p in values && q in values && Conflict(p, q) && !(values[p] == Nil && values[q] == Nil);
      if values[p] != Nil {
        LastOneWins(values, p, q);
      } else {
        LastOneWins(values, q, p);
      }
    }
  }

  /** Whichever of two conflicting paths is stored last wipes out the other. */
  lemma LastOneWins(values: map<Path, Json>, p: Path, q: Path)
    requires AreLeaves(values) && p in values && q in values && Conflict(p, q) && values[p] != Nil
    ensures !OrderDoesNotMatter(values)
  {
    var a := AnOrderEndingIn(values, p);
    var b := AnOrderEndingIn(values, q);
    BuildMeaning(values, a, p);
    BuildMeaning(values, b, p);
    BuildLeavesNoEmptyMaps(values, a);
    BuildLeavesNoEmptyMaps(values, b);
    assert Survives(a, |a| - 1, p);
    forall i: nat
      ensures !Survives(b, i, p)
    {
      assert b[|b| - 1] == q && (i == |b| - 1 ==> i < |b| && b[i] != p);
    }
    FinishKeepsValues(Build(values, a), p, values[p]);
    FinishKeepsValues(Build(values, b), p, values[p]);
  }

  lemma OrdersFinishAlike(values: map<Path, Json>, a: seq<Path>, b: seq<Path>)
    requires AreLeaves(values) && HarmlessConflicts(values) && IsOrder(values, a) && IsOrder(values, b)
    ensures Finish(Build(values, a)) == Finish(Build(values, b))
  {
    var x, y := Build(values, a), Build(values, b);
    BuildLeavesNoEmptyMaps(values, a);
    BuildLeavesNoEmptyMaps(values, b);
    OrderOfNothing(values, a);
    OrderOfNothing(values, b);
    if a != [] {
      OrdersAreAlike(values, a, b);
      OrdersAreAlike(values, b, a);
      hide Build, Finish;
      FinishedAlike(x, y);
    }
  }

  lemma OrderOfNothing(values: map<Path, Json>, order: seq<Path>)
    requires IsOrder(values, order)
    ensures order == [] <==> values.Keys == {}
  {
    if order != [] {
      assert order[0] in order;
    }
    if values.Keys != {} {
      var p := SomeElement(values.Keys);
      assert p in order;
    }
  }

  lemma FinishedAlike(a: Json, b: Json)
    requires a.Map? && b.Map? && NoEmptyMaps(a) && NoEmptyMaps(b) && SameValues(a, b)
    requires forall q :: LeafAt(a, q) == Some(Nil) ==> exists p, r :: p != [] && IsMatched(a, b, q, p, r)
    requires forall q :: LeafAt(b, q) == Some(Nil) ==> exists p, r :: p != [] && IsMatched(b, a, q, p, r)
    ensures Finish(a) == Finish(b)
  {
    forall k | k in a.fields
      ensures k in b.fields
    {
      var q := SomeLeaf(a.fields[k]);
      FieldExists(a, b, k, q);
    }
    forall k | k in b.fields
      ensures k in a.fields
    {
      var q := SomeLeaf(b.fields[k]);
      FieldExists(b, a, k, q);
    }
    forall k | k in a.fields
      ensures Collapse(a.fields[k]) == Collapse(b.fields[k])
    {
      FieldsAreMatchedAtRoot(a, b, k);
      FieldsAreMatchedAtRoot(b, a, k);
      FieldsHaveSameValues(a, b, k);
      CollapsedAlike(a.fields[k], b.fields[k]);
    }
    CollapsedFieldwise(a, b);
  }

  // ---------- The conversion ----------

  /** The values belong to the split paths that join to one of the keys, each converted by the last name of its path;
      only for keys on which the conversion does not panic. */
  ghost predicate AreConverted(row: map<string, DbValue>, formatTime: string -> Option<string>, keys: set<string>,
                               values: map<Path, Json>)
    requires keys <= row.Keys
  {
    && (forall path :: path in values <==> IsSplit(path) && JoinPath(path) in keys)
    && (forall path :: path in values ==> ConvertedAt(row, path, formatTime) == Some(values[path]))
  }

  function ConvertedAt(row: map<string, DbValue>, path: Path, formatTime: string -> Option<string>): Option<Json>
    requires path != [] && JoinPath(path) in row
  {
    ConvertedValue(path[|path| - 1], row[JoinPath(path)], formatTime)
  }

  /** The values other than nil in the tree are the given ones, each at its path. */
  ghost predicate HoldsValues(json: Json, values: map<Path, Json>) {
    forall q, v :: v != Nil ==> (LeafAt(json, q) == Some(v) <==> q in values && values[q] == v)
  }

  /** Inserts the converted values in the order in which the row is iterated. None is a panic. */
  method ConvertMapFromDBToJSON(row: map<string, DbValue>, formatTime: string -> Option<string>)
    returns (converted: Option<map<string, Json>>, ghost values: map<Path, Json>, ghost order: seq<Path>)
    ensures converted.None? <==>
              exists path :: IsSplit(path) && JoinPath(path) in row && ConvertedAt(row, path, formatTime).None?
    ensures converted.Some? ==>
              && AreConverted(row, formatTime, row.Keys, values) && AreLeaves(values) && IsOrder(values, order)
              && Map(converted.value) == Finish(Build(values, order))
    ensures converted.Some? && HarmlessConflicts(values) ==> HoldsValues(Map(converted.value), values)
  {
    hide SplitKey, JoinPath, IsSplit, ConvertedAt, Insert, Build, AreConverted, AreLeaves, HarmlessConflicts;
    var result := Map(map[]);
    var rest := row.Keys;
    values, order := map[], [];
    NothingConverted(row, formatTime);
    while rest != {}
      invariant rest <= row.Keys && AreConverted(row, formatTime, row.Keys - rest, values) && AreLeaves(values)
      invariant IsOrder(values, order)
      invariant result == Build(values, order) && result.Map?
      decreases rest
    {
      ghost var some := SomeElement(rest);
      var key :| key in rest;
      var path := SplitKey(key);
      PathIsUnique(key, path);
      var value := ConvertedAt(row, path, formatTime);
      if value.None? {
        return None, values, order;
      }
      ghost var done := row.Keys - rest;
      NextKey(row, formatTime, done, key, values, order, value.value);
      InsertedIsMap(result, path, value.value);
      result := Insert(result, path, value.value);
      rest := rest - {key};
      assert row.Keys - rest == done + {key};
      values, order := values[path := value.value], order + [path];
    }
    assert row.Keys - rest == row.Keys;
    AllConverted(row, formatTime, values);
    var processed, _ := ReplaceEmptySubMapsWithNils(result);
    converted := Some(processed);
    if HarmlessConflicts(values) {
      FinishedHoldsValues(values, order);
    }
  }

  lemma FinishedHoldsValues(values: map<Path, Json>, order: seq<Path>)
    requires AreLeaves(values) && HarmlessConflicts(values) && IsOrder(values, order)
    ensures HoldsValues(Finish(Build(values, order)), values)
  {
    BuildLeavesNoEmptyMaps(values, order);
    hide Build, LeafAt, Finish;
    forall q, v | v != Nil
      ensures LeafAt(Finish(Build(values, order)), q) == Some(v) <==> q in values && values[q] == v
    {
      ValueSurvives(values, order, q, v);
      FinishKeepsValues(Build(values, order), q, v);
    }
  }

  lemma NothingConverted(row: map<string, DbValue>, formatTime: string -> Option<string>)
    ensures AreConverted(row, formatTime, {}, map[]) && AreLeaves(map[]) && IsOrder(map[], [])
    ensures Build(map[], []) == Map(map[]) && row.Keys - row.Keys == {}
  {
  }

  lemma AllConverted(row: map<string, DbValue>, formatTime: string -> Option<string>, values: map<Path, Json>)
    requires AreConverted(row, formatTime, row.Keys, values)
    ensures forall path :: IsSplit(path) && JoinPath(path) in row ==> ConvertedAt(row, path, formatTime).Some?
  {
    forall path | IsSplit(path) && JoinPath(path) in row
      ensures ConvertedAt(row, path, formatTime).Some?
    {
      assert path in values;
    }
  }

  lemma InsertedIsMap(json: Json, path: Path, value: Json)
    requires json.Map? && path != []
    ensures Insert(json, path, value).Map?
  {
  }

  lemma NextKey(row: map<string, DbValue>, formatTime: string -> Option<string>, done: set<string>, key: string,
                values: map<Path, Json>, order: seq<Path>, value: Json)
    requires done <= row.Keys && key in row && key !in done && AreConverted(row, formatTime, done, values)
    requires AreLeaves(values) && IsOrder(values, order)
    requires JoinPath(SplitKey(key)) == key && ConvertedAt(row, SplitKey(key), formatTime) == Some(value)
    ensures var path := SplitKey(key);
            && AreConverted(row, formatTime, done + {key}, values[path := value])
            && AreLeaves(values[path := value]) && IsOrder(values[path := value], order + [path])
            && Build(values[path := value], order + [path]) == Insert(Build(values, order), path, value)
  {
    var path := SplitKey(key);
    ValueIsLeaf(row, path, formatTime);
    hide SplitKey, JoinPath, ConvertedAt;
    assert path !in values;
    BuildOneMore(values, order, path, value);
    hide Insert, Build, IsOrder, AreConverted;
    ConvertedOneMore(row, formatTime, done, key, values, value);
  }

  lemma ConvertedOneMore(row: map<string, DbValue>, formatTime: string -> Option<string>, done: set<string>,
                         key: string, values: map<Path, Json>, value: Json)
    requires done <= row.Keys && key in row && AreConverted(row, formatTime, done, values)
    requires JoinPath(SplitKey(key)) == key && ConvertedAt(row, SplitKey(key), formatTime) == Some(value)
    ensures AreConverted(row, formatTime, done + {key}, values[SplitKey(key) := value])
  {
    hide SplitKey, JoinPath, ConvertedAt;
    var path, more := SplitKey(key), values[SplitKey(key) := value];
    forall p
      ensures p in more <==> IsSplit(p) && JoinPath(p) in done + {key}
    {
      PathIsUnique(key, p);
    }
  }

  lemma ValueIsLeaf(row: map<string, DbValue>, path: Path, formatTime: string -> Option<string>)
    requires path != [] && JoinPath(path) in row
    ensures ConvertedAt(row, path, formatTime).Some? ==> !ConvertedAt(row, path, formatTime).value.Map?
  {
  }

  lemma BuildOneMore(values: map<Path, Json>, order: seq<Path>, path: Path, value: Json)
    requires IsOrder(values, order) && path !in values
    ensures IsOrder(values[path := value], order + [path])
    ensures Build(values[path := value], order + [path]) == Insert(Build(values, order), path, value)
  {
    SameBuild(values, values[path := value], order);
    assert (order + [path])[..|order|] == order;
    hide Insert;
    assert forall i :: 0 <= i < |order| ==> order[i] in values;
  }

  lemma {:induction false} SameBuild(values: map<Path, Json>, more: map<Path, Json>, order: seq<Path>)
    requires forall p :: p in order ==> p in values && p in more && values[p] == more[p]
    ensures Build(values, order) == Build(more, order)
  {
    if order != [] {
      SameBuild(values, more, order[..|order| - 1]);
    }
  }
}
