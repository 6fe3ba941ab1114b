/** What a chapter's result is computed from: the results of its children, per child item the best of the attempts that
    count, then summed up over the child items. */
module ResultAggregates {
  import opened Collections
  import opened Graph

  /** `items.validation_type`; NoValidation stands for 'None' and 'Manual'. */
  datatype ValidationType = Categories | All | AllButOne | One | NoValidation

  datatype Item = Item(requiresExplicitEntry: bool, noScore: bool, validationType: ValidationType)

  /** A row of items_items, listed under its parent */
  datatype ChildLink = ChildLink(child: Id, isValidationCategory: bool, weight: int)

  datatype Attempt = Attempt(root: Option<Id>, parent: Option<Id>)

  datatype EditRule = NoRule | SetTo(value: Option<real>) | AddDiff(value: Option<real>)

  /** A row of results; `validated` is generated from `validated_at`. */
  datatype Row = Row(latestActivityAt: int, tasksTried: nat, tasksWithHelp: nat, validatedAt: Option<int>, score: real,
                     edit: EditRule)

  datatype Key = Key(participant: Id, attempt: Id, item: Id)

  type Rows = map<Key, Row>

  /** '1000-01-01 00:00:00', the activity time of results created by the propagation */
  const NEVER := 0

  /** The tables the propagation of results only reads */
  datatype World = World(items: map<Id, Item>, links: map<Id, seq<ChildLink>>, itemsAncestors: set<(Id, Id)>,
                         attempts: map<(Id, Id), Attempt>)
  {
    function LinksOf(item: Id): seq<ChildLink> {
      if item in links then links[item] else []
    }

    predicate HasChildren(item: Id) {
      LinksOf(item) != []
    }

    function ItemEdges(): Edges {
      set p, link | p in links && link in links[p] :: (p, link.child)
    }

    /** `child` holds a result that counts for `parent`: same attempt, or a child attempt started at the child item. */
    predicate CountsFor(child: Key, parent: Key) {
      && child.participant == parent.participant
      && (child.participant, child.attempt) in attempts
      && (child.attempt == parent.attempt ||
          attempts[(child.participant, child.attempt)] == Attempt(Some(child.item), Some(parent.attempt)))
    }

    /** `child` is a result of a child item of `parent`'s item and counts for it. */
    predicate IsChildKey(child: Key, parent: Key) {
      (parent.item, child.item) in ItemEdges() && CountsFor(child, parent)
    }
  }

  // ---------- One child item ----------

  /** The existing results of a child item that count for `parent` */
  function ChildKeys(w: World, rows: Rows, parent: Key, item: Id): set<Key> {
    set c | c in rows && c.item == item && w.CountsFor(c, parent)
  }

  /** aggregated_children_results; without any row its columns are NULL, which the sums take for 0 and not validated. */
  datatype ChildStats = ChildStats(latestActivityAt: Option<int>, tasksTried: nat, tasksWithHelp: nat,
                                   validatedAt: Option<int>, score: real)

  function LatestActivityAt(row: Row): int {
    row.latestActivityAt
  }

  function TasksTried(row: Row): int {
    row.tasksTried
  }

  function TasksWithHelp(row: Row): int {
    row.tasksWithHelp
  }

  /** A column of the rows with the given keys */
  function Column(rows: Rows, keys: set<Key>, of: Row -> int): (values: set<int>)
    requires keys <= rows.Keys
    ensures keys != {} ==> values != {}
  {
    var values := set c | c in keys :: of(rows[c]);
    assert keys != {} ==> values != {} by {
      if keys != {} {
        var k := SomeElement(keys);
        assert of(rows[k]) in values;
      }
    }
    values
  }

  function ScoresOf(rows: Rows, keys: set<Key>): (values: set<real>)
    requires keys <= rows.Keys
    ensures keys != {} ==> values != {}
  {
    var values := set c | c in keys :: rows[c].score;
    assert keys != {} ==> values != {} by {
      if keys != {} {
        var k := SomeElement(keys);
        assert rows[k].score in values;
      }
    }
    values
  }

  function Validations(rows: Rows, keys: set<Key>): set<int>
    requires keys <= rows.Keys
  {
    set c | c in keys && rows[c].validatedAt.Some? :: rows[c].validatedAt.value
  }

  function StatsOfChild(w: World, rows: Rows, parent: Key, item: Id): ChildStats {
    var keys := ChildKeys(w, rows, parent, item);
    if keys == {} then ChildStats(None, 0, 0, None, 0.0) else
      var validations := Validations(rows, keys);
      ChildStats(Some(MaxOf(Column(rows, keys, LatestActivityAt))), MaxOf(Column(rows, keys, TasksTried)),
                 MaxOf(Column(rows, keys, TasksWithHelp)),
                 if validations == {} then None else Some(MinOf(validations)),
                 MaxOfReals(ScoresOf(rows, keys)))
  }

  // ---------- All child items ----------

  /** children_stats */
  datatype Stats = Stats(present: bool, latestActivityAt: Option<int>, tasksTried: nat, tasksWithHelp: nat,
                         validated: nat, nonValidated: nat, nonValidatedCategories: nat,
                         maxValidatedAt: Option<int>, maxValidatedAtCategories: Option<int>, weightedScore: real,
                         weight: real)

  const NO_STATS := Stats(false, None, 0, 0, 0, 0, 0, None, None, 0.0, 0.0)

  function MaxOption(a: Option<int>, b: Option<int>): Option<int> {
    if a.None? then b else if b.None? then a else Some(if a.value < b.value then b.value else a.value)
  }

  /** Items without score do not count. */
  predicate Scores(w: World, item: Id) {
    item in w.items && !w.items[item].noScore
  }

  function Add(stats: Stats, link: ChildLink, child: ChildStats): Stats {
    var validated := child.validatedAt.Some?;
    Stats(true,
          MaxOption(stats.latestActivityAt, child.latestActivityAt),
          stats.tasksTried + child.tasksTried,
          stats.tasksWithHelp + child.tasksWithHelp,
          stats.validated + (if validated then 1 else 0),
          stats.nonValidated + (if validated then 0 else 1),
          stats.nonValidatedCategories + (if link.isValidationCategory && !validated then 1 else 0),
          MaxOption(stats.maxValidatedAt, child.validatedAt),
          MaxOption(stats.maxValidatedAtCategories, if link.isValidationCategory then child.validatedAt else None),
          stats.weightedScore + child.score * link.weight as real,
          stats.weight + link.weight as real)
  }

  function StatsOf(w: World, rows: Rows, parent: Key, links: seq<ChildLink>): Stats {
    if links == [] then NO_STATS else
      var rest, link := links[..|links| - 1], links[|links| - 1];
      var stats := StatsOf(w, rows, parent, rest);
      if Scores(w, link.child) then Add(stats, link, StatsOfChild(w, rows, parent, link.child)) else stats
  }

  function ValidatedAt(validationType: ValidationType, stats: Stats): Option<int> {
    if !stats.present then None else
      match validationType
      case Categories => if stats.nonValidatedCategories == 0 then stats.maxValidatedAtCategories else None
      case All => if stats.nonValidated == 0 then stats.maxValidatedAt else None
      case AllButOne => if stats.nonValidated < 2 then stats.maxValidatedAt else None
      case One => if stats.validated > 0 then stats.maxValidatedAt else None
      case NoValidation => None
  }

  predicate InPercent(score: real) {
    0.0 <= score <= 100.0
  }

  function AverageScore(stats: Stats): real {
    stats.weightedScore / (if stats.weight == 0.0 then 1.0 else stats.weight)
  }

  function Clamp(score: real): real {
    if score < 0.0 then 0.0 else if score > 100.0 then 100.0 else score
  }

  function Score(noScore: bool, edit: EditRule, stats: Stats): real {
    if noScore || !stats.present then 0.0 else
      match edit
      case NoRule => Clamp(AverageScore(stats))
      case SetTo(value) => if value.None? then 0.0 else Clamp(value.value)
      case AddDiff(value) => if value.None? then 0.0 else Clamp(AverageScore(stats) + value.value)
  }

  /** The row the UPDATE stores for the result */
  function Recomputed(w: World, rows: Rows, key: Key): Row
    requires key in rows && key.item in w.items
  {
    var row, item := rows[key], w.items[key.item];
    var stats := StatsOf(w, rows, key, w.LinksOf(key.item));
    var childrenActivity := if stats.latestActivityAt.Some? then stats.latestActivityAt.value else NEVER;
    Row(if childrenActivity > row.latestActivityAt then childrenActivity else row.latestActivityAt,
        stats.tasksTried, stats.tasksWithHelp,
        ValidatedAt(item.validationType, stats),
        Score(item.noScore, row.edit, stats),
        row.edit)
  }

  /** The result agrees with those of its children. */
  ghost predicate Agrees(w: World, rows: Rows, key: Key) {
    key in rows && key.item in w.items && rows[key] == Recomputed(w, rows, key)
  }

  // ---------- A result depends on its children only ----------

  ghost predicate SameChildren(w: World, rows: Rows, other: Rows, parent: Key) {
    forall c :: w.IsChildKey(c, parent) ==> (c in rows <==> c in other) && (c in rows ==> rows[c] == other[c])
  }

  lemma StatsOfChildDependOnRows(w: World, rows: Rows, other: Rows, parent: Key, item: Id)
    requires SameChildren(w, rows, other, parent) && (parent.item, item) in w.ItemEdges()
    ensures StatsOfChild(w, rows, parent, item) == StatsOfChild(w, other, parent, item)
  {
    var keys := ChildKeys(w, rows, parent, item);
    forall c
      ensures c in keys <==> c in ChildKeys(w, other, parent, item)
      ensures c in keys ==> rows[c] == other[c]
    {
      assert c.item == item && w.CountsFor(c, parent) ==> w.IsChildKey(c, parent);
    }
    assert keys == ChildKeys(w, other, parent, item);
    assert Column(rows, keys, LatestActivityAt) == Column(other, keys, LatestActivityAt);
    assert Column(rows, keys, TasksTried) == Column(other, keys, TasksTried);
    assert Column(rows, keys, TasksWithHelp) == Column(other, keys, TasksWithHelp);
    assert ScoresOf(rows, keys) == ScoresOf(other, keys);
    assert Validations(rows, keys) == Validations(other, keys);
  }

  lemma {:induction false} StatsDependOnChildren(w: World, rows: Rows, other: Rows, parent: Key, links: seq<ChildLink>)
    requires SameChildren(w, rows, other, parent)
    requires forall link :: link in links ==> (parent.item, link.child) in w.ItemEdges()
    ensures StatsOf(w, rows, parent, links) == StatsOf(w, other, parent, links)
  {
    if links != [] {
      var link := links[|links| - 1];
      assert link in links;
      StatsDependOnChildren(w, rows, other, parent, links[..|links| - 1]);
      StatsOfChildDependOnRows(w, rows, other, parent, link.child);
    }
  }

  lemma LinksAreEdges(w: World, item: Id)
    ensures forall link :: link in w.LinksOf(item) ==> (item, link.child) in w.ItemEdges()
  {
  }

  /** Equal children and an equal row of its own give an equal recomputation. */
  lemma RecomputedDependsOnChildren(w: World, rows: Rows, other: Rows, key: Key)
    requires key in rows && key in other && key.item in w.items && rows[key] == other[key]
    requires SameChildren(w, rows, other, key)
    ensures Recomputed(w, rows, key) == Recomputed(w, other, key)
  {
    LinksAreEdges(w, key.item);
    StatsDependOnChildren(w, rows, other, key, w.LinksOf(key.item));
  }

  /** Once recomputed, a result agrees with its children as long as they stay as they are. */
  lemma RecomputingMakesAgree(w: World, rows: Rows, after: Rows, key: Key)
    requires key in rows && key.item in w.items
    requires key in after && after[key] == Recomputed(w, rows, key) && SameChildren(w, rows, after, key)
    ensures Agrees(w, after, key)
  {
    LinksAreEdges(w, key.item);
    StatsDependOnChildren(w, rows, after, key, w.LinksOf(key.item));
  }

  // ---------- What the sums mean ----------

  predicate Validates(w: World, rows: Rows, parent: Key, link: ChildLink) {
    StatsOfChild(w, rows, parent, link.child).validatedAt.Some?
  }

  /** A child item is validated when some counting result is, from the earliest such validation on. */
  lemma ChildValidationMeaning(w: World, rows: Rows, parent: Key, item: Id)
    ensures var at := StatsOfChild(w, rows, parent, item).validatedAt;
            && (at.Some? <==> exists c :: c in ChildKeys(w, rows, parent, item) && rows[c].validatedAt.Some?)
            && (at.Some? ==> exists c :: c in ChildKeys(w, rows, parent, item) && rows[c].validatedAt == at)
            && (at.Some? ==> forall c :: c in ChildKeys(w, rows, parent, item) && rows[c].validatedAt.Some? ==>
                  at.value <= rows[c].validatedAt.value)
  {
    var keys := ChildKeys(w, rows, parent, item);
    var validations := Validations(rows, keys);
    forall c | c in keys && rows[c].validatedAt.Some?
      ensures rows[c].validatedAt.value in validations
    {
    }
    if validations != {} {
      var v := SomeElement(validations);
      var c :| c in keys && rows[c].validatedAt == Some(MinOf(validations));
    }
  }

  /** The links to child items that have a score */
  function ScoredLinks(w: World, links: seq<ChildLink>): set<nat> {
    set k: nat | k < |links| && links[k].child in w.items && !w.items[links[k].child].noScore
  }

  /** The greatest of the validation times of the links in `ks` */
  ghost predicate IsLatestValidation(w: World, rows: Rows, parent: Key, links: seq<ChildLink>, ks: set<nat>,
                                     at: Option<int>)
    requires forall k :: k in ks ==> k < |links|
  {
    match at
    case None => forall k :: k in ks ==> !Validates(w, rows, parent, links[k])
    case Some(v) =>
      && (exists k :: k in ks && StatsOfChild(w, rows, parent, links[k].child).validatedAt == Some(v))
      && (forall k :: k in ks && Validates(w, rows, parent, links[k]) ==>
            StatsOfChild(w, rows, parent, links[k].child).validatedAt.value <= v)
  }

  /** Those that belong to the category 'Validation' */
  function CategoryLinks(w: World, links: seq<ChildLink>): set<nat> {
    set k | k in ScoredLinks(w, links) && links[k].isValidationCategory
  }

  /** The links in `ks` whose child item is not validated */
  function Open(w: World, rows: Rows, parent: Key, links: seq<ChildLink>, ks: set<nat>): set<nat>
    requires forall k :: k in ks ==> k < |links|
  {
    set k | k in ks && !Validates(w, rows, parent, links[k])
  }

  ghost predicate CountsAreRight(w: World, rows: Rows, parent: Key, links: seq<ChildLink>, stats: Stats) {
    var scored, categories := ScoredLinks(w, links), CategoryLinks(w, links);
    && (stats.present <==> scored != {})
    && stats.nonValidated == |Open(w, rows, parent, links, scored)|
    && stats.nonValidatedCategories == |Open(w, rows, parent, links, categories)|
    && stats.validated == |scored| - |Open(w, rows, parent, links, scored)|
  }

  ghost predicate TimesAreRight(w: World, rows: Rows, parent: Key, links: seq<ChildLink>, stats: Stats) {
    && IsLatestValidation(w, rows, parent, links, ScoredLinks(w, links), stats.maxValidatedAt)
    && IsLatestValidation(w, rows, parent, links, CategoryLinks(w, links), stats.maxValidatedAtCategories)
  }

  /** The sums count the child items with and without a validation and hold the latest validation times. */
  ghost predicate StatsAreRight(w: World, rows: Rows, parent: Key, links: seq<ChildLink>, stats: Stats) {
    CountsAreRight(w, rows, parent, links, stats) && TimesAreRight(w, rows, parent, links, stats)
  }

  lemma AddCounts(stats: Stats, link: ChildLink, child: ChildStats, scores: bool, all: Stats, n: nat,
                  scored: set<nat>, open: set<nat>, openCategories: set<nat>,
                  allScored: set<nat>, allOpen: set<nat>, allOpenCategories: set<nat>)
    requires all == if scores then Add(stats, link, child) else stats
    requires n !in scored && n !in open && n !in openCategories
    requires allScored == scored + if scores then {n} else {}
    requires allOpen == open + if scores && child.validatedAt.None? then {n} else {}
    requires allOpenCategories == openCategories +
             if scores && child.validatedAt.None? && link.isValidationCategory then {n} else {}
    requires stats.present <==> scored != {}
    requires stats.nonValidated == |open| && stats.nonValidatedCategories == |openCategories|
    requires stats.validated == |scored| - |open|
    ensures all.present <==> allScored != {}
    ensures all.nonValidated == |allOpen| && all.nonValidatedCategories == |allOpenCategories|
    ensures all.validated == |allScored| - |allOpen|
    ensures all.maxValidatedAt ==
            if scores then MaxOption(stats.maxValidatedAt, child.validatedAt) else stats.maxValidatedAt
    ensures all.maxValidatedAtCategories ==
            if scores && link.isValidationCategory then MaxOption(stats.maxValidatedAtCategories, child.validatedAt)
            else stats.maxValidatedAtCategories
  {
  }

  lemma NoStatsAreRight(w: World, rows: Rows, parent: Key)
    ensures StatsAreRight(w, rows, parent, [], NO_STATS)
  {
    assert ScoredLinks(w, []) == {} && CategoryLinks(w, []) == {};
    assert Open(w, rows, parent, [], {}) == {};
  }

  lemma LinksInRange(w: World, links: seq<ChildLink>)
    ensures forall k :: k in ScoredLinks(w, links) ==> k < |links|
    ensures forall k :: k in CategoryLinks(w, links) ==> k < |links|
  {
  }

  lemma ValidatedChild(w: World, rows: Rows, parent: Key, link: ChildLink, child: ChildStats)
    requires child == StatsOfChild(w, rows, parent, link.child)
    ensures Validates(w, rows, parent, link) <==> child.validatedAt.Some?
  {
  }

  lemma CountsOfMore(w: World, rows: Rows, parent: Key, links: seq<ChildLink>, n: nat, stats: Stats, child: ChildStats,
                     all: Stats)
    requires n + 1 == |links| && CountsAreRight(w, rows, parent, links[..n], stats)
    requires child == StatsOfChild(w, rows, parent, links[n].child)
    requires all == if Scores(w, links[n].child) then Add(stats, links[n], child) else stats
    ensures CountsAreRight(w, rows, parent, links, all)
  {
    hide StatsOfChild, Validates, ScoredLinks, CategoryLinks, Open, MaxOption, Scores;
    var rest := links[..n];
    LinksInRange(w, rest);
    LinksInRange(w, links);
    ValidatedChild(w, rows, parent, links[n], child);
    PrefixSets(w, rows, parent, links);
    var scored, categories := ScoredLinks(w, rest), CategoryLinks(w, rest);
    var allScored, allCategories := ScoredLinks(w, links), CategoryLinks(w, links);
    AddCounts(stats, links[n], child, Scores(w, links[n].child), all, n,
              scored, Open(w, rows, parent, rest, scored), Open(w, rows, parent, rest, categories),
              allScored, Open(w, rows, parent, links, allScored), Open(w, rows, parent, links, allCategories));
  }

  lemma TimesOfMore(w: World, rows: Rows, parent: Key, links: seq<ChildLink>, n: nat, stats: Stats, child: ChildStats,
                    all: Stats)
    requires n + 1 == |links| && TimesAreRight(w, rows, parent, links[..n], stats)
    requires child == StatsOfChild(w, rows, parent, links[n].child)
    requires all == if Scores(w, links[n].child) then Add(stats, links[n], child) else stats
    ensures TimesAreRight(w, rows, parent, links, all)
  {
    var rest := links[..n];
    PrefixSets(w, rows, parent, links);
    var added := if Scores(w, links[n].child) then {n} else {};
    var addedCategory := if links[n].isValidationCategory then added else {};
    assert MaxOption(stats.maxValidatedAtCategories, None) == stats.maxValidatedAtCategories;
    LatestOfMore(w, rows, parent, links, ScoredLinks(w, rest), added, stats.maxValidatedAt);
    LatestOfMore(w, rows, parent, links, CategoryLinks(w, rest), addedCategory, stats.maxValidatedAtCategories);
    hide StatsOfChild, IsLatestValidation, ScoredLinks, CategoryLinks, Open, MaxOption, Scores;
  }

  lemma {:induction false} StatsMeaning(w: World, rows: Rows, parent: Key, links: seq<ChildLink>)
    ensures StatsAreRight(w, rows, parent, links, StatsOf(w, rows, parent, links))
  {
    if links != [] {
      var n := |links| - 1;
      StatsMeaning(w, rows, parent, links[..n]);
      var stats, all := StatsOf(w, rows, parent, links[..n]), StatsOf(w, rows, parent, links);
      var child := StatsOfChild(w, rows, parent, links[n].child);
      assert all == if Scores(w, links[n].child) then Add(stats, links[n], child) else stats;
      hide StatsOf, StatsOfChild, Scores, Add, CountsAreRight, TimesAreRight;
      CountsOfMore(w, rows, parent, links, n, stats, child, all);
      TimesOfMore(w, rows, parent, links, n, stats, child, all);
    } else {
      NoStatsAreRight(w, rows, parent);
    }
  }

  lemma PrefixSets(w: World, rows: Rows, parent: Key, links: seq<ChildLink>)
    requires links != []
    ensures var n := |links| - 1;
            var rest := links[..n];
            var added := if Scores(w, links[n].child) then {n} else {};
            var addedCategory := if links[n].isValidationCategory then added else {};
            var unvalidated := if Validates(w, rows, parent, links[n]) then {} else added;
            && ScoredLinks(w, links) == ScoredLinks(w, rest) + added && n !in ScoredLinks(w, rest)
            && CategoryLinks(w, links) == CategoryLinks(w, rest) + addedCategory
            && Open(w, rows, parent, links, ScoredLinks(w, links)) ==
               Open(w, rows, parent, rest, ScoredLinks(w, rest)) + unvalidated
            && Open(w, rows, parent, links, CategoryLinks(w, links)) ==
               Open(w, rows, parent, rest, CategoryLinks(w, rest)) +
                 (if links[n].isValidationCategory then unvalidated else {})
            && n !in Open(w, rows, parent, rest, ScoredLinks(w, rest)) &&
               n !in Open(w, rows, parent, rest, CategoryLinks(w, rest))
  {
  }

  lemma LatestOfMore(w: World, rows: Rows, parent: Key, links: seq<ChildLink>, ks: set<nat>, added: set<nat>,
                     at: Option<int>)
    requires links != []
    requires forall k :: k in ks ==> k < |links| - 1
    requires added <= {|links| - 1}
    requires IsLatestValidation(w, rows, parent, links[..|links| - 1], ks, at)
    ensures var child := StatsOfChild(w, rows, parent, links[|links| - 1].child).validatedAt;
            IsLatestValidation(w, rows, parent, links, ks + added, if added == {} then at else MaxOption(at, child))
  {
    hide StatsOfChild;
    var n := |links| - 1;
    assert forall k :: k in ks ==> links[..n][k] == links[k];
    if at.Some? {
      var k :| k in ks && StatsOfChild(w, rows, parent, links[..n][k].child).validatedAt == at;
      assert k in ks + added;
    }
    if added != {} {
      assert n in added by {
        var k := SomeElement(added);
      }
      assert n in ks + added;
    }
  }

  /** When a result with these scored children is validated; `open` are the children that are not. */
  predicate Qualifies(validationType: ValidationType, scored: set<nat>, categories: set<nat>, open: set<nat>) {
    match validationType
    case Categories => categories != {} && open * categories == {}
    case All => scored != {} && open == {}
    case AllButOne => |open| < 2 && open != scored
    case One => open != scored
    case NoValidation => false
  }

  lemma RuleFromStats(validationType: ValidationType, stats: Stats, scored: set<nat>, categories: set<nat>,
                      open: set<nat>)
    requires categories <= scored && open <= scored
    requires stats.present <==> scored != {}
    requires stats.nonValidated == |open| && stats.nonValidatedCategories == |open * categories|
    requires stats.validated == |scored| - |open|
    requires stats.maxValidatedAt.Some? <==> open != scored
    requires stats.maxValidatedAtCategories.Some? <==> open * categories != categories
    ensures var at := ValidatedAt(validationType, stats);
            && (at.Some? <==> Qualifies(validationType, scored, categories, open))
            && (at.Some? ==> at == if validationType == Categories then stats.maxValidatedAtCategories
                else stats.maxValidatedAt)
  {
    var openCategories := open * categories;
    assert |openCategories| == 0 <==> openCategories == {};
    if open != scored {
      StrictSubsetSmaller(open, scored);
    }
  }

  /** The validation rules: when a result is validated, and since when. */
  lemma ValidationRules(w: World, rows: Rows, key: Key)
    requires key in rows && key.item in w.items
    ensures var links := w.LinksOf(key.item);
            var scored, categories := ScoredLinks(w, links), CategoryLinks(w, links);
            var validationType := w.items[key.item].validationType;
            var at := Recomputed(w, rows, key).validatedAt;
            && (at.Some? <==> Qualifies(validationType, scored, categories, Open(w, rows, key, links, scored)))
            && (at.Some? ==>
                  IsLatestValidation(w, rows, key, links, if validationType == Categories then categories
                                     else scored, at))
  {
    var links := w.LinksOf(key.item);
    var scored, categories := ScoredLinks(w, links), CategoryLinks(w, links);
    var stats := StatsOf(w, rows, key, links);
    StatsMeaning(w, rows, key, links);
    LatestMeaning(w, rows, key, links, scored, stats.maxValidatedAt);
    LatestMeaning(w, rows, key, links, categories, stats.maxValidatedAtCategories);
    var open := Open(w, rows, key, links, scored);
    assert Open(w, rows, key, links, categories) == open * categories;
    RuleFromStats(w.items[key.item].validationType, stats, scored, categories, open);
  }

  lemma LatestMeaning(w: World, rows: Rows, parent: Key, links: seq<ChildLink>, ks: set<nat>, at: Option<int>)
    requires forall k :: k in ks ==> k < |links|
    requires IsLatestValidation(w, rows, parent, links, ks, at)
    ensures at.Some? <==> Open(w, rows, parent, links, ks) != ks
  {
    var open := Open(w, rows, parent, links, ks);
    match at
    case None => assert open == ks;
    case Some(v) =>
      var k :| k in ks && StatsOfChild(w, rows, parent, links[k].child).validatedAt == Some(v);
      assert k !in open;
  }

  // ---------- What else a recomputed row holds ----------

  function Sum(values: seq<int>): int {
    if values == [] then 0 else Sum(values[..|values| - 1]) + values[|values| - 1]
  }

  function SumOfReals(values: seq<real>): real {
    if values == [] then 0.0 else SumOfReals(values[..|values| - 1]) + values[|values| - 1]
  }

  /** A result of the child item that counts for the parent result */
  ghost predicate IsCounting(w: World, rows: Rows, parent: Key, item: Id, c: Key) {
    c in rows && c.item == item && w.CountsFor(c, parent)
  }

  /** Each number is the highest among the counting results, and 0 without any. */
  ghost predicate IsBest(w: World, rows: Rows, parent: Key, item: Id, best: ChildStats) {
    if exists c :: IsCounting(w, rows, parent, item, c) then
      && best.latestActivityAt.Some?
      && (forall c :: IsCounting(w, rows, parent, item, c) ==>
          && rows[c].latestActivityAt <= best.latestActivityAt.value
          && rows[c].tasksTried <= best.tasksTried
          && rows[c].tasksWithHelp <= best.tasksWithHelp
          && rows[c].score <= best.score)
      && (exists c :: IsCounting(w, rows, parent, item, c) && Some(rows[c].latestActivityAt) == best.latestActivityAt)
      && (exists c :: IsCounting(w, rows, parent, item, c) && rows[c].tasksTried == best.tasksTried)
      && (exists c :: IsCounting(w, rows, parent, item, c) && rows[c].tasksWithHelp == best.tasksWithHelp)
      && (exists c :: IsCounting(w, rows, parent, item, c) && rows[c].score == best.score)
    else
      best.latestActivityAt.None? && best.tasksTried == 0 && best.tasksWithHelp == 0 && best.score == 0.0
  }

  lemma HighestOf(rows: Rows, keys: set<Key>, of: Row -> int)
    requires keys <= rows.Keys && keys != {}
    ensures var top := MaxOf(Column(rows, keys, of));
            (forall c :: c in keys ==> of(rows[c]) <= top) && exists c :: c in keys && of(rows[c]) == top
  {
    forall c | c in keys
      ensures of(rows[c]) in Column(rows, keys, of)
    {
    }
  }

  lemma HighestScoreOf(rows: Rows, keys: set<Key>)
    requires keys <= rows.Keys && keys != {}
    ensures var top := MaxOfReals(ScoresOf(rows, keys));
            (forall c :: c in keys ==> rows[c].score <= top) && exists c :: c in keys && rows[c].score == top
  {
    forall c | c in keys
      ensures rows[c].score in ScoresOf(rows, keys)
    {
    }
  }

  lemma ChildStatsAreBest(w: World, rows: Rows, parent: Key, item: Id)
    ensures IsBest(w, rows, parent, item, StatsOfChild(w, rows, parent, item))
  {
    var keys := ChildKeys(w, rows, parent, item);
    assert forall c :: c in keys <==> IsCounting(w, rows, parent, item, c);
    if keys != {} {
      HighestOf(rows, keys, LatestActivityAt);
      HighestOf(rows, keys, TasksTried);
      HighestOf(rows, keys, TasksWithHelp);
      HighestScoreOf(rows, keys);
      var c := SomeElement(keys);
      hide ChildKeys, IsCounting, Column, ScoresOf, Validations, MaxOf, MaxOfReals, MinOf;
    }
  }

  /** What each link adds to the sums of a result: nothing for an item without score */
  datatype Terms = Terms(tried: seq<int>, helped: seq<int>, points: seq<real>, weights: seq<real>)

  ghost predicate AreTerms(w: World, links: seq<ChildLink>, children: seq<ChildStats>, terms: Terms) {
    && |children| == |links| == |terms.tried| == |terms.helped| == |terms.points| == |terms.weights|
    && forall k :: 0 <= k < |links| ==>
         if k in ScoredLinks(w, links) then
           && terms.tried[k] == children[k].tasksTried && terms.helped[k] == children[k].tasksWithHelp
           && terms.points[k] == children[k].score * links[k].weight as real
           && terms.weights[k] == links[k].weight as real
         else terms.tried[k] == 0 && terms.helped[k] == 0 && terms.points[k] == 0.0 && terms.weights[k] == 0.0
  }

  /** The latest activity among the scored children, if any of them has one */
  ghost predicate IsLatestActivity(w: World, links: seq<ChildLink>, children: seq<ChildStats>, at: Option<int>)
    requires |children| == |links|
  {
    && (forall k :: k in ScoredLinks(w, links) && children[k].latestActivityAt.Some? ==>
        at.Some? && children[k].latestActivityAt.value <= at.value)
    && (at.Some? ==> exists k :: k in ScoredLinks(w, links) && children[k].latestActivityAt == at)
  }

  ghost predicate AreSums(w: World, links: seq<ChildLink>, children: seq<ChildStats>, terms: Terms, stats: Stats) {
    && AreTerms(w, links, children, terms)
    && stats.tasksTried == Sum(terms.tried) && stats.tasksWithHelp == Sum(terms.helped)
    && stats.weightedScore == SumOfReals(terms.points) && stats.weight == SumOfReals(terms.weights)
    && IsLatestActivity(w, links, children, stats.latestActivityAt)
  }

  lemma {:induction false} SumsMeaning(w: World, rows: Rows, parent: Key, links: seq<ChildLink>)
    returns (children: seq<ChildStats>, terms: Terms)
    ensures AreSums(w, links, children, terms, StatsOf(w, rows, parent, links))
    ensures forall k :: 0 <= k < |links| ==> IsBest(w, rows, parent, links[k].child, children[k])
  {
    if links == [] {
      children, terms := [], Terms([], [], [], []);
    } else {
      var n := |links| - 1;
      var link, child := links[n], StatsOfChild(w, rows, parent, links[n].child);
      var rest, before := SumsMeaning(w, rows, parent, links[..n]);
      ChildStatsAreBest(w, rows, parent, link.child);
      children := rest + [child];
      terms := SumsOfMore(w, links, rest, before, StatsOf(w, rows, parent, links[..n]), child);
    }
  }

  lemma SumsOfMore(w: World, links: seq<ChildLink>, rest: seq<ChildStats>, before: Terms, stats: Stats,
                   child: ChildStats)
    returns (terms: Terms)
    requires links != [] && AreSums(w, links[..|links| - 1], rest, before, stats)
    ensures var link := links[|links| - 1];
            AreSums(w, links, rest + [child], terms, if Scores(w, link.child) then Add(stats, link, child) else stats)
  {
    var n, link := |links| - 1, links[|links| - 1];
    terms := MoreTerms(before, link, child, Scores(w, link.child));
    TermsOfMore(w, links, rest, before, child);
    LatestActivityOfMore(w, links, rest, stats.latestActivityAt, child);
    hide Scores, AreTerms, IsLatestActivity, MaxOption;
    assert terms.tried[..n] == before.tried && terms.helped[..n] == before.helped;
    assert terms.points[..n] == before.points && terms.weights[..n] == before.weights;
  }

  function MoreTerms(terms: Terms, link: ChildLink, child: ChildStats, scores: bool): Terms {
    if scores then
      Terms(terms.tried + [child.tasksTried], terms.helped + [child.tasksWithHelp],
            terms.points + [child.score * link.weight as real], terms.weights + [link.weight as real])
    else Terms(terms.tried + [0], terms.helped + [0], terms.points + [0.0], terms.weights + [0.0])
  }

  lemma TermsOfMore(w: World, links: seq<ChildLink>, rest: seq<ChildStats>, before: Terms, child: ChildStats)
    requires links != [] && AreTerms(w, links[..|links| - 1], rest, before)
    ensures var link := links[|links| - 1];
            AreTerms(w, links, rest + [child], MoreTerms(before, link, child, Scores(w, link.child)))
  {
    ScoredAmong(w, links);
    hide Scores, ScoredLinks;
    assert forall k :: 0 <= k < |rest| ==> links[..|links| - 1][k] == links[k] && (rest + [child])[k] == rest[k];
  }

  lemma ScoredAmong(w: World, links: seq<ChildLink>)
    requires links != []
    ensures var n := |links| - 1;
            && (forall k :: k in ScoredLinks(w, links[..n]) <==> k < n && k in ScoredLinks(w, links))
            && (n in ScoredLinks(w, links) <==> Scores(w, links[n].child))
            && forall k :: k in ScoredLinks(w, links) ==> k <= n
  {
  }

  lemma LatestActivityOfMore(w: World, links: seq<ChildLink>, rest: seq<ChildStats>, at: Option<int>,
                             child: ChildStats)
    requires links != [] && |rest| == |links| - 1 && IsLatestActivity(w, links[..|links| - 1], rest, at)
    ensures IsLatestActivity(w, links, rest + [child],
                             if Scores(w, links[|links| - 1].child) then MaxOption(at, child.latestActivityAt) else at)
  {
    ScoredAmong(w, links);
    hide Scores, ScoredLinks;
    var n, children := |links| - 1, rest + [child];
    assert children[n] == child && forall k :: 0 <= k < n ==> children[k] == rest[k];
    if at.Some? {
      var k :| k in ScoredLinks(w, links[..n]) && rest[k].latestActivityAt == at;
      assert k in ScoredLinks(w, links) && children[k].latestActivityAt == at;
    }
  }

  /** The number in [0, 100] nearest to the target */
  predicate IsNearest(score: real, target: real) {
    InPercent(score) && (InPercent(target) ==> score == target) && (target < 0.0 ==> score == 0.0) &&
      (target > 100.0 ==> score == 100.0)
  }

  /** The weighted average of the children; weights that add up to 0 do not divide. */
  predicate IsAverage(average: real, points: real, weight: real) {
    average * (if weight == 0.0 then 1.0 else weight) == points
  }

  /** The score rules: a score that was set stays, a difference is added to the average, and everything is cut off at 0
      and 100. A result without scored children or of an item without score has score 0, and so has one whose edit
      rule has no value. */
  ghost predicate FollowsScoreRules(score: real, noScore: bool, edit: EditRule, anyScored: bool, average: real) {
    if noScore || !anyScored then score == 0.0 else
      match edit
      case NoRule => IsNearest(score, average)
      case SetTo(value) => if value.Some? then IsNearest(score, value.value) else score == 0.0
      case AddDiff(value) => if value.Some? then IsNearest(score, average + value.value) else score == 0.0
  }

  predicate IsGreater(top: int, a: int, b: int) {
    a <= top && b <= top && (top == a || top == b)
  }

  lemma ScoreFollowsRules(noScore: bool, edit: EditRule, stats: Stats)
    ensures FollowsScoreRules(Score(noScore, edit, stats), noScore, edit, stats.present, AverageScore(stats))
    ensures IsAverage(AverageScore(stats), stats.weightedScore, stats.weight)
  {
  }

  /** The numbers of a recomputed row: sums of the best numbers of the scored children, the latest activity among theirs
      and its own, and the score by the rules. */
  lemma RecomputedMeaning(w: World, rows: Rows, key: Key)
    returns (children: seq<ChildStats>, terms: Terms, at: Option<int>, average: real)
    requires key in rows && key.item in w.items
    ensures var row, links := Recomputed(w, rows, key), w.LinksOf(key.item);
            && AreTerms(w, links, children, terms)
            && (forall k :: 0 <= k < |links| ==> IsBest(w, rows, key, links[k].child, children[k]))
            && row.tasksTried == Sum(terms.tried) && row.tasksWithHelp == Sum(terms.helped)
            && IsLatestActivity(w, links, children, at)
            && IsGreater(row.latestActivityAt, rows[key].latestActivityAt, if at.Some? then at.value else NEVER)
            && IsAverage(average, SumOfReals(terms.points), SumOfReals(terms.weights))
            && FollowsScoreRules(row.score, w.items[key.item].noScore, rows[key].edit,
                                 ScoredLinks(w, links) != {}, average)
            && row.edit == rows[key].edit
  {
    var links := w.LinksOf(key.item);
    var stats := StatsOf(w, rows, key, links);
    children, terms := SumsMeaning(w, rows, key, links);
    at, average := stats.latestActivityAt, AverageScore(stats);
    StatsMeaning(w, rows, key, links);
    ScoreFollowsRules(w.items[key.item].noScore, rows[key].edit, stats);
    hide StatsOf, IsBest, AreTerms, Scores, ScoredLinks, Score, AverageScore, FollowsScoreRules, IsAverage;
    hide TimesAreRight, ValidatedAt, Open, CategoryLinks, IsLatestActivity, Sum, SumOfReals;
  }

  // ---------- Validation comes from leaves ----------

  ghost predicate AllAgree(w: World, rows: Rows) {
    forall k :: k in rows && w.HasChildren(k.item) ==> Agrees(w, rows, k)
  }

  /** Each key is followed by a child key of it. */
  ghost predicate IsDescent(w: World, rows: Rows, path: seq<Key>) {
    path != [] && (forall k :: k in path ==> k in rows) && forall n :: 0 <= n < |path| - 1 ==>
      w.IsChildKey(path[n + 1], path[n])
  }

  lemma ValidatedByAChild(w: World, rows: Rows, key: Key) returns (child: Key)
    requires Agrees(w, rows, key) && rows[key].validatedAt.Some?
    ensures child in rows && w.IsChildKey(child, key) && rows[child].validatedAt == rows[key].validatedAt
  {
    var links := w.LinksOf(key.item);
    ValidationRules(w, rows, key);
    LinksAreEdges(w, key.item);
    var at := rows[key].validatedAt;
    var k: nat :| k < |links| && StatsOfChild(w, rows, key, links[k].child).validatedAt == at;
    assert links[k] in links;
    ChildValidationMeaning(w, rows, key, links[k].child);
    child :| child in ChildKeys(w, rows, key, links[k].child) && rows[child].validatedAt == at;
  }

  function EdgeSources(w: World): set<Id> {
    set e | e in w.ItemEdges() :: e.0
  }

  /** When all results of chapters agree with their children, a validated one got its validation time from the result
      of a childless item below it: nothing is validated without a validated leaf. */
  lemma {:induction false} ValidationComesFromALeaf(w: World, rows: Rows, key: Key) returns (path: seq<Key>)
    requires Acyclic(w.ItemEdges()) && AllAgree(w, rows)
    requires key in rows && rows[key].validatedAt.Some?
    ensures IsDescent(w, rows, path) && path[0] == key
    ensures var leaf := path[|path| - 1];
            !w.HasChildren(leaf.item) && rows[leaf].validatedAt == rows[key].validatedAt
    decreases |EdgeSources(w)| - Depth(w.ItemEdges(), key.item)
  {
    path := [key];
    if w.HasChildren(key.item) {
      var child := ValidatedByAChild(w, rows, key);
      EdgeReaches(w.ItemEdges(), key.item, child.item);
      DepthGrows(w.ItemEdges(), key.item, child.item);
      DepthBound(w.ItemEdges(), EdgeSources(w), child.item);
      var rest := ValidationComesFromALeaf(w, rows, child);
      path := [key] + rest;
    }
  }

  // ---------- Scores stay between 0 and 100 ----------

  /** Chapters among the children agree with their own children, and the scores of childless items are in range. */
  ghost predicate ChildrenAreSound(w: World, rows: Rows, parent: Key) {
    forall c :: c in rows && w.IsChildKey(c, parent) ==>
      if w.HasChildren(c.item) then Agrees(w, rows, c) else InPercent(rows[c].score)
  }

  /** Stored scores of chapters are clamped. */
  lemma AgreeingScoreInPercent(w: World, rows: Rows, key: Key)
    requires Agrees(w, rows, key)
    ensures InPercent(rows[key].score)
  {
  }

  lemma ScoreOfChildInPercent(w: World, rows: Rows, parent: Key, item: Id)
    requires ChildrenAreSound(w, rows, parent) && (parent.item, item) in w.ItemEdges()
    ensures InPercent(StatsOfChild(w, rows, parent, item).score)
  {
    var keys := ChildKeys(w, rows, parent, item);
    if keys != {} {
      var top := MaxOfReals(ScoresOf(rows, keys));
      var c :| c in keys && rows[c].score == top;
      assert w.IsChildKey(c, parent);
      if w.HasChildren(c.item) {
        AgreeingScoreInPercent(w, rows, c);
      }
    }
  }

  lemma {:induction false} WeightedScoreIsBounded(w: World, rows: Rows, parent: Key, links: seq<ChildLink>)
    requires ChildrenAreSound(w, rows, parent)
    requires forall link :: link in links ==> link.weight >= 0 && (parent.item, link.child) in w.ItemEdges()
    ensures var stats := StatsOf(w, rows, parent, links);
            0.0 <= stats.weight && 0.0 <= stats.weightedScore <= 100.0 * stats.weight
  {
    if links != [] {
      var link := links[|links| - 1];
      assert link in links;
      WeightedScoreIsBounded(w, rows, parent, links[..|links| - 1]);
      ScoreOfChildInPercent(w, rows, parent, link.child);
      var rest, child := StatsOf(w, rows, parent, links[..|links| - 1]), StatsOfChild(w, rows, parent, link.child);
      assert StatsOf(w, rows, parent, links) == if Scores(w, link.child) then Add(rest, link, child) else rest;
      hide StatsOf, StatsOfChild, ChildrenAreSound;
      AddKeepsBound(rest, link, child);
    }
  }

  lemma AddKeepsBound(stats: Stats, link: ChildLink, child: ChildStats)
    requires 0.0 <= stats.weight && 0.0 <= stats.weightedScore <= 100.0 * stats.weight && link.weight >= 0
    requires InPercent(child.score)
    ensures var sum := Add(stats, link, child); 0.0 <= sum.weight && 0.0 <= sum.weightedScore <= 100.0 * sum.weight
  {
    hide MaxOption;
    ProductIsBounded(child.score, link.weight as real);
    var product := child.score * link.weight as real;
    assert 0.0 <= product <= 100.0 * link.weight as real;
  }

  lemma ProductIsBounded(score: real, weight: real)
    requires InPercent(score) && 0.0 <= weight
    ensures 0.0 <= score * weight <= 100.0 * weight
  {
    assert (100.0 - score) * weight == 100.0 * weight - score * weight;
  }

  /** With weights that are not negative and scores of childless items between 0 and 100, clamping an average does not
      change it, once the chapters among the children agree with their own children. */
  lemma AverageNeedsNoClamp(w: World, rows: Rows, key: Key)
    requires key in rows && key.item in w.items && rows[key].edit == NoRule
    requires ChildrenAreSound(w, rows, key)
    requires forall link :: link in w.LinksOf(key.item) ==> link.weight >= 0
    ensures var stats := StatsOf(w, rows, key, w.LinksOf(key.item));
            && InPercent(AverageScore(stats))
            && Recomputed(w, rows, key).score == if w.items[key.item].noScore then 0.0 else AverageScore(stats)
  {
    var stats := StatsOf(w, rows, key, w.LinksOf(key.item));
    LinksAreEdges(w, key.item);
    WeightedScoreIsBounded(w, rows, key, w.LinksOf(key.item));
    if stats.weight > 0.0 {
      DivisionInPercent(stats.weightedScore, stats.weight);
    }
    if !stats.present {
      NothingPresent(w, rows, key, w.LinksOf(key.item));
    }
  }

  lemma {:induction false} NothingPresent(w: World, rows: Rows, parent: Key, links: seq<ChildLink>)
    ensures var stats := StatsOf(w, rows, parent, links);
            !stats.present ==> stats == NO_STATS
  {
    if links != [] {
      NothingPresent(w, rows, parent, links[..|links| - 1]);
    }
  }

  lemma DivisionInPercent(x: real, y: real)
    requires y > 0.0 && 0.0 <= x <= 100.0 * y
    ensures 0.0 <= x / y <= 100.0
  {
    var q := x / y;
    assert q * y == x && (100.0 - q) * y == 100.0 * y - x;
    FactorIsNotNegative(q, y);
    FactorIsNotNegative(100.0 - q, y);
  }

  lemma FactorIsNotNegative(a: real, y: real)
    requires y > 0.0 && 0.0 <= a * y
    ensures 0.0 <= a
  {
  }
}
