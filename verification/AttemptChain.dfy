/** Chains of attempts along a path of items: one join over all items of the path, against a walk back from its end. */
module AttemptChain {
  import opened Collections
  import opened Graph

  datatype Attempt = Attempt(root: Option<Id>, parent: Option<Id>, isActive: bool)

  /** The tables as one participant sees them */
  datatype World = World(
    links: Edges,                      // items_items
    canView: map<Id, int>,             // visible_items with can_view_generated_value
    rootItems: set<Id>,                // root activities and skills of the participant's ancestors and managed groups
    attempts: map<Id, Attempt>,
    started: set<(Id, Id)>,            // (attempt, item) of results with a started_at
    numbers: map<(Id, Id), int>)       // (attempt, item): the attempt's number, for items allowing several

  /** can_view >= 'content' */
  const CONTENT: int := 3

  // ---------- The query ----------

  /** Joins and conditions; the row of the `i`-th alias items<i> is the item ids[i]. */
  datatype Clause =
    | FromVisibleItem
    | IsRootItem
    | JoinResult(i: nat)
    | JoinAttempt(i: nat)
    | JoinLink(i: nat)
    | JoinVisibleItem(i: nat)
    | ContentIsVisible(i: nat)
    | SameOrParentAttempt(i: nat)
    | AttemptIsActive(i: nat)
    | AttemptIs(i: nat, attempt: Id)

  /** IF(attempts<i>.root_item_id = items<i>.id, attempts<i>.parent_attempt_id, attempts<i>.id) */
  function PreviousAttempt(w: World, attempt: Id, item: Id): Option<Id>
    requires attempt in w.attempts
  {
    if w.attempts[attempt].root == Some(item) then w.attempts[attempt].parent else Some(attempt)
  }

  predicate SeesContent(w: World, item: Id) {
    item in w.canView && w.canView[item] >= CONTENT
  }

  /** The clause holds of the row with these attempts. */
  predicate Meets(w: World, ids: seq<Id>, clause: Clause, row: seq<Id>) {
    match clause
    case FromVisibleItem => ids != [] && ids[0] in w.canView
    case IsRootItem => ids != [] && ids[0] in w.rootItems
    case JoinResult(i) => i < |row| && i < |ids| && (row[i], ids[i]) in w.started
    case JoinAttempt(i) => i < |row| && row[i] in w.attempts
    case JoinLink(i) => 0 < i < |ids| && (ids[i - 1], ids[i]) in w.links
    case JoinVisibleItem(i) => i < |ids| && ids[i] in w.canView
    case ContentIsVisible(i) => i < |ids| && ids[i] in w.canView && w.canView[ids[i]] >= CONTENT
    case SameOrParentAttempt(i) =>
      0 < i < |row| && i < |ids| && row[i] in w.attempts && PreviousAttempt(w, row[i], ids[i]) == Some(row[i - 1])
    case AttemptIsActive(i) => i < |row| && row[i] in w.attempts && w.attempts[row[i]].isActive
    case AttemptIs(i, attempt) => i < |row| && row[i] == attempt
  }

  predicate MeetsAll(w: World, ids: seq<Id>, query: seq<Clause>, row: seq<Id>) {
    forall clause :: clause in query ==> Meets(w, ids, clause, row)
  }

  // ---------- What the query should select ----------

  predicate LeadsDown(w: World, ids: seq<Id>, i: nat) {
    i + 1 < |ids| && (ids[i], ids[i + 1]) in w.links && SeesContent(w, ids[i])
  }

  /** A way down from a root item whose items are visible, all but the last one with their content */
  predicate IsOpenPath(w: World, ids: seq<Id>, contentOfLast: bool) {
    && ids != [] && ids[0] in w.rootItems
    && (forall i :: 0 <= i < |ids| ==> ids[i] in w.canView)
    && (forall i :: 0 <= i < |ids| - 1 ==> LeadsDown(w, ids, i))
    && (contentOfLast ==> SeesContent(w, ids[|ids| - 1]))
  }

  /** Walking back from an attempt at the last item: each result is started, and at the root item of an attempt
      the walk goes on in the parent attempt. */
  function WalkBack(w: World, ids: seq<Id>, attempt: Id): Option<seq<Id>>
    requires ids != []
  {
    var n := |ids| - 1;
    if attempt !in w.attempts || (attempt, ids[n]) !in w.started then None
    else if n == 0 then Some([attempt])
    else
      var previous := PreviousAttempt(w, attempt, ids[n]);
      if previous.None? then None else
        var walk := WalkBack(w, ids[..n], previous.value);
        if walk.None? then None else Some(walk.value + [attempt])
  }

  predicate IsStarted(w: World, ids: seq<Id>, row: seq<Id>, i: nat) {
    i < |row| && i < |ids| && row[i] in w.attempts && (row[i], ids[i]) in w.started
  }

  /** The attempt before is the same or, at the root item of the attempt, its parent. */
  predicate Continues(w: World, ids: seq<Id>, row: seq<Id>, i: nat) {
    0 < i < |row| && i < |ids| && row[i] in w.attempts && PreviousAttempt(w, row[i], ids[i]) == Some(row[i - 1])
  }

  /** What the join asks of a vector of attempts */
  predicate IsChain(w: World, ids: seq<Id>, row: seq<Id>) {
    && (forall i :: 0 <= i < |row| ==> IsStarted(w, ids, row, i))
    && forall i :: 0 < i < |row| ==> Continues(w, ids, row, i)
  }

  /** A vector of attempts for the whole path matches exactly when it is the one the walk back finds:
      there is one if the walk succeeds, none otherwise, and never two. */
  lemma {:induction false} JoinIsWalkBack(w: World, ids: seq<Id>, attempt: Id, row: seq<Id>)
    requires ids != [] && |row| == |ids|
    ensures IsChain(w, ids, row) && row[|ids| - 1] == attempt <==> WalkBack(w, ids, attempt) == Some(row)
  {
    var n := |ids| - 1;
    if n == 0 {
      assert row == [row[0]];
      assert IsChain(w, ids, row) <==> IsStarted(w, ids, row, 0);
    } else {
      var fewer := row[..n];
      assert row == fewer + [row[n]];
      assert forall i :: 0 <= i < n ==> IsStarted(w, ids[..n], fewer, i) == IsStarted(w, ids, row, i);
      assert forall i :: 0 < i < n ==> Continues(w, ids[..n], fewer, i) == Continues(w, ids, row, i);
      assert IsChain(w, ids, row) <==>
             IsChain(w, ids[..n], fewer) && IsStarted(w, ids, row, n) && Continues(w, ids, row, n);
      if attempt in w.attempts && PreviousAttempt(w, attempt, ids[n]).Some? {
        var previous := PreviousAttempt(w, attempt, ids[n]).value;
        JoinIsWalkBack(w, ids[..n], previous, fewer);
        WalkBackLength(w, ids[..n], previous);
      }
    }
  }

  lemma {:induction false} WalkBackLength(w: World, ids: seq<Id>, attempt: Id)
    requires ids != []
    ensures WalkBack(w, ids, attempt).Some? ==> |WalkBack(w, ids, attempt).value| == |ids|
  {
    var n := |ids| - 1;
    if n > 0 && attempt in w.attempts && PreviousAttempt(w, attempt, ids[n]).Some? {
      WalkBackLength(w, ids[..n], PreviousAttempt(w, attempt, ids[n]).value);
    }
  }

  /** The attempt leads to the one before it in the path: the same, or its parent if it was started at this item. */
  predicate Precedes(w: World, before: Id, attempt: Id, item: Id)
    requires attempt in w.attempts
  {
    || (before == attempt && w.attempts[attempt].root != Some(item))
    || (w.attempts[attempt].root == Some(item) && w.attempts[attempt].parent == Some(before))
  }

  /** Started results of the items of the path, from the given attempt at the last one back to the first */
  predicate IsHierarchy(w: World, ids: seq<Id>, row: seq<Id>, attempt: Id) {
    && ids != [] && |row| == |ids| && row[|ids| - 1] == attempt
    && (forall i :: 0 <= i < |ids| ==> row[i] in w.attempts && (row[i], ids[i]) in w.started)
    && forall i :: 0 < i < |ids| ==> Precedes(w, row[i - 1], row[i], ids[i])
  }

  lemma HierarchyIsWalkBack(w: World, ids: seq<Id>, attempt: Id, row: seq<Id>)
    requires ids != []
    ensures IsHierarchy(w, ids, row, attempt) <==> WalkBack(w, ids, attempt) == Some(row)
  {
    WalkBackLength(w, ids, attempt);
    if |row| == |ids| {
      JoinIsWalkBack(w, ids, attempt, row);
      hide WalkBack;
      if IsChain(w, ids, row) && row[|ids| - 1] == attempt {
        forall i | 0 <= i < |ids|
          ensures row[i] in w.attempts && (row[i], ids[i]) in w.started
        {
          assert IsStarted(w, ids, row, i);
        }
        forall i | 0 < i < |ids|
          ensures Precedes(w, row[i - 1], row[i], ids[i])
        {
          assert Continues(w, ids, row, i);
        }
      }
    }
  }

  /** The results up to the last item but one, from the parent attempt back; a path of one item has none. */
  predicate IsParentHierarchy(w: World, ids: seq<Id>, row: seq<Id>, parentAttempt: Id)
    requires ids != []
  {
    if |ids| == 1 then row == [] else IsHierarchy(w, ids[..|ids| - 1], row, parentAttempt)
  }

  lemma ParentHierarchyIsWalk(w: World, ids: seq<Id>, parentAttempt: Id)
    requires ids != []
    ensures forall row :: IsParentHierarchy(w, ids, row, parentAttempt) <==>
                          ParentWalk(w, ids, parentAttempt) == Some(row)
  {
    forall row
      ensures IsParentHierarchy(w, ids, row, parentAttempt) <==> ParentWalk(w, ids, parentAttempt) == Some(row)
    {
      if |ids| > 1 {
        HierarchyIsWalkBack(w, ids[..|ids| - 1], parentAttempt, row);
      }
    }
  }

  // ---------- Building the query ----------

  predicate IsActive(w: World, row: seq<Id>, i: nat) {
    i < |row| && row[i] in w.attempts && w.attempts[row[i]].isActive
  }

  predicate IsOpenLink(w: World, ids: seq<Id>, i: nat) {
    0 < i < |ids| && (ids[i - 1], ids[i]) in w.links && ids[i] in w.canView && SeesContent(w, ids[i - 1])
  }

  /** What the clauses added for the items up to `n` ask for */
  predicate MeetsChainUpTo(w: World, ids: seq<Id>, row: seq<Id>, n: nat, requireActive: bool)
    requires 0 < n <= |ids| <= |row| + 1
  {
    && ids[0] in w.canView && ids[0] in w.rootItems
    && (forall i :: 0 < i < n ==> IsOpenLink(w, ids, i))
    && (forall i :: 0 <= i < n - 1 ==> IsStarted(w, ids, row, i))
    && (forall i :: 0 < i < n && i != |ids| - 1 ==> Continues(w, ids, row, i))
    && (requireActive ==> forall i :: 0 <= i < n - 1 ==> IsActive(w, row, i))
  }

  /** The join of all items but the last with their results and attempts */
  method ItemAttemptChainWithoutAttemptForTail(ids: seq<Id>, requireAttemptsToBeActive: bool,
                                               requireContentAccessToTheLastItem: bool)
    returns (query: seq<Clause>)
    requires ids != []
    ensures forall w, row :: |row| >= |ids| - 1 ==>
              (MeetsAll(w, ids, query, row) <==>
                 MeetsChainUpTo(w, ids, row, |ids|, requireAttemptsToBeActive) &&
                 (requireContentAccessToTheLastItem ==> SeesContent(w, ids[|ids| - 1])))
  {
    query := [FromVisibleItem, IsRootItem];
    assert query[0] in query && query[1] in query;
    for i := 1 to |ids|
      invariant forall w, row :: |row| >= |ids| - 1 ==>
                  (MeetsAll(w, ids, query, row) <==> MeetsChainUpTo(w, ids, row, i, requireAttemptsToBeActive))
    {
      var added := [JoinResult(i - 1), JoinAttempt(i - 1), JoinLink(i), JoinVisibleItem(i), ContentIsVisible(i - 1)]
                   + (if i != |ids| - 1 then [SameOrParentAttempt(i)] else [])
                   + (if requireAttemptsToBeActive then [AttemptIsActive(i - 1)] else []);
      forall w, row: seq<Id> | |row| >= |ids| - 1
        ensures MeetsAll(w, ids, query + added, row) <==> MeetsChainUpTo(w, ids, row, i + 1, requireAttemptsToBeActive)
      {
        OneMoreItem(w, ids, row, i, requireAttemptsToBeActive, query, added);
      }
      query := query + added;
    }
    if requireContentAccessToTheLastItem {
      forall w, row
        ensures MeetsAll(w, ids, query + [ContentIsVisible(|ids| - 1)], row) <==>
                  MeetsAll(w, ids, query, row) && SeesContent(w, ids[|ids| - 1])
      {
        BothMeet(w, ids, query, [ContentIsVisible(|ids| - 1)], row);
      }
      query := query + [ContentIsVisible(|ids| - 1)];
    }
  }

  lemma BothMeet(w: World, ids: seq<Id>, a: seq<Clause>, b: seq<Clause>, row: seq<Id>)
    ensures MeetsAll(w, ids, a + b, row) <==> MeetsAll(w, ids, a, row) && MeetsAll(w, ids, b, row)
    ensures b != [] ==> (MeetsAll(w, ids, b, row) <==> Meets(w, ids, b[0], row) && MeetsAll(w, ids, b[1..], row))
  {
    assert forall clause :: clause in a + b <==> clause in a || clause in b;
    if b != [] {
      assert b == [b[0]] + b[1..];
    }
  }

  lemma OneMoreItem(w: World, ids: seq<Id>, row: seq<Id>, i: nat, active: bool, query: seq<Clause>, added: seq<Clause>)
    requires 0 < i < |ids| <= |row| + 1
    requires MeetsAll(w, ids, query, row) <==> MeetsChainUpTo(w, ids, row, i, active)
    requires added == [JoinResult(i - 1), JoinAttempt(i - 1), JoinLink(i), JoinVisibleItem(i), ContentIsVisible(i - 1)]
                      + (if i != |ids| - 1 then [SameOrParentAttempt(i)] else [])
                      + (if active then [AttemptIsActive(i - 1)] else [])
    ensures MeetsAll(w, ids, query + added, row) <==> MeetsChainUpTo(w, ids, row, i + 1, active)
  {
    BothMeet(w, ids, query, added, row);
    AddedMeaning(w, ids, row, i, active, added);
    hide Meets, MeetsAll, IsStarted, IsOpenLink, Continues, IsActive;
  }

  lemma AddedMeaning(w: World, ids: seq<Id>, row: seq<Id>, i: nat, active: bool, added: seq<Clause>)
    requires 0 < i < |ids| <= |row| + 1
    requires added == [JoinResult(i - 1), JoinAttempt(i - 1), JoinLink(i), JoinVisibleItem(i), ContentIsVisible(i - 1)]
                      + (if i != |ids| - 1 then [SameOrParentAttempt(i)] else [])
                      + (if active then [AttemptIsActive(i - 1)] else [])
    ensures MeetsAll(w, ids, added, row) <==>
              && IsStarted(w, ids, row, i - 1) && IsOpenLink(w, ids, i)
              && (i != |ids| - 1 ==> Continues(w, ids, row, i))
              && (active ==> IsActive(w, row, i - 1))
  {
    var base := [JoinResult(i - 1), JoinAttempt(i - 1), JoinLink(i), JoinVisibleItem(i), ContentIsVisible(i - 1)];
    var same := if i != |ids| - 1 then [SameOrParentAttempt(i)] else [];
    var isActive := if active then [AttemptIsActive(i - 1)] else [];
    BaseMeaning(w, ids, row, i, base);
    BothMeet(w, ids, base + same, isActive, row);
    BothMeet(w, ids, base, same, row);
    hide SeesContent, PreviousAttempt, IsOpenLink, IsStarted;
    assert i != |ids| - 1 ==> same[1..] == [];
    assert active ==> isActive[1..] == [];
  }

  lemma BaseMeaning(w: World, ids: seq<Id>, row: seq<Id>, i: nat, base: seq<Clause>)
    requires 0 < i < |ids| <= |row| + 1
    requires base == [JoinResult(i - 1), JoinAttempt(i - 1), JoinLink(i), JoinVisibleItem(i), ContentIsVisible(i - 1)]
    ensures MeetsAll(w, ids, base, row) <==> IsStarted(w, ids, row, i - 1) && IsOpenLink(w, ids, i)
  {
    assert base[0] in base && base[1] in base && base[2] in base && base[3] in base && base[4] in base;
    assert forall clause :: clause in base ==> clause in {base[0], base[1], base[2], base[3], base[4]};
  }

  // ---------- Running the query ----------

  /** All vectors of `n` attempts */
  function Vectors(attempts: set<Id>, n: nat): set<seq<Id>> {
    if n == 0 then {[]} else Extended(Vectors(attempts, n - 1), attempts)
  }

  function Extended(vectors: set<seq<Id>>, attempts: set<Id>): set<seq<Id>> {
    set v, a | v in vectors && a in attempts :: v + [a]
  }

  lemma ExtendedMeaning(vectors: set<seq<Id>>, attempts: set<Id>, v: seq<Id>)
    ensures v in Extended(vectors, attempts) <==> v != [] && v[..|v| - 1] in vectors && v[|v| - 1] in attempts
  {
    if v in Extended(vectors, attempts) {
      var u, a :| u in vectors && a in attempts && v == u + [a];
      assert v[..|v| - 1] == u;
    }
    if v != [] && v[..|v| - 1] in vectors && v[|v| - 1] in attempts {
      var u, a := v[..|v| - 1], v[|v| - 1];
      assert u + [a] in Extended(vectors, attempts) && v == u + [a];
    }
  }

  lemma {:induction false} VectorsAreAll(attempts: set<Id>, n: nat, v: seq<Id>)
    ensures v in Vectors(attempts, n) <==> |v| == n && forall i :: 0 <= i < n ==> v[i] in attempts
  {
    if n > 0 {
      ExtendedMeaning(Vectors(attempts, n - 1), attempts, v);
      if v != [] {
        VectorsAreAll(attempts, n - 1, v[..|v| - 1]);
      }
    }
  }

  function Rows(w: World, ids: seq<Id>, query: seq<Clause>, n: nat): set<seq<Id>> {
    set row | row in Vectors(w.attempts.Keys, n) && MeetsAll(w, ids, query, row)
  }

  /** The items of a path differ because the item graph has no cycle. */
  lemma PathItemsDiffer(w: World, ids: seq<Id>, i: nat, j: nat)
    requires Acyclic(w.links) && i < j < |ids|
    requires forall k :: 0 <= k < |ids| - 1 ==> LeadsDown(w, ids, k)
    ensures ids[i] != ids[j]
  {
    var path := ids[i..j + 1];
    forall k | 0 <= k < |path| - 1
      ensures (path[k], path[k + 1]) in w.links
    {
      assert LeadsDown(w, ids, i + k) && path[k] == ids[i + k] && path[k + 1] == ids[i + k + 1];
    }
    assert Joins(w.links, path, ids[i], ids[j]) && Reaches(w.links, ids[i], ids[j]);
  }

  function NumberOf(w: World, attempt: Id, item: Id): Option<int> {
    if (attempt, item) in w.numbers then Some(w.numbers[(attempt, item)]) else None
  }

  function AttemptIDs(ids: seq<Id>, row: seq<Id>, n: nat): map<Id, Id>
    requires n <= |ids| == |row|
  {
    if n == 0 then map[] else AttemptIDs(ids, row, n - 1)[ids[n - 1] := row[n - 1]]
  }

  function AttemptNumbers(w: World, ids: seq<Id>, row: seq<Id>, n: nat): map<Id, int>
    requires n <= |ids| == |row|
  {
    if n == 0 then map[] else
      var numbers, number := AttemptNumbers(w, ids, row, n - 1), NumberOf(w, row[n - 1], ids[n - 1]);
      if number.Some? then numbers[ids[n - 1] := number.value] else numbers
  }

  /** One map for attempts and one for their numbers; later items of the path overwrite earlier ones. */
  method ResultsForBreadcrumbsHierarchy(w: World, ids: seq<Id>, row: seq<Id>)
    returns (attemptIDMap: map<Id, Id>, attemptNumberMap: map<Id, int>)
    requires |row| == |ids|
    ensures attemptIDMap == AttemptIDs(ids, row, |ids|) && attemptNumberMap == AttemptNumbers(w, ids, row, |ids|)
  {
    attemptIDMap, attemptNumberMap := map[], map[];
    for idIndex := 0 to |ids|
      invariant attemptIDMap == AttemptIDs(ids, row, idIndex)
      invariant attemptNumberMap == AttemptNumbers(w, ids, row, idIndex)
    {
      attemptIDMap := attemptIDMap[ids[idIndex] := row[idIndex]];
      var number := NumberOf(w, row[idIndex], ids[idIndex]);
      if number.Some? {
        attemptNumberMap := attemptNumberMap[ids[idIndex] := number.value];
      }
    }
  }

  /** Both maps describe the first `n` attempts of the vector, item by item. */
  ghost predicate Describes(w: World, ids: seq<Id>, row: seq<Id>, n: nat, attemptIDMap: map<Id, Id>,
                            attemptNumberMap: map<Id, int>)
    requires n <= |ids| == |row|
  {
    && (forall id :: id in attemptIDMap <==> id in ids[..n])
    && (forall id :: id in attemptNumberMap ==> id in ids[..n])
    && forall i :: 0 <= i < n ==>
         && ids[i] in attemptIDMap && attemptIDMap[ids[i]] == row[i]
         && (ids[i] in attemptNumberMap <==> (row[i], ids[i]) in w.numbers)
         && (ids[i] in attemptNumberMap ==> attemptNumberMap[ids[i]] == w.numbers[(row[i], ids[i])])
  }

  /** No entry overwrites another, because the items of the path differ. */
  lemma {:induction false} MapsDescribe(w: World, ids: seq<Id>, row: seq<Id>, n: nat)
    requires Acyclic(w.links) && n <= |ids| == |row|
    requires forall k :: 0 <= k < |ids| - 1 ==> LeadsDown(w, ids, k)
    ensures Describes(w, ids, row, n, AttemptIDs(ids, row, n), AttemptNumbers(w, ids, row, n))
  {
    if n > 0 {
      MapsDescribe(w, ids, row, n - 1);
      forall i | 0 <= i < n - 1
        ensures ids[i] != ids[n - 1]
      {
        PathItemsDiffer(w, ids, i, n - 1);
      }
      hide NumberOf, Acyclic;
      assert ids[..n] == ids[..n - 1] + [ids[n - 1]];
    }
  }

  datatype Hierarchy = Hierarchy(attemptIDMap: map<Id, Id>, attemptNumberMap: map<Id, int>)

  method BreadcrumbsHierarchyForAttempt(w: World, ids: seq<Id>, attempt: Id) returns (found: Option<Hierarchy>)
    requires Acyclic(w.links)
    ensures found.Some? <==> IsOpenPath(w, ids, false) && exists row :: IsHierarchy(w, ids, row, attempt)
    ensures found.Some? ==>
              forall row :: IsHierarchy(w, ids, row, attempt) ==>
                Describes(w, ids, row, |ids|, found.value.attemptIDMap, found.value.attemptNumberMap)
    ensures found.Some? <==> IsOpenPath(w, ids, false) && WalkBack(w, ids, attempt).Some?
    ensures found.Some? ==>
              && |WalkBack(w, ids, attempt).value| == |ids|
              && Describes(w, ids, WalkBack(w, ids, attempt).value, |ids|, found.value.attemptIDMap,
                           found.value.attemptNumberMap)
  {
    if ids == [] {
      return None;
    }
    var last := |ids| - 1;
    forall row
      ensures IsHierarchy(w, ids, row, attempt) <==> WalkBack(w, ids, attempt) == Some(row)
    {
      HierarchyIsWalkBack(w, ids, attempt, row);
    }
    hide IsHierarchy;
    var chain := ItemAttemptChainWithoutAttemptForTail(ids, false, false);
    var tail := [AttemptIs(last, attempt), JoinResult(last), JoinAttempt(last)] +
                if |ids| > 1 then [SameOrParentAttempt(last)] else [];
    forall row: seq<Id> | |row| == |ids|
      ensures MeetsAll(w, ids, chain + tail, row) <==>
              IsOpenPath(w, ids, false) && IsChain(w, ids, row) && row[last] == attempt
    {
      WithTail(w, ids, row, chain, tail, attempt);
    }
    var rows := Rows(w, ids, chain + tail, |ids|);
    RowsAreTheWalk(w, ids, attempt, chain + tail, rows);
    if rows == {} {
      return None;
    }
    WalkBackLength(w, ids, attempt);
    var row :| row in rows;
    var attemptIDMap, attemptNumberMap := ResultsForBreadcrumbsHierarchy(w, ids, row);
    MapsDescribe(w, ids, row, |ids|);
    return Some(Hierarchy(attemptIDMap, attemptNumberMap));
  }

  lemma WithTail(w: World, ids: seq<Id>, row: seq<Id>, chain: seq<Clause>, tail: seq<Clause>, attempt: Id)
    requires ids != [] && |row| == |ids|
    requires MeetsAll(w, ids, chain, row) <==> MeetsChainUpTo(w, ids, row, |ids|, false)
    requires tail == [AttemptIs(|ids| - 1, attempt), JoinResult(|ids| - 1), JoinAttempt(|ids| - 1)] +
                     if |ids| > 1 then [SameOrParentAttempt(|ids| - 1)] else []
    ensures MeetsAll(w, ids, chain + tail, row) <==>
            IsOpenPath(w, ids, false) && IsChain(w, ids, row) && row[|ids| - 1] == attempt
  {
    BothMeet(w, ids, chain, tail, row);
    TailMeaning(w, ids, row, tail, attempt);
    OpenLinksMakePath(w, ids);
    hide MeetsAll, IsOpenLink, IsOpenPath, SeesContent, IsStarted, Continues;
  }

  lemma OpenLinksMakePath(w: World, ids: seq<Id>)
    requires ids != []
    ensures IsOpenPath(w, ids, false) <==>
              ids[0] in w.canView && ids[0] in w.rootItems && forall i :: 0 < i < |ids| ==> IsOpenLink(w, ids, i)
    ensures IsOpenPath(w, ids, true) <==> IsOpenPath(w, ids, false) && SeesContent(w, ids[|ids| - 1])
  {
    hide SeesContent;
    if forall i :: 0 < i < |ids| ==> IsOpenLink(w, ids, i) {
      forall i | 0 <= i < |ids| - 1
        ensures LeadsDown(w, ids, i)
      {
        assert IsOpenLink(w, ids, i + 1);
      }
      forall i | 0 <= i < |ids|
        ensures ids[0] in w.canView ==> ids[i] in w.canView
      {
        assert i > 0 ==> IsOpenLink(w, ids, i);
      }
    }
    if IsOpenPath(w, ids, false) {
      forall i | 0 < i < |ids|
        ensures IsOpenLink(w, ids, i)
      {
        assert LeadsDown(w, ids, i - 1);
      }
    }
  }

  lemma TailMeaning(w: World, ids: seq<Id>, row: seq<Id>, tail: seq<Clause>, attempt: Id)
    requires ids != [] && |row| == |ids|
    requires tail == [AttemptIs(|ids| - 1, attempt), JoinResult(|ids| - 1), JoinAttempt(|ids| - 1)] +
                     if |ids| > 1 then [SameOrParentAttempt(|ids| - 1)] else []
    ensures MeetsAll(w, ids, tail, row) <==>
              IsStarted(w, ids, row, |ids| - 1) && row[|ids| - 1] == attempt &&
                (|ids| > 1 ==> Continues(w, ids, row, |ids| - 1))
  {
    hide PreviousAttempt;
    assert tail[0] in tail && tail[1] in tail && tail[2] in tail && (|ids| > 1 ==> tail[3] in tail);
    forall clause | clause in tail
      ensures clause in {tail[0], tail[1], tail[2]} || (|ids| > 1 && clause == tail[3])
    {
    }
  }

  lemma RowsAreTheWalk(w: World, ids: seq<Id>, attempt: Id, query: seq<Clause>, rows: set<seq<Id>>)
    requires ids != [] && rows == Rows(w, ids, query, |ids|)
    requires forall row: seq<Id> :: |row| == |ids| ==>
               (MeetsAll(w, ids, query, row) <==>
                IsOpenPath(w, ids, false) && IsChain(w, ids, row) && row[|ids| - 1] == attempt)
    ensures rows == if IsOpenPath(w, ids, false) && WalkBack(w, ids, attempt).Some?
                    then {WalkBack(w, ids, attempt).value} else {}
  {
    hide IsOpenPath, WalkBack;
    WalkBackLength(w, ids, attempt);
    forall row
      ensures row in rows <==> IsOpenPath(w, ids, false) && WalkBack(w, ids, attempt) == Some(row)
    {
      VectorsAreAll(w.attempts.Keys, |ids|, row);
      if |row| == |ids| {
        JoinIsWalkBack(w, ids, attempt, row);
        assert MeetsAll(w, ids, query, row) <==> IsOpenPath(w, ids, false) && WalkBack(w, ids, attempt) == Some(row);
        if IsChain(w, ids, row) {
          forall i | 0 <= i < |ids|
            ensures row[i] in w.attempts.Keys
          {
            assert IsStarted(w, ids, row, i);
          }
        }
      }
    }
  }

  // ---------- Hierarchies without an attempt for the last item ----------

  /** The walk back from the parent attempt at the last item but one; paths of one item need none. */
  function ParentWalk(w: World, ids: seq<Id>, parentAttempt: Id): (walk: Option<seq<Id>>)
    requires ids != []
  {
    if |ids| == 1 then Some([]) else WalkBack(w, ids[..|ids| - 1], parentAttempt)
  }

  predicate AllActive(w: World, row: seq<Id>) {
    forall i :: 0 <= i < |row| ==> IsActive(w, row, i)
  }

  method ParticipationHierarchyForParentAttempt(w: World, ids: seq<Id>, parentAttempt: Id, requireActive: bool,
                                                contentOfLast: bool)
    returns (rows: set<seq<Id>>)
    requires ids != []
    ensures var walk := ParentWalk(w, ids, parentAttempt);
            rows == if IsOpenPath(w, ids, contentOfLast) && walk.Some? && (requireActive ==> AllActive(w, walk.value))
                    then {walk.value} else {}
    ensures forall row :: row in rows <==>
              && IsOpenPath(w, ids, contentOfLast) && IsParentHierarchy(w, ids, row, parentAttempt)
              && (requireActive ==> AllActive(w, row))
  {
    ParentHierarchyIsWalk(w, ids, parentAttempt);
    var query := ItemAttemptChainWithoutAttemptForTail(ids, requireActive, contentOfLast);
    var tail := if |ids| > 1 then [AttemptIs(|ids| - 2, parentAttempt)] else [];
    forall row: seq<Id> | |row| == |ids| - 1
      ensures MeetsAll(w, ids, query + tail, row) <==>
              IsParentRow(w, ids, parentAttempt, requireActive, contentOfLast, row)
    {
      ParentRowMeaning(w, ids, parentAttempt, requireActive, contentOfLast, query, tail, row);
    }
    rows := Rows(w, ids, query + tail, |ids| - 1);
    hide IsOpenPath, ParentWalk, AllActive, IsParentHierarchy;
    RowsAreTheParentWalk(w, ids, parentAttempt, requireActive, contentOfLast, query + tail, rows);
  }

  ghost predicate IsParentRow(w: World, ids: seq<Id>, parentAttempt: Id, requireActive: bool, contentOfLast: bool,
                              row: seq<Id>)
    requires ids != []
  {
    IsOpenPath(w, ids, contentOfLast) && ParentWalk(w, ids, parentAttempt) == Some(row) &&
      (requireActive ==> AllActive(w, row))
  }

  lemma ParentRowMeaning(w: World, ids: seq<Id>, parentAttempt: Id, requireActive: bool, contentOfLast: bool,
                         query: seq<Clause>, tail: seq<Clause>, row: seq<Id>)
    requires ids != [] && |row| == |ids| - 1
    requires MeetsAll(w, ids, query, row) <==>
               MeetsChainUpTo(w, ids, row, |ids|, requireActive) && (contentOfLast ==> SeesContent(w, ids[|ids| - 1]))
    requires tail == if |ids| > 1 then [AttemptIs(|ids| - 2, parentAttempt)] else []
    ensures MeetsAll(w, ids, query + tail, row) <==>
            IsParentRow(w, ids, parentAttempt, requireActive, contentOfLast, row)
  {
    BothMeet(w, ids, query, tail, row);
    OpenLinksMakePath(w, ids);
    var n := |ids| - 1;
    assert n > 0 ==> tail[0] in tail;
    hide SeesContent, IsOpenPath, IsOpenLink, IsActive;
    assert forall i :: 0 <= i < n ==> IsStarted(w, ids[..n], row, i) == IsStarted(w, ids, row, i);
    assert forall i :: 0 < i < n ==> Continues(w, ids[..n], row, i) == Continues(w, ids, row, i);
    if n > 0 {
      JoinIsWalkBack(w, ids[..n], parentAttempt, row);
    } else {
      assert row == [];
    }
  }

  lemma RowsAreTheParentWalk(w: World, ids: seq<Id>, parentAttempt: Id, requireActive: bool, contentOfLast: bool,
                             query: seq<Clause>, rows: set<seq<Id>>)
    requires ids != [] && rows == Rows(w, ids, query, |ids| - 1)
    requires forall row: seq<Id> :: |row| == |ids| - 1 ==>
               (MeetsAll(w, ids, query, row) <==> IsParentRow(w, ids, parentAttempt, requireActive, contentOfLast, row))
    ensures forall row :: row in rows <==> IsParentRow(w, ids, parentAttempt, requireActive, contentOfLast, row)
  {
    var n := |ids| - 1;
    forall row
      ensures row in rows <==> IsParentRow(w, ids, parentAttempt, requireActive, contentOfLast, row)
    {
      VectorsAreAll(w.attempts.Keys, n, row);
      if IsParentRow(w, ids, parentAttempt, requireActive, contentOfLast, row) && n > 0 {
        WalkBackLength(w, ids[..n], parentAttempt);
        JoinIsWalkBack(w, ids[..n], parentAttempt, row);
        forall i | 0 <= i < n
          ensures row[i] in w.attempts.Keys
        {
          assert IsStarted(w, ids[..n], row, i);
        }
      }
    }
  }

  method IsValidParticipationHierarchyForParentAttempt(w: World, ids: seq<Id>, parentAttempt: Id, contentOfLast: bool)
    returns (valid: bool)
    ensures valid <==>
              && IsOpenPath(w, ids, contentOfLast) && (|ids| == 1 ==> parentAttempt == 0)
              && ParentWalk(w, ids, parentAttempt).Some? && AllActive(w, ParentWalk(w, ids, parentAttempt).value)
    ensures valid <==>
              && IsOpenPath(w, ids, contentOfLast) && (|ids| == 1 ==> parentAttempt == 0)
              && exists row :: IsParentHierarchy(w, ids, row, parentAttempt) && AllActive(w, row)
  {
    if ids == [] || (|ids| == 1 && parentAttempt != 0) {
      return false;
    }
    var rows := ParticipationHierarchyForParentAttempt(w, ids, parentAttempt, true, contentOfLast);
    ParentHierarchyIsWalk(w, ids, parentAttempt);
    hide IsOpenPath, ParentWalk, AllActive, IsParentHierarchy;
    valid := rows != {};
  }

  method BreadcrumbsHierarchyForParentAttempt(w: World, ids: seq<Id>, parentAttempt: Id)
    returns (found: Option<Hierarchy>)
    requires Acyclic(w.links)
    ensures found.Some? <==>
              IsOpenPath(w, ids, false) && (|ids| == 1 ==> parentAttempt == 0) &&
                ParentWalk(w, ids, parentAttempt).Some?
    ensures found.Some? ==>
              var n, walk := |ids| - 1, ParentWalk(w, ids, parentAttempt).value;
              |walk| == n && Describes(w, ids[..n], walk, n, found.value.attemptIDMap, found.value.attemptNumberMap)
    ensures found.Some? <==>
              && IsOpenPath(w, ids, false) && (|ids| == 1 ==> parentAttempt == 0)
              && exists row :: IsParentHierarchy(w, ids, row, parentAttempt)
    ensures found.Some? ==>
              forall row :: IsParentHierarchy(w, ids, row, parentAttempt) ==>
                Describes(w, ids[..|ids| - 1], row, |ids| - 1, found.value.attemptIDMap, found.value.attemptNumberMap)
  {
    if ids == [] || (|ids| == 1 && parentAttempt != 0) {
      return None;
    }
    var rows := ParticipationHierarchyForParentAttempt(w, ids, parentAttempt, false, false);
    ParentHierarchyIsWalk(w, ids, parentAttempt);
    if rows == {} {
      return None;
    }
    var n := |ids| - 1;
    if n > 0 {
      WalkBackLength(w, ids[..n], parentAttempt);
    }
    var row :| row in rows;
    var attemptIDMap, attemptNumberMap := ResultsForBreadcrumbsHierarchy(w, ids[..n], row);
    forall k | 0 <= k < n - 1
      ensures LeadsDown(w, ids[..n], k)
    {
      assert LeadsDown(w, ids, k);
    }
    MapsDescribe(w, ids[..n], row, n);
    return Some(Hierarchy(attemptIDMap, attemptNumberMap));
  }
}
