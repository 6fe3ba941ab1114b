/** Propagation of results up the item graph and across attempts, as a worklist over marked results: a chunk of changed
    results marks its parents for recomputation, marked results are recomputed bottom-up, and the changed ones go on. */
module ResultPropagation {
  import opened Collections
  import opened Graph
  import opened ResultAggregates

  /** `results_propagate.state` */
  datatype State = ToBePropagated | Propagating | ToBeRecomputed | Recomputing

  type Marks = map<Key, State>

  const NEW_ROW := Row(NEVER, 0, 0, None, 0.0, NoRule)

  predicate Is(marks: Marks, key: Key, state: State) {
    key in marks && marks[key] == state
  }

  function KeysIn(marks: Marks, state: State): set<Key> {
    set k | k in marks && marks[k] == state
  }

  const PROPAGATION_CHUNK_SIZE: nat := 200
  const RECOMPUTATION_CHUNK_SIZE: nat := 1000

  // ---------- Marking the parents of a chunk ----------

  /** The result of `parentItem` that a result counts for: an attempt started at the item itself counts for its parent
      attempt. */
  function ParentKey(w: World, child: Key, parentItem: Id): Option<Key>
    requires (child.participant, child.attempt) in w.attempts
  {
    var attempt := w.attempts[(child.participant, child.attempt)];
    if attempt.root != Some(child.item) then Some(Key(child.participant, child.attempt, parentItem))
    else if attempt.parent.Some? then Some(Key(child.participant, attempt.parent.value, parentItem))
    else None
  }

  /** The query's test of whether the result lies within the item its attempt was started at */
  predicate WithinRoot(w: World, key: Key)
    requires (key.participant, key.attempt) in w.attempts
  {
    var root := w.attempts[(key.participant, key.attempt)].root;
    root.None? || root.value == key.item || (root.value, key.item) in w.itemsAncestors
  }

  /** UPDATE ... SET state = 'propagating' of the chunk */
  function StartPropagating(marks: Marks, chunk: set<Key>): Marks {
    marks + map k | k in chunk :: Propagating
  }

  /** The result may be marked for recomputation: it exists and is not marked so yet, or it may be created. */
  predicate MayBeMarked(w: World, visible: set<(Id, Id)>, rows: Rows, marks: Marks, key: Key) {
    && key.item in w.items
    && (key.participant, key.attempt) in w.attempts
    && if key in rows then !Is(marks, key, ToBeRecomputed)
       else !w.items[key.item].requiresExplicitEntry && (key.participant, key.item) in visible && WithinRoot(w, key)
  }

  predicate IsParentToMark(w: World, visible: set<(Id, Id)>, rows: Rows, marks: Marks, child: Key, e: (Id, Id)) {
    && child in rows && Is(marks, child, Propagating)
    && (child.participant, child.attempt) in w.attempts
    && e.1 == child.item
    && ParentKey(w, child, e.0).Some?
    && MayBeMarked(w, visible, rows, marks, ParentKey(w, child, e.0).value)
  }

  /** results_to_mark */
  function ResultsToMark(w: World, visible: set<(Id, Id)>, rows: Rows, marks: Marks): set<Key> {
    set c, e | c in marks && e in w.ItemEdges() && IsParentToMark(w, visible, rows, marks, c, e) ::
      ParentKey(w, c, e.0).value
  }

  /** INSERT IGNORE INTO results */
  function CreateMissing(rows: Rows, toMark: set<Key>): Rows {
    (map k | k in toMark :: NEW_ROW) + rows
  }

  /** INSERT ... ON DUPLICATE KEY UPDATE state = 'to_be_recomputed' */
  function MarkForRecomputation(marks: Marks, toMark: set<Key>): Marks {
    marks + map k | k in toMark :: ToBeRecomputed
  }

  /** DELETE ... WHERE state = 'propagating' */
  function UnmarkPropagating(marks: Marks): Marks {
    map k | k in marks && marks[k] != Propagating :: marks[k]
  }

  // ---------- Recomputing a chunk ----------

  /** 'to_be_recomputed' results without a child marked so */
  function Eligible(w: World, marks: Marks): set<Key> {
    set k | k in marks && marks[k] == ToBeRecomputed &&
            !exists c :: c in marks && marks[c] == ToBeRecomputed && w.IsChildKey(c, k)
  }

  /** The before_update_results trigger: a newly created result always counts as modified. */
  predicate Modified(before: Row, after: Row) {
    before != after || after.latestActivityAt == NEVER
  }

  function RecomputeRows(w: World, rows: Rows, chunk: set<Key>): Rows {
    rows + map k | k in chunk && k in rows && k.item in w.items :: Recomputed(w, rows, k)
  }

  function MarkModified(marks: Marks, before: Rows, after: Rows, chunk: set<Key>): Marks {
    map k | k in marks && (k !in chunk || (k in before && k in after && Modified(before[k], after[k])))
          :: if k in chunk then ToBePropagated else marks[k]
  }

  // ---------- What the tables always satisfy ----------

  /** Foreign keys, and the result is of the item its attempt was started at, or of one below it. */
  ghost predicate CanExist(w: World, key: Key) {
    && key.item in w.items && (key.participant, key.attempt) in w.attempts
    && var root := w.attempts[(key.participant, key.attempt)].root;
       root.Some? ==> root.value == key.item || Reaches(w.ItemEdges(), root.value, key.item)
  }

  lemma CanExistMeaning(w: World, key: Key)
    requires WellFormed(w)
    ensures CanExist(w, key) <==>
              key.item in w.items && (key.participant, key.attempt) in w.attempts && WithinRoot(w, key)
  {
  }

  ghost predicate WellFormed(w: World) {
    && Acyclic(w.ItemEdges())
    && IsClosure(w.ItemEdges(), w.itemsAncestors)
    && forall e :: e in w.ItemEdges() ==> e.0 in w.items && e.1 in w.items
  }

  /** Foreign keys, and every result lies within the item its attempt was started at. */
  ghost predicate Fits(w: World, rows: Rows, marks: Marks) {
    && (forall k :: k in rows ==> CanExist(w, k))
    && (forall k :: k in marks ==> k in rows)
  }

  /** A child result that will mark its parents: it is marked for propagation, or is newly created and will be. */
  predicate Expecting(rows: Rows, marks: Marks, key: Key) {
    && key in rows
    && (Is(marks, key, ToBePropagated) || Is(marks, key, Propagating) ||
        (Is(marks, key, ToBeRecomputed) && rows[key].latestActivityAt == NEVER))
  }

  /** The result is marked for recomputation or has a child that will see to that. */
  ghost predicate Awaits(w: World, rows: Rows, marks: Marks, key: Key) {
    Is(marks, key, ToBeRecomputed) || exists c :: Expecting(rows, marks, c) && w.IsChildKey(c, key)
  }

  /** Every chapter's result that disagrees with its children awaits its recomputation. */
  ghost predicate Covered(w: World, rows: Rows, marks: Marks) {
    forall k {:trigger Agrees(w, rows, k)} :: k in rows && w.HasChildren(k.item) && !Agrees(w, rows, k) ==>
      Awaits(w, rows, marks, k)
  }

  /** The propagation may create the result: it fits the tables, its item does not ask for an explicit entry, and the
      participant can see the item or an ancestor of it. */
  ghost predicate IsCreatable(w: World, visible: set<(Id, Id)>, key: Key) {
    CanExist(w, key) && (key.participant, key.item) in visible && !w.items[key.item].requiresExplicitEntry
  }

  /** A parent result that should exist, as it can be created and a child result exists, and does not */
  ghost predicate IsMissing(w: World, visible: set<(Id, Id)>, rows: Rows, key: Key) {
    key !in rows && IsCreatable(w, visible, key) && exists c :: c in rows && w.IsChildKey(c, key)
  }

  ghost predicate NoneMissing(w: World, visible: set<(Id, Id)>, rows: Rows) {
    forall key :: !IsMissing(w, visible, rows, key)
  }

  /** Every missing parent result has a child that will see to its creation. */
  ghost predicate MissingAwait(w: World, visible: set<(Id, Id)>, rows: Rows, marks: Marks) {
    forall key {:trigger Awaits(w, rows, marks, key)} ::
      IsMissing(w, visible, rows, key) ==> Awaits(w, rows, marks, key)
  }

  /** Marking parents and counting children are two sides of one relation, because results lie within their roots. */
  lemma ParentsAndChildren(w: World, child: Key, parent: Key)
    requires WellFormed(w) && (child.participant, child.attempt) in w.attempts
    requires (parent.participant, parent.attempt) in w.attempts && WithinRoot(w, parent)
    requires (parent.item, child.item) in w.ItemEdges()
    ensures w.CountsFor(child, parent) <==> ParentKey(w, child, parent.item) == Some(parent)
  {
    EdgeReaches(w.ItemEdges(), parent.item, child.item);
    if Reaches(w.ItemEdges(), child.item, parent.item) {
      ReachesTransitive(w.ItemEdges(), child.item, parent.item, child.item);
    }
    assert (child.item, parent.item) !in w.itemsAncestors && child.item != parent.item;
  }

  // ---------- The marking step ----------

  /** The step marks the result: it may be marked and a child of it is propagating. */
  ghost predicate IsMarkedNow(w: World, visible: set<(Id, Id)>, rows: Rows, marks: Marks, key: Key) {
    MayBeMarked(w, visible, rows, marks, key) && exists c :: Is(marks, c, Propagating) && w.IsChildKey(c, key)
  }

  /** The result does not exist yet, or has never been propagated since it was created. */
  predicate IsNew(rows: Rows, key: Key) {
    key !in rows || rows[key].latestActivityAt == NEVER
  }

  /** What the step does to a child of a result it forgets: a pending propagation outside the chunk is overwritten,
      and no other kind of child sees to the result. */
  ghost predicate IsNoHelp(w: World, visible: set<(Id, Id)>, rows: Rows, marks: Marks, child: Key) {
    && (Is(marks, child, ToBePropagated) ==> IsMarkedNow(w, visible, rows, marks, child))
    && !Is(marks, child, Propagating)
    && !(IsNew(rows, child) && (Is(marks, child, ToBeRecomputed) || IsMarkedNow(w, visible, rows, marks, child)))
  }

  /** The result exists or can be created. */
  ghost predicate IsSubject(w: World, visible: set<(Id, Id)>, rows: Rows, key: Key) {
    key in rows || IsCreatable(w, visible, key)
  }

  /** With this chunk, which is marked as propagating, the step forgets the result: for its recomputation or creation it
      waits for pending propagations of its children only, and all of these are overwritten by the marks for children of
      their own. */
  ghost predicate Forgets(w: World, visible: set<(Id, Id)>, rows: Rows, marks: Marks, key: Key) {
    && IsSubject(w, visible, rows, key) && !Is(marks, key, ToBeRecomputed)
    && (exists p :: Is(marks, p, ToBePropagated) && w.IsChildKey(p, key))
    && forall c :: w.IsChildKey(c, key) ==> IsNoHelp(w, visible, rows, marks, c)
  }

  /** No result is forgotten. */
  ghost predicate NothingIsLost(w: World, visible: set<(Id, Id)>, rows: Rows, marks: Marks) {
    forall key :: key in rows ==> !Forgets(w, visible, rows, marks, key)
  }

  /** Nor is the creation of one. */
  ghost predicate NothingIsLeftOut(w: World, visible: set<(Id, Id)>, rows: Rows, marks: Marks) {
    forall key :: key !in rows ==> !Forgets(w, visible, rows, marks, key)
  }

  /** Every parent of a propagating result is marked, and created if it does not exist and can be created. */
  lemma ParentsAreMarked(w: World, visible: set<(Id, Id)>, rows: Rows, marks: Marks, toMark: set<Key>, c: Key, q: Key)
    requires WellFormed(w) && Fits(w, rows, marks) && toMark == ResultsToMark(w, visible, rows, marks)
    requires Is(marks, c, Propagating) && w.IsChildKey(c, q) && IsSubject(w, visible, rows, q)
    ensures q in CreateMissing(rows, toMark) && Is(MarkForRecomputation(marks, toMark), q, ToBeRecomputed)
  {
    ToMarkMeaning(w, visible, rows, marks, q);
    hide ResultsToMark, WellFormed, Fits;
    RowsCanExist(w, rows, marks);
    assert Is(marks, q, ToBeRecomputed) || q in toMark;
  }

  /** Only such parents are marked or created. */
  lemma OnlyParentsAreMarked(w: World, visible: set<(Id, Id)>, rows: Rows, marks: Marks, toMark: set<Key>, q: Key)
    requires WellFormed(w) && Fits(w, rows, marks) && toMark == ResultsToMark(w, visible, rows, marks) && q in toMark
    ensures IsSubject(w, visible, rows, q) && exists c :: Is(marks, c, Propagating) && w.IsChildKey(c, q)
  {
    ToMarkMeaning(w, visible, rows, marks, q);
  }

  lemma MarkedParentsFit(w: World, visible: set<(Id, Id)>, rows: Rows, marks: Marks)
    requires WellFormed(w) && Fits(w, rows, marks)
    ensures var toMark := ResultsToMark(w, visible, rows, marks);
            Fits(w, CreateMissing(rows, toMark), UnmarkPropagating(MarkForRecomputation(marks, toMark)))
  {
  }

  /** results_to_mark holds exactly the results that may be marked and have a propagating child. */
  lemma ToMarkMeaning(w: World, visible: set<(Id, Id)>, rows: Rows, marks: Marks, key: Key)
    requires WellFormed(w) && Fits(w, rows, marks)
    ensures key in ResultsToMark(w, visible, rows, marks) <==> IsMarkedNow(w, visible, rows, marks, key)
  {
    if key in ResultsToMark(w, visible, rows, marks) {
      var c, e :| c in marks && e in w.ItemEdges() && IsParentToMark(w, visible, rows, marks, c, e) &&
        ParentKey(w, c, e.0).value == key;
      ParentsAndChildren(w, c, key);
      assert e == (key.item, c.item);
      assert Is(marks, c, Propagating) && w.IsChildKey(c, key);
    }
    if IsMarkedNow(w, visible, rows, marks, key) {
      var c :| Is(marks, c, Propagating) && w.IsChildKey(c, key);
      ParentsAndChildren(w, c, key);
      var e := (key.item, c.item);
      assert IsParentToMark(w, visible, rows, marks, c, e) && ParentKey(w, c, e.0).value == key;
    }
  }

  /** After the step a result awaits its recomputation exactly when it is marked, now or before, or has a child that is
      still pending or is new and marked. */
  lemma AwaitsAfterMarking(w: World, visible: set<(Id, Id)>, rows: Rows, marks: Marks, toMark: set<Key>, key: Key,
                           after: Rows, left: Marks)
    requires WellFormed(w) && Fits(w, rows, marks) && toMark == ResultsToMark(w, visible, rows, marks)
    requires after == CreateMissing(rows, toMark) && left == UnmarkPropagating(MarkForRecomputation(marks, toMark))
    ensures Awaits(w, after, left, key) <==>
              || Is(marks, key, ToBeRecomputed) || IsMarkedNow(w, visible, rows, marks, key)
              || exists c :: w.IsChildKey(c, key) && IsHelpAfter(w, visible, rows, marks, c)
  {
    hide WellFormed, Fits, ResultsToMark, IsMarkedNow, CreateMissing, UnmarkPropagating, MarkForRecomputation;
    hide Expecting, IsHelpAfter, Is;
    MarkedRowsExist(w, rows, marks);
    ToMarkMeaning(w, visible, rows, marks, key);
    MarkedAfterwards(marks, toMark, left, key);
    forall c
      ensures Expecting(after, left, c) <==> IsHelpAfter(w, visible, rows, marks, c)
    {
      ToMarkMeaning(w, visible, rows, marks, c);
      ExpectingAfterMarking(w, visible, rows, marks, toMark, c, after, left);
    }
  }

  lemma MarkedRowsExist(w: World, rows: Rows, marks: Marks)
    requires Fits(w, rows, marks)
    ensures forall k :: k in marks ==> k in rows
  {
  }

  lemma RowsCanExist(w: World, rows: Rows, marks: Marks)
    requires Fits(w, rows, marks)
    ensures forall k :: k in rows ==> CanExist(w, k)
  {
  }

  lemma MarkedAfterwards(marks: Marks, toMark: set<Key>, left: Marks, key: Key)
    requires left == UnmarkPropagating(MarkForRecomputation(marks, toMark))
    ensures Is(left, key, ToBeRecomputed) <==> Is(marks, key, ToBeRecomputed) || key in toMark
  {
  }

  /** A child that sees to its parents after the step */
  ghost predicate IsHelpAfter(w: World, visible: set<(Id, Id)>, rows: Rows, marks: Marks, child: Key) {
    || (Is(marks, child, ToBePropagated) && !IsMarkedNow(w, visible, rows, marks, child))
    || (IsNew(rows, child) && (Is(marks, child, ToBeRecomputed) || IsMarkedNow(w, visible, rows, marks, child)))
  }

  lemma ExpectingAfterMarking(w: World, visible: set<(Id, Id)>, rows: Rows, marks: Marks, toMark: set<Key>, c: Key,
                              after: Rows, left: Marks)
    requires forall k :: k in marks ==> k in rows
    requires c in toMark <==> IsMarkedNow(w, visible, rows, marks, c)
    requires after == CreateMissing(rows, toMark) && left == UnmarkPropagating(MarkForRecomputation(marks, toMark))
    ensures Expecting(after, left, c) <==> IsHelpAfter(w, visible, rows, marks, c)
  {
    hide IsMarkedNow;
  }

  lemma ForgottenAwaited(w: World, visible: set<(Id, Id)>, rows: Rows, marks: Marks, key: Key)
    requires Forgets(w, visible, rows, marks, key) && forall k :: k in marks ==> k in rows
    ensures Awaits(w, rows, marks, key) && !IsMarkedNow(w, visible, rows, marks, key)
    ensures forall c :: w.IsChildKey(c, key) ==> !IsHelpAfter(w, visible, rows, marks, c)
  {
    hide MayBeMarked, IsMarkedNow;
    var p :| Is(marks, p, ToBePropagated) && w.IsChildKey(p, key);
    assert Expecting(rows, marks, p);
    forall c | w.IsChildKey(c, key)
      ensures !IsHelpAfter(w, visible, rows, marks, c) && !Is(marks, c, Propagating)
    {
      assert IsNoHelp(w, visible, rows, marks, c);
    }
    NotMarkedWithoutChild(w, visible, rows, marks, key);
  }

  lemma NotMarkedWithoutChild(w: World, visible: set<(Id, Id)>, rows: Rows, marks: Marks, key: Key)
    requires forall c :: w.IsChildKey(c, key) ==> !Is(marks, c, Propagating)
    ensures !IsMarkedNow(w, visible, rows, marks, key)
  {
  }

  lemma LostIsForgotten(w: World, visible: set<(Id, Id)>, rows: Rows, marks: Marks, key: Key)
    requires WellFormed(w) && ((key in rows && CanExist(w, key)) || IsCreatable(w, visible, key))
    requires Awaits(w, rows, marks, key)
    requires !Is(marks, key, ToBeRecomputed) && !IsMarkedNow(w, visible, rows, marks, key)
    requires forall c :: w.IsChildKey(c, key) ==> !IsHelpAfter(w, visible, rows, marks, c)
    ensures Forgets(w, visible, rows, marks, key)
  {
    CanExistMeaning(w, key);
    hide WellFormed, CanExist;
    assert MayBeMarked(w, visible, rows, marks, key);
    forall d | w.IsChildKey(d, key)
      ensures IsNoHelp(w, visible, rows, marks, d)
    {
      assert !IsHelpAfter(w, visible, rows, marks, d);
    }
    var c :| Expecting(rows, marks, c) && w.IsChildKey(c, key);
    assert IsNoHelp(w, visible, rows, marks, c);
    hide IsMarkedNow, MayBeMarked;
    assert Is(marks, c, ToBePropagated);
  }

  /** Exactly the forgotten results awaited their recomputation or creation before the step and do not after it. */
  lemma ForgettingMeaning(w: World, visible: set<(Id, Id)>, rows: Rows, marks: Marks, toMark: set<Key>, key: Key,
                          after: Rows, left: Marks)
    requires WellFormed(w) && Fits(w, rows, marks) && toMark == ResultsToMark(w, visible, rows, marks)
    requires IsSubject(w, visible, rows, key)
    requires after == CreateMissing(rows, toMark) && left == UnmarkPropagating(MarkForRecomputation(marks, toMark))
    ensures Awaits(w, rows, marks, key) && !Awaits(w, after, left, key) <==> Forgets(w, visible, rows, marks, key)
  {
    hide WellFormed, Fits, ResultsToMark, CreateMissing, UnmarkPropagating, MarkForRecomputation, Forgets, IsMarkedNow;
    hide IsHelpAfter, CanExist, IsCreatable;
    AwaitsAfterMarking(w, visible, rows, marks, toMark, key, after, left);
    MarkedRowsExist(w, rows, marks);
    RowsCanExist(w, rows, marks);
    if Forgets(w, visible, rows, marks, key) {
      ForgottenExist(w, visible, rows, marks, key);
      ForgottenAwaited(w, visible, rows, marks, key);
    }
    if Awaits(w, rows, marks, key) && !Awaits(w, after, left, key) {
      assert !Is(marks, key, ToBeRecomputed);
      LostIsForgotten(w, visible, rows, marks, key);
    }
  }

  ghost predicate AllAwait(w: World, visible: set<(Id, Id)>, rows: Rows, marks: Marks, stale: set<Key>) {
    forall k :: k in stale ==> IsSubject(w, visible, rows, k) && Awaits(w, rows, marks, k)
  }

  /** The marking step keeps every possible set of stale results awaiting their recomputation exactly when it forgets
      none, and every possible set of missing results awaiting their creation exactly when it leaves out none. */
  lemma MarkingIsSafeExactlyWhenNothingIsLost(w: World, visible: set<(Id, Id)>, rows: Rows, marks: Marks,
                                              toMark: set<Key>, after: Rows, left: Marks)
    requires WellFormed(w) && Fits(w, rows, marks) && toMark == ResultsToMark(w, visible, rows, marks)
    requires after == CreateMissing(rows, toMark) && left == UnmarkPropagating(MarkForRecomputation(marks, toMark))
    ensures (forall stale :: stale <= rows.Keys && AllAwait(w, visible, rows, marks, stale) ==>
               AllAwait(w, visible, after, left, stale)) <==> NothingIsLost(w, visible, rows, marks)
    ensures (forall missing :: missing !! rows.Keys && AllAwait(w, visible, rows, marks, missing) ==>
               AllAwait(w, visible, after, left, missing)) <==> NothingIsLeftOut(w, visible, rows, marks)
  {
    hide WellFormed, Fits, CreateMissing, UnmarkPropagating, MarkForRecomputation, ResultsToMark, Awaits, Forgets;
    hide AllAwait, IsCreatable;
    if NothingIsLost(w, visible, rows, marks) {
      forall stale | stale <= rows.Keys && AllAwait(w, visible, rows, marks, stale)
        ensures AllAwait(w, visible, after, left, stale)
      {
        AllStillAwait(w, visible, rows, marks, toMark, stale, after, left);
      }
    } else {
      var g :| g in rows && Forgets(w, visible, rows, marks, g);
      OneIsForgotten(w, visible, rows, marks, toMark, g, after, left);
      assert {g} <= rows.Keys;
    }
    if NothingIsLeftOut(w, visible, rows, marks) {
      forall missing | missing !! rows.Keys && AllAwait(w, visible, rows, marks, missing)
        ensures AllAwait(w, visible, after, left, missing)
      {
        AllStillAwait(w, visible, rows, marks, toMark, missing, after, left);
      }
    } else {
      var g :| g !in rows && Forgets(w, visible, rows, marks, g);
      OneIsForgotten(w, visible, rows, marks, toMark, g, after, left);
      assert {g} !! rows.Keys;
    }
  }

  lemma AllStillAwait(w: World, visible: set<(Id, Id)>, rows: Rows, marks: Marks, toMark: set<Key>, stale: set<Key>,
                      after: Rows, left: Marks)
    requires WellFormed(w) && Fits(w, rows, marks) && toMark == ResultsToMark(w, visible, rows, marks)
    requires AllAwait(w, visible, rows, marks, stale)
    requires forall k :: k in stale ==> !Forgets(w, visible, rows, marks, k)
    requires after == CreateMissing(rows, toMark) && left == UnmarkPropagating(MarkForRecomputation(marks, toMark))
    ensures AllAwait(w, visible, after, left, stale)
  {
    hide WellFormed, Fits, CreateMissing, UnmarkPropagating, MarkForRecomputation, ResultsToMark, Awaits, Forgets;
    hide IsCreatable;
    forall k | k in stale
      ensures IsSubject(w, visible, after, k) && Awaits(w, after, left, k)
    {
      RowsAreKept(rows, toMark, k);
      StillAwaits(w, visible, rows, marks, toMark, k, after, left);
    }
  }

  lemma RowsAreKept(rows: Rows, toMark: set<Key>, key: Key)
    ensures key in rows ==> key in CreateMissing(rows, toMark) && CreateMissing(rows, toMark)[key] == rows[key]
  {
  }

  lemma ForgottenExist(w: World, visible: set<(Id, Id)>, rows: Rows, marks: Marks, g: Key)
    requires Forgets(w, visible, rows, marks, g)
    ensures IsSubject(w, visible, rows, g) && !Is(marks, g, ToBeRecomputed)
  {
  }

  lemma OneIsForgotten(w: World, visible: set<(Id, Id)>, rows: Rows, marks: Marks, toMark: set<Key>, g: Key,
                       after: Rows, left: Marks)
    requires WellFormed(w) && Fits(w, rows, marks) && toMark == ResultsToMark(w, visible, rows, marks)
    requires Forgets(w, visible, rows, marks, g)
    requires after == CreateMissing(rows, toMark) && left == UnmarkPropagating(MarkForRecomputation(marks, toMark))
    ensures AllAwait(w, visible, rows, marks, {g}) && !AllAwait(w, visible, after, left, {g})
  {
    hide WellFormed, Fits, CreateMissing, UnmarkPropagating, MarkForRecomputation, ResultsToMark, Awaits, Forgets;
    hide IsCreatable;
    ForgottenExist(w, visible, rows, marks, g);
    ForgettingMeaning(w, visible, rows, marks, toMark, g, after, left);
    assert g in {g};
  }

  lemma StillAwaits(w: World, visible: set<(Id, Id)>, rows: Rows, marks: Marks, toMark: set<Key>, key: Key, after: Rows,
                    left: Marks)
    requires WellFormed(w) && Fits(w, rows, marks) && toMark == ResultsToMark(w, visible, rows, marks)
    requires IsSubject(w, visible, rows, key) && !Forgets(w, visible, rows, marks, key)
    requires Awaits(w, rows, marks, key)
    requires after == CreateMissing(rows, toMark) && left == UnmarkPropagating(MarkForRecomputation(marks, toMark))
    ensures Awaits(w, after, left, key)
  {
    ForgettingMeaning(w, visible, rows, marks, toMark, key, after, left);
  }

  lemma MarkingKeepsCovered(w: World, visible: set<(Id, Id)>, rows: Rows, marks: Marks, toMark: set<Key>, after: Rows,
                            left: Marks)
    requires WellFormed(w) && Fits(w, rows, marks) && toMark == ResultsToMark(w, visible, rows, marks)
    requires Covered(w, rows, marks) && NothingIsLost(w, visible, rows, marks)
    requires after == CreateMissing(rows, toMark) && left == UnmarkPropagating(MarkForRecomputation(marks, toMark))
    ensures Covered(w, after, left)
  {
    forall k | k in after && !Agrees(w, after, k)
      ensures w.HasChildren(k.item) ==> Awaits(w, after, left, k)
    {
      if w.HasChildren(k.item) && k in rows {
        if Agrees(w, rows, k) {
          CreatedChildrenAreExpecting(w, rows, toMark, marks, k);
        } else {
          StillAwaits(w, visible, rows, marks, toMark, k, after, left);
        }
      } else {
        assert k !in rows ==> Is(left, k, ToBeRecomputed);
      }
    }
  }

  /** When nothing is left out, every missing result still has a child that will see to its creation. */
  lemma MarkingKeepsMissingAwaited(w: World, visible: set<(Id, Id)>, rows: Rows, marks: Marks, toMark: set<Key>,
                                   after: Rows, left: Marks)
    requires WellFormed(w) && Fits(w, rows, marks) && toMark == ResultsToMark(w, visible, rows, marks)
    requires MissingAwait(w, visible, rows, marks) && NothingIsLeftOut(w, visible, rows, marks)
    requires after == CreateMissing(rows, toMark) && left == UnmarkPropagating(MarkForRecomputation(marks, toMark))
    ensures MissingAwait(w, visible, after, left)
  {
    hide WellFormed, Fits, ResultsToMark, IsCreatable, Forgets, Awaits, CreateMissing, UnmarkPropagating;
    hide MarkForRecomputation;
    forall q | IsMissing(w, visible, after, q)
      ensures Awaits(w, after, left, q)
    {
      RowsAreKept(rows, toMark, q);
      var c :| c in after && w.IsChildKey(c, q);
      if c in rows {
        assert IsMissing(w, visible, rows, q);
        StillAwaits(w, visible, rows, marks, toMark, q, after, left);
      } else {
        CreatedIsExpecting(w, rows, marks, toMark, c, q, after, left);
      }
    }
  }

  lemma CreatedIsExpecting(w: World, rows: Rows, marks: Marks, toMark: set<Key>, c: Key, q: Key, after: Rows,
                           left: Marks)
    requires after == CreateMissing(rows, toMark) && left == UnmarkPropagating(MarkForRecomputation(marks, toMark))
    requires c in after && c !in rows && w.IsChildKey(c, q)
    ensures Awaits(w, after, left, q)
  {
    assert Expecting(after, left, c);
  }

  /** Created results can change what their parents should be, but then they are expected to see to it. */
  lemma CreatedChildrenAreExpecting(w: World, rows: Rows, toMark: set<Key>, marks: Marks, key: Key)
    requires Agrees(w, rows, key) && key in rows
    ensures var after, left := CreateMissing(rows, toMark), UnmarkPropagating(MarkForRecomputation(marks, toMark));
            Agrees(w, after, key) || Awaits(w, after, left, key)
  {
    var after, left := CreateMissing(rows, toMark), UnmarkPropagating(MarkForRecomputation(marks, toMark));
    if c :| w.IsChildKey(c, key) && c in toMark && c !in rows {
      assert after[c] == NEW_ROW;
      assert Expecting(after, left, c);
    } else {
      assert SameChildren(w, rows, after, key) by {
        forall c | w.IsChildKey(c, key)
          ensures (c in rows <==> c in after) && (c in rows ==> rows[c] == after[c])
        {
        }
      }
      RecomputedDependsOnChildren(w, rows, after, key);
    }
  }

  // ---------- The recomputation step ----------

  /** A recomputed result agrees with its children, none of which is recomputed along with it. */
  lemma EligibleAgreesAfter(w: World, rows: Rows, marks: Marks, chunk: set<Key>, key: Key)
    requires Fits(w, rows, marks) && chunk <= Eligible(w, marks) && key in chunk
    ensures Agrees(w, RecomputeRows(w, rows, chunk), key)
  {
    var after := RecomputeRows(w, rows, chunk);
    forall c | w.IsChildKey(c, key)
      ensures (c in rows <==> c in after) && (c in rows ==> rows[c] == after[c])
    {
      assert c !in chunk;
    }
    RecomputingMakesAgree(w, rows, after, key);
  }

  /** A result of the chunk agrees with its children afterwards, and is to be propagated if its row changed or is new;
      all other rows and marks stay. */
  ghost predicate IsDone(w: World, rows: Rows, marks: Marks, chunk: set<Key>, after: Rows, left: Marks, key: Key) {
    if key in chunk then
      && key in rows && Agrees(w, after, key)
      && if after[key] != rows[key] || after[key].latestActivityAt == NEVER then Is(left, key, ToBePropagated)
         else key !in left
    else
      && (key in after <==> key in rows) && (key in rows ==> after[key] == rows[key])
      && (key in left <==> key in marks) && (key in marks ==> left[key] == marks[key])
  }

  ghost predicate ChunkIsDone(w: World, rows: Rows, marks: Marks, chunk: set<Key>, after: Rows, left: Marks) {
    forall key :: IsDone(w, rows, marks, chunk, after, left, key)
  }

  lemma RecomputingIsDone(w: World, rows: Rows, marks: Marks, chunk: set<Key>, after: Rows, left: Marks)
    requires Fits(w, rows, marks) && chunk <= Eligible(w, marks)
    requires after == RecomputeRows(w, rows, chunk) && left == MarkModified(marks, rows, after, chunk)
    ensures ChunkIsDone(w, rows, marks, chunk, after, left)
  {
    hide Agrees, Recomputed;
    forall key
      ensures IsDone(w, rows, marks, chunk, after, left, key)
    {
      if key in chunk {
        EligibleAgreesAfter(w, rows, marks, chunk, key);
      }
    }
  }

  lemma RecomputingKeepsCovered(w: World, rows: Rows, marks: Marks, chunk: set<Key>, after: Rows, left: Marks)
    requires Fits(w, rows, marks) && Covered(w, rows, marks) && chunk <= Eligible(w, marks)
    requires forall k :: k in marks ==> marks[k] != Propagating
    requires after == RecomputeRows(w, rows, chunk) && left == MarkModified(marks, rows, after, chunk)
    ensures Covered(w, after, left)
  {
    forall k | k in after && w.HasChildren(k.item) && !Agrees(w, after, k)
      ensures Awaits(w, after, left, k)
    {
      if k in chunk {
        EligibleAgreesAfter(w, rows, marks, chunk, k);
      } else if c :| w.IsChildKey(c, k) && c in chunk && c in rows && Modified(rows[c], after[c]) {
        assert Expecting(after, left, c);
      } else {
        UnmodifiedChildren(w, rows, marks, chunk, after, left, k);
      }
    }
  }

  lemma RecomputingKeepsMissingAwaited(w: World, visible: set<(Id, Id)>, rows: Rows, marks: Marks, chunk: set<Key>,
                                       after: Rows, left: Marks)
    requires Fits(w, rows, marks) && MissingAwait(w, visible, rows, marks) && chunk <= Eligible(w, marks)
    requires forall k :: k in marks ==> marks[k] != Propagating
    requires after == RecomputeRows(w, rows, chunk) && left == MarkModified(marks, rows, after, chunk)
    ensures MissingAwait(w, visible, after, left)
  {
    hide IsCreatable, MarkModified, RecomputeRows, Expecting, Eligible;
    RecomputedKeys(w, rows, chunk);
    forall q | IsMissing(w, visible, after, q)
      ensures Awaits(w, after, left, q)
    {
      assert IsMissing(w, visible, rows, q) && !Is(marks, q, ToBeRecomputed);
      assert Awaits(w, rows, marks, q);
      var c :| Expecting(rows, marks, c) && w.IsChildKey(c, q);
      ExpectingIsKept(w, rows, marks, chunk, after, left, c);
    }
  }

  lemma RecomputedKeys(w: World, rows: Rows, chunk: set<Key>)
    ensures RecomputeRows(w, rows, chunk).Keys == rows.Keys
  {
  }

  lemma ExpectingIsKept(w: World, rows: Rows, marks: Marks, chunk: set<Key>, after: Rows, left: Marks, c: Key)
    requires Fits(w, rows, marks) && chunk <= Eligible(w, marks) && Expecting(rows, marks, c)
    requires forall k :: k in marks ==> marks[k] != Propagating
    requires after == RecomputeRows(w, rows, chunk) && left == MarkModified(marks, rows, after, chunk)
    ensures Expecting(after, left, c)
  {
    hide Recomputed;
    NewRowsAreModified(w, rows, chunk);
    assert c in chunk ==> Is(marks, c, ToBeRecomputed);
  }

  lemma NewRowsAreModified(w: World, rows: Rows, chunk: set<Key>)
    requires forall k :: k in chunk ==> k in rows && k.item in w.items
    ensures forall k :: k in chunk && rows[k].latestActivityAt == NEVER ==>
              Modified(rows[k], RecomputeRows(w, rows, chunk)[k])
  {
  }

  lemma UnmodifiedChildren(w: World, rows: Rows, marks: Marks, chunk: set<Key>, after: Rows, left: Marks, key: Key)
    requires Fits(w, rows, marks) && Covered(w, rows, marks) && chunk <= Eligible(w, marks)
    requires forall k :: k in marks ==> marks[k] != Propagating
    requires after == RecomputeRows(w, rows, chunk) && left == MarkModified(marks, rows, after, chunk)
    requires key in rows && key !in chunk && w.HasChildren(key.item)
    requires forall c :: w.IsChildKey(c, key) && c in chunk && c in rows ==> !Modified(rows[c], after[c])
    ensures Agrees(w, after, key) || Awaits(w, after, left, key)
  {
    assert SameChildren(w, rows, after, key);
    RecomputedDependsOnChildren(w, rows, after, key);
    NewRowsAreModified(w, rows, chunk);
    if !Agrees(w, rows, key) && !Is(marks, key, ToBeRecomputed) {
      var c :| Expecting(rows, marks, c) && w.IsChildKey(c, key);
      assert Expecting(after, left, c);
    }
  }

  lemma RecomputedFits(w: World, rows: Rows, marks: Marks, chunk: set<Key>, after: Rows, left: Marks)
    requires Fits(w, rows, marks)
    requires after == RecomputeRows(w, rows, chunk) && left == MarkModified(marks, rows, after, chunk)
    ensures Fits(w, after, left)
  {
    assert after.Keys == rows.Keys;
  }

  /** As long as a result is marked for recomputation, some marked result is eligible: the deepest one. */
  lemma SomeResultIsEligible(w: World, marks: Marks, key: Key) returns (found: Key)
    requires WellFormed(w) && Is(marks, key, ToBeRecomputed)
    ensures found in Eligible(w, marks)
    ensures Is(marks, found, ToBeRecomputed) && forall c :: Is(marks, c, ToBeRecomputed) ==> !w.IsChildKey(c, found)
    decreases |w.items| - Depth(w.ItemEdges(), key.item)
  {
    if c :| c in marks && marks[c] == ToBeRecomputed && w.IsChildKey(c, key) {
      EdgeReaches(w.ItemEdges(), key.item, c.item);
      DepthGrows(w.ItemEdges(), key.item, c.item);
      DepthBound(w.ItemEdges(), w.items.Keys, c.item);
      found := SomeResultIsEligible(w, marks, c);
    } else {
      found := key;
    }
  }

  // ---------- Termination ----------

  /** Marks weigh more the deeper their item lies; 'to_be_recomputed' ranks just above the other states. */
  ghost function Rank(w: World, key: Key, state: State): nat {
    2 * Depth(w.ItemEdges(), key.item) + if state == ToBeRecomputed then 1 else 0
  }

  ghost function RankSet(w: World, marks: Marks, rank: nat): set<Key> {
    set k | k in marks && Rank(w, k, marks[k]) == rank
  }

  ghost function Pow(b: nat, n: nat): nat {
    if n == 0 then 1 else b * Pow(b, n - 1)
  }

  /** The numbers of marks of each rank, read as the digits of a number to the base `b` */
  ghost function Weight(w: World, marks: Marks, n: nat, b: nat): nat {
    if n == 0 then 0 else |RankSet(w, marks, n - 1)| * Pow(b, n - 1) + Weight(w, marks, n - 1, b)
  }

  lemma {:induction false} WeightBound(w: World, marks: Marks, n: nat, b: nat)
    requires |marks| < b
    ensures Weight(w, marks, n, b) < Pow(b, n)
  {
    if n > 0 {
      WeightBound(w, marks, n - 1, b);
      SubsetNotLarger(RankSet(w, marks, n - 1), marks.Keys);
      Digit(|RankSet(w, marks, n - 1)|, b, Pow(b, n - 1));
    }
  }

  lemma Digit(digit: nat, b: nat, power: nat)
    requires digit < b
    ensures digit * power + power <= b * power
  {
    var rest: nat := b - digit - 1;
    assert rest * power >= 0;
    assert b * power == digit * power + power + rest * power;
  }

  /** Fewer marks of one rank and the same of all higher ranks */
  ghost predicate Drops(w: World, before: Marks, after: Marks, rank: nat) {
    && RankSet(w, after, rank) < RankSet(w, before, rank)
    && forall r :: r > rank ==> RankSet(w, after, r) == RankSet(w, before, r)
  }

  lemma {:induction false} WeightDrops(w: World, before: Marks, after: Marks, rank: nat, n: nat, b: nat)
    requires Drops(w, before, after, rank) && rank < n && |after| < b
    ensures Weight(w, after, n, b) < Weight(w, before, n, b)
  {
    if n - 1 == rank {
      StrictSubsetSmaller(RankSet(w, after, rank), RankSet(w, before, rank));
      WeightBound(w, after, rank, b);
      Digit(|RankSet(w, after, rank)|, |RankSet(w, before, rank)|, Pow(b, rank));
    } else {
      WeightDrops(w, before, after, rank, n - 1, b);
    }
  }

  lemma DeepestKey(w: World, keys: set<Key>) returns (deepest: Key)
    requires keys != {}
    ensures deepest in keys && forall k :: k in keys ==>
              Depth(w.ItemEdges(), k.item) <= Depth(w.ItemEdges(), deepest.item)
  {
    var some := SomeElement(keys);
    var depths := set c | c in keys :: Depth(w.ItemEdges(), c.item);
    assert Depth(w.ItemEdges(), some.item) in depths;
    var top := MaxOf(depths);
    deepest :| deepest in keys && Depth(w.ItemEdges(), deepest.item) == top;
    forall k | k in keys
      ensures Depth(w.ItemEdges(), k.item) <= top
    {
      assert Depth(w.ItemEdges(), k.item) in depths;
    }
  }

  lemma MarkedAreShallower(w: World, visible: set<(Id, Id)>, rows: Rows, marks: Marks, key: Key) returns (child: Key)
    requires Acyclic(w.ItemEdges()) && key in ResultsToMark(w, visible, rows, marks)
    ensures Is(marks, child, Propagating) && Depth(w.ItemEdges(), key.item) < Depth(w.ItemEdges(), child.item)
    ensures w.HasChildren(key.item)
  {
    var c, e :| c in marks && e in w.ItemEdges() && IsParentToMark(w, visible, rows, marks, c, e) &&
      ParentKey(w, c, e.0).value == key;
    EdgeReaches(w.ItemEdges(), e.0, e.1);
    DepthGrows(w.ItemEdges(), e.0, e.1);
    child := c;
  }

  /** Marking the parents of propagating results makes the marks lighter, even where it overwrites pending ones. */
  lemma MarkingDrops(w: World, visible: set<(Id, Id)>, rows: Rows, marks: Marks, toMark: set<Key>, left: Marks)
    returns (rank: nat)
    requires Acyclic(w.ItemEdges()) && toMark == ResultsToMark(w, visible, rows, marks)
    requires left == UnmarkPropagating(MarkForRecomputation(marks, toMark))
    requires KeysIn(marks, Propagating) != {}
    ensures Drops(w, marks, left, rank) && exists k :: rank == 2 * Depth(w.ItemEdges(), k)
  {
    var deepest := DeepestKey(w, KeysIn(marks, Propagating));
    var d := Depth(w.ItemEdges(), deepest.item);
    rank := 2 * d;
    forall k | k in toMark
      ensures Depth(w.ItemEdges(), k.item) < d
    {
      var c := MarkedAreShallower(w, visible, rows, marks, k);
      assert c in KeysIn(marks, Propagating);
    }
    forall k | k in marks && marks[k] == Propagating
      ensures Depth(w.ItemEdges(), k.item) <= d
    {
      assert k in KeysIn(marks, Propagating);
    }
    RanksAfterMarking(w, marks, toMark, left, deepest);
  }

  lemma RanksAfterMarking(w: World, marks: Marks, toMark: set<Key>, left: Marks, deepest: Key)
    requires left == UnmarkPropagating(MarkForRecomputation(marks, toMark)) && Is(marks, deepest, Propagating)
    requires forall k :: k in toMark ==> Depth(w.ItemEdges(), k.item) < Depth(w.ItemEdges(), deepest.item)
    requires forall k :: k in marks && marks[k] == Propagating ==>
               Depth(w.ItemEdges(), k.item) <= Depth(w.ItemEdges(), deepest.item)
    ensures Drops(w, marks, left, 2 * Depth(w.ItemEdges(), deepest.item))
  {
    hide Depth;
    var rank := 2 * Depth(w.ItemEdges(), deepest.item);
    forall r, k | r >= rank
      ensures k in RankSet(w, left, r) <==> k in RankSet(w, marks, r) && (r > rank || marks[k] != Propagating)
    {
    }
    assert deepest in RankSet(w, marks, rank) && deepest !in RankSet(w, left, rank);
  }

  lemma RecomputingDrops(w: World, marks: Marks, before: Rows, after: Rows, chunk: set<Key>, left: Marks)
    returns (rank: nat)
    requires chunk != {} && forall k :: k in chunk ==> Is(marks, k, ToBeRecomputed)
    requires left == MarkModified(marks, before, after, chunk)
    ensures Drops(w, marks, left, rank) && exists k :: rank == 2 * Depth(w.ItemEdges(), k) + 1
  {
    var deepest := DeepestKey(w, chunk);
    rank := 2 * Depth(w.ItemEdges(), deepest.item) + 1;
    forall r, k | r >= rank
      ensures k in RankSet(w, left, r) <==> k in RankSet(w, marks, r) && (r > rank || k !in chunk)
    {
    }
    assert deepest in RankSet(w, marks, rank) && deepest !in RankSet(w, left, rank);
  }

  /** Every result that can ever exist */
  function Universe(w: World): set<Key> {
    set a, i | a in w.attempts && i in w.items :: Key(a.0, a.1, i)
  }

  ghost function WeightOf(w: World, marks: Marks): nat {
    Weight(w, marks, 2 * |w.items| + 2, |Universe(w)| + 1)
  }

  lemma FittingMarksAreFew(w: World, rows: Rows, marks: Marks)
    requires Fits(w, rows, marks)
    ensures |marks| <= |Universe(w)|
  {
    forall k | k in marks
      ensures k in Universe(w)
    {
      assert k in rows && (k.participant, k.attempt) in w.attempts;
      assert k == Key((k.participant, k.attempt).0, (k.participant, k.attempt).1, k.item);
    }
    SubsetNotLarger(marks.Keys, Universe(w));
  }

  lemma RankIsBelow(w: World, item: Id)
    requires WellFormed(w)
    ensures Depth(w.ItemEdges(), item) <= |w.items|
  {
    DepthBound(w.ItemEdges(), w.items.Keys, item);
  }

  lemma DropsMakeLighter(w: World, before: Marks, after: Marks, rank: nat, n: nat, b: nat)
    requires n == 2 * |w.items| + 2 && b == |Universe(w)| + 1
    requires Drops(w, before, after, rank) && rank < n && |after| < b
    ensures WeightOf(w, after) < WeightOf(w, before)
  {
    WeightDrops(w, before, after, rank, n, b);
  }

  // ---------- Unlocking dependent items ----------

  datatype Dependency = Dependency(item: Id, dependent: Id, score: real, grantsContentView: bool)

  /** The row of permissions_granted with origin 'item_unlocking' of a (participant, item) pair */
  datatype Unlock = Unlock(viewsContent: bool, enterFrom: int, enterUntil: int)

  type Unlocks = map<(Id, Id), Unlock>

  /** '9999-12-31 23:59:59' */
  const MAX_TIME := 253402300799

  predicate IsUnlocked(w: World, unlocks: Unlocks, now: int, pair: (Id, Id)) {
    && pair in unlocks && pair.1 in w.items
    && if w.items[pair.1].requiresExplicitEntry
       then unlocks[pair].enterFrom <= now && unlocks[pair].enterUntil == MAX_TIME
       else unlocks[pair].viewsContent
  }

  /** items_to_unlock */
  function ItemsToUnlock(w: World, dependencies: set<Dependency>, rows: Rows, marks: Marks, unlocks: Unlocks,
                         now: int): set<(Id, Id)> {
    set k, d | k in marks && marks[k] == Propagating && k in rows && d in dependencies &&
               d.item == k.item && d.score <= rows[k].score && d.grantsContentView && d.dependent in w.items &&
               !IsUnlocked(w, unlocks, now, (k.participant, d.dependent)) :: (k.participant, d.dependent)
  }

  function ItemsFor(pairs: set<(Id, Id)>, participant: Option<Id>): (items: set<Id>)
    ensures forall i :: i in items <==> participant.Some? && (participant.value, i) in pairs
  {
    set p | p in pairs && participant == Some(p.0) :: p.1
  }

  lemma ItemsForUnion(pairs: set<(Id, Id)>, more: set<(Id, Id)>, participant: Option<Id>)
    ensures ItemsFor(pairs + more, participant) == ItemsFor(pairs, participant) + ItemsFor(more, participant)
  {
  }

  function Unlocked(w: World, unlocks: Unlocks, now: int, pair: (Id, Id)): Unlock
    requires pair.1 in w.items
  {
    var explicit := w.items[pair.1].requiresExplicitEntry;
    if pair !in unlocks then Unlock(!explicit, if explicit then now else MAX_TIME, MAX_TIME) else
      var row := unlocks[pair];
      Unlock(row.viewsContent || !explicit,
             if explicit && row.enterFrom > now then now else row.enterFrom,
             if explicit then MAX_TIME else row.enterUntil)
  }

  /** INSERT INTO permissions_granted ... ON DUPLICATE KEY UPDATE */
  function InsertUnlocks(w: World, unlocks: Unlocks, now: int, pairs: set<(Id, Id)>): Unlocks {
    unlocks + map p | p in pairs && p.1 in w.items :: Unlocked(w, unlocks, now, p)
  }

  /** The pairs that can still be unlocked */
  ghost function Locked(w: World, unlocks: Unlocks, now: int): set<(Id, Id)> {
    set a, i | a in w.attempts && i in w.items && !IsUnlocked(w, unlocks, now, (a.0, i)) :: (a.0, i)
  }

  /** Exactly `pairs` were locked before and are not any more. */
  ghost predicate AreUnlocked(w: World, before: Unlocks, after: Unlocks, now: int, pairs: set<(Id, Id)>) {
    pairs <= Locked(w, before, now) && Locked(w, after, now) == Locked(w, before, now) - pairs
  }

  lemma UnlockedCompose(w: World, a: Unlocks, b: Unlocks, c: Unlocks, now: int, pairs: set<(Id, Id)>,
                        more: set<(Id, Id)>)
    requires AreUnlocked(w, a, b, now, pairs) && AreUnlocked(w, b, c, now, more)
    ensures AreUnlocked(w, a, c, now, pairs + more) && pairs !! more && |pairs + more| == |pairs| + |more|
  {
    hide Locked;
  }

  lemma FewerLocked(w: World, before: Unlocks, after: Unlocks, now: int, pairs: set<(Id, Id)>)
    requires AreUnlocked(w, before, after, now, pairs) && |pairs| > 0
    ensures |Locked(w, after, now)| < |Locked(w, before, now)|
  {
    StrictSubsetSmaller(Locked(w, after, now), Locked(w, before, now));
  }

  /** Unlocked pairs leave the locked ones for good, so no pair is unlocked twice. */
  lemma UnlockingShrinksLocked(w: World, unlocks: Unlocks, now: int, pairs: set<(Id, Id)>)
    requires pairs <= Locked(w, unlocks, now)
    ensures Locked(w, InsertUnlocks(w, unlocks, now, pairs), now) == Locked(w, unlocks, now) - pairs
  {
    var after := InsertUnlocks(w, unlocks, now, pairs);
    forall p
      ensures p in pairs ==> IsUnlocked(w, after, now, p)
      ensures p !in pairs ==> (IsUnlocked(w, after, now, p) <==> IsUnlocked(w, unlocks, now, p))
    {
    }
  }

  /** A propagating result of the participant has the score that a dependency asks for to show the item. */
  ghost predicate IsEarned(w: World, dependencies: set<Dependency>, rows: Rows, marks: Marks, pair: (Id, Id)) {
    exists k, d {:trigger k in marks, d in dependencies} ::
      && k in marks && marks[k] == Propagating && k in rows && k.participant == pair.0
      && d in dependencies && d.item == k.item && d.dependent == pair.1 && d.grantsContentView
      && rows[k].score >= d.score && d.dependent in w.items
  }

  /** The row gives access and keeps the rest: to an item asking for an explicit entry from now on for ever, or from
      earlier on if it was so before; to any other item by showing its content. */
  predicate GivesAccess(explicit: bool, before: Option<Unlock>, row: Unlock, now: int) {
    if explicit then
      && row.viewsContent == (before.Some? && before.value.viewsContent) && row.enterUntil == MAX_TIME
      && row.enterFrom == if before.Some? && before.value.enterFrom < now then before.value.enterFrom else now
    else
      && row.viewsContent
      && row.enterFrom == (if before.Some? then before.value.enterFrom else MAX_TIME)
      && row.enterUntil == (if before.Some? then before.value.enterUntil else MAX_TIME)
  }

  /** An earned pair has access afterwards; the row of any other pair stays as it is. */
  ghost predicate GetsWhatIsEarned(w: World, dependencies: set<Dependency>, rows: Rows, marks: Marks, before: Unlocks,
                                   after: Unlocks, now: int, pair: (Id, Id)) {
    if IsEarned(w, dependencies, rows, marks, pair) then
      && pair in after && pair.1 in w.items
      && GivesAccess(w.items[pair.1].requiresExplicitEntry, if pair in before then Some(before[pair]) else None,
                     after[pair], now)
    else (pair in after <==> pair in before) && (pair in before ==> after[pair] == before[pair])
  }

  predicate IsChanged(before: Unlocks, after: Unlocks, pair: (Id, Id)) {
    pair in after && (pair !in before || after[pair] != before[pair])
  }

  ghost predicate EarnedGetAccess(w: World, dependencies: set<Dependency>, rows: Rows, marks: Marks, before: Unlocks,
                                  after: Unlocks, now: int) {
    forall pair :: GetsWhatIsEarned(w, dependencies, rows, marks, before, after, now, pair)
  }

  lemma EarnedMeaning(w: World, dependencies: set<Dependency>, rows: Rows, marks: Marks, unlocks: Unlocks, now: int,
                      pair: (Id, Id))
    ensures pair in ItemsToUnlock(w, dependencies, rows, marks, unlocks, now) <==>
            IsEarned(w, dependencies, rows, marks, pair) && !IsUnlocked(w, unlocks, now, pair)
  {
    hide IsUnlocked;
    if k, d :| k in marks && marks[k] == Propagating && k in rows && k.participant == pair.0 && d in dependencies &&
               d.item == k.item && d.dependent == pair.1 && d.grantsContentView && rows[k].score >= d.score &&
               d.dependent in w.items {
      assert (k.participant, d.dependent) == pair;
    }
  }

  lemma UnlockingMeaning(w: World, dependencies: set<Dependency>, rows: Rows, marks: Marks, unlocks: Unlocks, now: int)
    ensures var pairs := ItemsToUnlock(w, dependencies, rows, marks, unlocks, now);
            var after := InsertUnlocks(w, unlocks, now, pairs);
            && EarnedGetAccess(w, dependencies, rows, marks, unlocks, after, now)
            && forall pair :: pair in pairs <==> IsChanged(unlocks, after, pair)
  {
    hide ItemsToUnlock, InsertUnlocks, Unlocked, IsUnlocked, IsEarned, GivesAccess, IsChanged;
    var after := InsertUnlocks(w, unlocks, now, ItemsToUnlock(w, dependencies, rows, marks, unlocks, now));
    forall pair
      ensures GetsWhatIsEarned(w, dependencies, rows, marks, unlocks, after, now, pair)
      ensures pair in ItemsToUnlock(w, dependencies, rows, marks, unlocks, now) <==> IsChanged(unlocks, after, pair)
    {
      EarnedMeaning(w, dependencies, rows, marks, unlocks, now, pair);
      InsertedMeaning(w, unlocks, now, ItemsToUnlock(w, dependencies, rows, marks, unlocks, now), pair);
      if IsUnlocked(w, unlocks, now, pair) {
        UnlockedHasAccess(w, unlocks, now, pair);
      }
      EarnedExists(w, dependencies, rows, marks, pair);
    }
  }

  lemma EarnedExists(w: World, dependencies: set<Dependency>, rows: Rows, marks: Marks, pair: (Id, Id))
    ensures IsEarned(w, dependencies, rows, marks, pair) ==> pair.1 in w.items
  {
  }

  lemma InsertedMeaning(w: World, unlocks: Unlocks, now: int, pairs: set<(Id, Id)>, pair: (Id, Id))
    ensures var after := InsertUnlocks(w, unlocks, now, pairs);
            if pair in pairs && pair.1 in w.items then
              pair in after && GivesAccess(w.items[pair.1].requiresExplicitEntry,
                                           if pair in unlocks then Some(unlocks[pair]) else None, after[pair], now)
            else (pair in after <==> pair in unlocks) && (pair in unlocks ==> after[pair] == unlocks[pair])
    ensures pair in pairs && pair.1 in w.items && !IsUnlocked(w, unlocks, now, pair) ==>
              IsChanged(unlocks, InsertUnlocks(w, unlocks, now, pairs), pair)
    ensures pair !in pairs ==> !IsChanged(unlocks, InsertUnlocks(w, unlocks, now, pairs), pair)
  {
  }

  /** Nothing has to be done for who has access already. */
  lemma UnlockedHasAccess(w: World, unlocks: Unlocks, now: int, pair: (Id, Id))
    requires IsUnlocked(w, unlocks, now, pair)
    ensures pair in unlocks && pair.1 in w.items
    ensures GivesAccess(w.items[pair.1].requiresExplicitEntry, Some(unlocks[pair]), unlocks[pair], now)
  {
  }

  lemma OnlyLockedAreUnlocked(w: World, dependencies: set<Dependency>, rows: Rows, marks: Marks, unlocks: Unlocks,
                              now: int)
    requires Fits(w, rows, marks)
    ensures ItemsToUnlock(w, dependencies, rows, marks, unlocks, now) <= Locked(w, unlocks, now)
  {
    forall k, d | k in marks && k in rows && d in dependencies && d.dependent in w.items &&
                  !IsUnlocked(w, unlocks, now, (k.participant, d.dependent))
      ensures (k.participant, d.dependent) in Locked(w, unlocks, now)
    {
      assert (k.participant, k.attempt) in w.attempts && (k.participant, k.attempt).0 == k.participant;
    }
  }

  lemma UnlockingStep(w: World, dependencies: set<Dependency>, rows: Rows, marks: Marks, unlocks: Unlocks, now: int,
                      pairs: set<(Id, Id)>, inserted: Unlocks)
    requires Fits(w, rows, marks) && pairs == ItemsToUnlock(w, dependencies, rows, marks, unlocks, now)
    requires inserted == InsertUnlocks(w, unlocks, now, pairs)
    ensures AreUnlocked(w, unlocks, inserted, now, pairs)
  {
    OnlyLockedAreUnlocked(w, dependencies, rows, marks, unlocks, now);
    UnlockingShrinksLocked(w, unlocks, now, pairs);
  }

  // ---------- What a run never touches ----------

  ghost predicate OnlyChaptersMarked(w: World, marks: Marks) {
    forall k :: Is(marks, k, ToBeRecomputed) ==> w.HasChildren(k.item)
  }

  /** Results of childless items stay as they are; results of chapters keep their edits and never lose activity;
      new results belong to chapters that may be created. */
  ghost predicate OnlyChaptersChange(w: World, visible: set<(Id, Id)>, before: Rows, after: Rows) {
    forall k :: RowIsKept(w, visible, before, after, k)
  }

  ghost predicate RowIsKept(w: World, visible: set<(Id, Id)>, before: Rows, after: Rows, k: Key) {
    && (k in before ==>
          && k in after && after[k].edit == before[k].edit && after[k].latestActivityAt >= before[k].latestActivityAt
          && (!w.HasChildren(k.item) ==> after[k] == before[k]))
    && (k in after && k !in before ==>
          after[k].edit == NoRule && after[k].latestActivityAt >= NEVER &&
          w.HasChildren(k.item) && k.item in w.items && !w.items[k.item].requiresExplicitEntry &&
          (k.participant, k.item) in visible && (k.participant, k.attempt) in w.attempts && WithinRoot(w, k))
  }

  lemma MarkingChangesChaptersOnly(w: World, visible: set<(Id, Id)>, rows: Rows, marks: Marks, toMark: set<Key>)
    requires Acyclic(w.ItemEdges()) && toMark == ResultsToMark(w, visible, rows, marks)
    ensures OnlyChaptersChange(w, visible, rows, CreateMissing(rows, toMark))
    ensures OnlyChaptersMarked(w, marks) ==>
              OnlyChaptersMarked(w, UnmarkPropagating(MarkForRecomputation(marks, toMark)))
  {
    forall k | k in toMark
      ensures w.HasChildren(k.item) && MayBeMarked(w, visible, rows, marks, k)
    {
      var c := MarkedAreShallower(w, visible, rows, marks, k);
    }
  }

  lemma RecomputingChangesChaptersOnly(w: World, visible: set<(Id, Id)>, rows: Rows, marks: Marks, chunk: set<Key>)
    requires OnlyChaptersMarked(w, marks) && chunk <= Eligible(w, marks)
    ensures OnlyChaptersChange(w, visible, rows, RecomputeRows(w, rows, chunk))
  {
    forall k
      ensures RowIsKept(w, visible, rows, RecomputeRows(w, rows, chunk), k)
    {
      assert k in chunk ==> Is(marks, k, ToBeRecomputed);
    }
  }

  lemma ChangesCompose(w: World, visible: set<(Id, Id)>, more: set<(Id, Id)>, a: Rows, b: Rows, c: Rows)
    requires OnlyChaptersChange(w, visible, a, b) && OnlyChaptersChange(w, more, b, c) && visible <= more
    ensures OnlyChaptersChange(w, more, a, c)
  {
    forall k
      ensures RowIsKept(w, more, a, c, k)
    {
      assert RowIsKept(w, visible, a, b, k) && RowIsKept(w, more, b, c, k);
    }
  }

  lemma NothingEligible(w: World, marks: Marks)
    requires WellFormed(w) && Eligible(w, marks) == {}
    ensures KeysIn(marks, ToBeRecomputed) == {}
  {
    if KeysIn(marks, ToBeRecomputed) != {} {
      var k := SomeElement(KeysIn(marks, ToBeRecomputed));
      var found := SomeResultIsEligible(w, marks, k);
    }
  }

  /** Everything one chunk of the recomputation keeps */
  lemma ChunkStep(w: World, visible: set<(Id, Id)>, rows: Rows, marks: Marks, chunk: set<Key>, after: Rows, left: Marks)
    requires WellFormed(w) && Fits(w, rows, marks) && OnlyChaptersMarked(w, marks)
    requires KeysIn(marks, Propagating) == {} && KeysIn(marks, Recomputing) == {}
    requires chunk != {} && chunk <= Eligible(w, marks)
    requires after == RecomputeRows(w, rows, chunk) && left == MarkModified(marks, rows, after, chunk)
    ensures Fits(w, after, left) && OnlyChaptersMarked(w, left)
    ensures KeysIn(left, Propagating) == {} && KeysIn(left, Recomputing) == {}
    ensures KeysIn(left, ToBeRecomputed) < KeysIn(marks, ToBeRecomputed)
    ensures Covered(w, rows, marks) ==> Covered(w, after, left)
    ensures MissingAwait(w, visible, rows, marks) ==> MissingAwait(w, visible, after, left)
    ensures OnlyChaptersChange(w, visible, rows, after)
    ensures WeightOf(w, left) < WeightOf(w, marks)
  {
    hide MissingAwait;
    RecomputedFits(w, rows, marks, chunk, after, left);
    RecomputingChangesChaptersOnly(w, visible, rows, marks, chunk);
    forall k | k in marks
      ensures marks[k] in {ToBePropagated, ToBeRecomputed}
    {
      assert k !in KeysIn(marks, Propagating) && k !in KeysIn(marks, Recomputing);
    }
    StatesAfterChunk(marks, rows, after, chunk, left);
    var some := SomeElement(chunk);
    assert some in KeysIn(marks, ToBeRecomputed);
    if Covered(w, rows, marks) {
      RecomputingKeepsCovered(w, rows, marks, chunk, after, left);
    }
    if MissingAwait(w, visible, rows, marks) {
      RecomputingKeepsMissingAwaited(w, visible, rows, marks, chunk, after, left);
    }
    var rank := RecomputingDrops(w, marks, rows, after, chunk, left);
    var k :| rank == 2 * Depth(w.ItemEdges(), k) + 1;
    RankIsBelow(w, k);
    FittingMarksAreFew(w, after, left);
    DropsMakeLighter(w, marks, left, rank, 2 * |w.items| + 2, |Universe(w)| + 1);
  }

  lemma StatesAfterChunk(marks: Marks, rows: Rows, after: Rows, chunk: set<Key>, left: Marks)
    requires left == MarkModified(marks, rows, after, chunk)
    requires forall k :: k in marks ==> marks[k] in {ToBePropagated, ToBeRecomputed}
    ensures forall k :: k in left ==> left[k] in {ToBePropagated, ToBeRecomputed}
    ensures KeysIn(left, ToBeRecomputed) == KeysIn(marks, ToBeRecomputed) - chunk
  {
  }

  /** Everything the marking of a chunk's parents and the removal of the chunk keep */
  lemma MarkingStep(w: World, visible: set<(Id, Id)>, rows: Rows, marks: Marks, chunk: set<Key>, started: Marks,
                    toMark: set<Key>, after: Rows, left: Marks)
    requires WellFormed(w) && Fits(w, rows, marks) && OnlyChaptersMarked(w, marks) && KeysIn(marks, Recomputing) == {}
    requires chunk <= KeysIn(marks, ToBePropagated) && started == StartPropagating(marks, chunk)
    requires toMark == ResultsToMark(w, visible, rows, started)
    requires after == CreateMissing(rows, toMark) && left == UnmarkPropagating(MarkForRecomputation(started, toMark))
    ensures Fits(w, after, left) && OnlyChaptersMarked(w, left)
    ensures KeysIn(left, Propagating) == {} && KeysIn(left, Recomputing) == {}
    ensures Covered(w, rows, marks) && NothingIsLost(w, visible, rows, started) ==> Covered(w, after, left)
    ensures MissingAwait(w, visible, rows, marks) && NothingIsLeftOut(w, visible, rows, started) ==>
              MissingAwait(w, visible, after, left)
    ensures OnlyChaptersChange(w, visible, rows, after)
  {
    hide MissingAwait, NothingIsLost, NothingIsLeftOut, Covered;
    StartingKeeps(w, rows, marks, chunk, started);
    MarkedParentsFit(w, visible, rows, started);
    MarkingChangesChaptersOnly(w, visible, rows, started, toMark);
    StatesAfterMarking(marks, started, toMark, chunk, left);
    if Covered(w, rows, marks) && NothingIsLost(w, visible, rows, started) {
      MarkingKeepsCovered(w, visible, rows, started, toMark, after, left);
    }
    if MissingAwait(w, visible, rows, marks) && NothingIsLeftOut(w, visible, rows, started) {
      StartingKeepsMissingAwaited(w, visible, rows, marks, chunk, started);
      MarkingKeepsMissingAwaited(w, visible, rows, started, toMark, after, left);
    }
  }

  /** Each marking step makes the marks lighter, unless there was nothing to propagate. */
  lemma MarkingStepIsLighter(w: World, visible: set<(Id, Id)>, rows: Rows, marks: Marks, chunk: set<Key>,
                             started: Marks, toMark: set<Key>, after: Rows, left: Marks)
    requires WellFormed(w) && Fits(w, after, left)
    requires chunk <= KeysIn(marks, ToBePropagated) && started == StartPropagating(marks, chunk)
    requires toMark == ResultsToMark(w, visible, rows, started)
    requires left == UnmarkPropagating(MarkForRecomputation(started, toMark))
    ensures WeightOf(w, left) < WeightOf(w, marks) || (left == marks && chunk == {})
  {
    if KeysIn(started, Propagating) != {} {
      var rank := MarkingDrops(w, visible, rows, started, toMark, left);
      var k :| rank == 2 * Depth(w.ItemEdges(), k);
      RankIsBelow(w, k);
      FittingMarksAreFew(w, after, left);
      StartedKeysWerePending(marks, chunk, started);
      SameRanks(w, marks, started, left, rank);
      DropsMakeLighter(w, marks, left, rank, 2 * |w.items| + 2, |Universe(w)| + 1);
    } else {
      NothingToMark(w, visible, rows, marks, chunk, started, toMark, left);
    }
  }

  lemma StartedKeysWerePending(marks: Marks, chunk: set<Key>, started: Marks)
    requires chunk <= KeysIn(marks, ToBePropagated) && started == StartPropagating(marks, chunk)
    ensures marks.Keys == started.Keys
    ensures forall k :: k in marks && marks[k] != started[k] ==> marks[k] == ToBePropagated && started[k] == Propagating
  {
    forall k | k in chunk
      ensures Is(marks, k, ToBePropagated)
    {
    }
  }

  lemma StartedFit(w: World, rows: Rows, marks: Marks, chunk: set<Key>, started: Marks)
    requires Fits(w, rows, marks) && chunk <= KeysIn(marks, ToBePropagated) && started == StartPropagating(marks, chunk)
    ensures Fits(w, rows, started)
  {
    StartedKeysWerePending(marks, chunk, started);
  }

  lemma StartingKeeps(w: World, rows: Rows, marks: Marks, chunk: set<Key>, started: Marks)
    requires Fits(w, rows, marks) && OnlyChaptersMarked(w, marks)
    requires chunk <= KeysIn(marks, ToBePropagated) && started == StartPropagating(marks, chunk)
    ensures Fits(w, rows, started) && OnlyChaptersMarked(w, started)
    ensures Covered(w, rows, marks) ==> Covered(w, rows, started)
  {
    forall k | k in chunk
      ensures Is(marks, k, ToBePropagated)
    {
    }
    forall k
      ensures Awaits(w, rows, marks, k) ==> Awaits(w, rows, started, k)
    {
      if Awaits(w, rows, marks, k) && !Is(marks, k, ToBeRecomputed) {
        var c :| Expecting(rows, marks, c) && w.IsChildKey(c, k);
        assert Expecting(rows, started, c);
      }
    }
  }

  lemma StartingKeepsMissingAwaited(w: World, visible: set<(Id, Id)>, rows: Rows, marks: Marks, chunk: set<Key>,
                                    started: Marks)
    requires MissingAwait(w, visible, rows, marks) && chunk <= KeysIn(marks, ToBePropagated)
    requires started == StartPropagating(marks, chunk)
    ensures MissingAwait(w, visible, rows, started)
  {
    hide IsMissing;
    forall k | Awaits(w, rows, marks, k)
      ensures Awaits(w, rows, started, k)
    {
      if !Is(marks, k, ToBeRecomputed) {
        var c :| Expecting(rows, marks, c) && w.IsChildKey(c, k);
        assert Expecting(rows, started, c);
      }
    }
  }

  lemma StatesAfterMarking(marks: Marks, started: Marks, toMark: set<Key>, chunk: set<Key>, left: Marks)
    requires KeysIn(marks, Recomputing) == {} && started == StartPropagating(marks, chunk)
    requires left == UnmarkPropagating(MarkForRecomputation(started, toMark))
    ensures KeysIn(left, Propagating) == {} && KeysIn(left, Recomputing) == {}
  {
    forall k | k in left
      ensures left[k] != Propagating && left[k] != Recomputing
    {
      assert k !in KeysIn(marks, Recomputing);
    }
  }

  lemma SameRanks(w: World, marks: Marks, started: Marks, left: Marks, rank: nat)
    requires marks.Keys == started.Keys
    requires forall k :: k in marks && marks[k] != started[k] ==>
               marks[k] == ToBePropagated && started[k] == Propagating
    requires Drops(w, started, left, rank)
    ensures Drops(w, marks, left, rank)
  {
    forall r: nat
      ensures RankSet(w, started, r) == RankSet(w, marks, r)
    {
    }
  }

  lemma NothingToMark(w: World, visible: set<(Id, Id)>, rows: Rows, marks: Marks, chunk: set<Key>, started: Marks,
                      toMark: set<Key>, left: Marks)
    requires started == StartPropagating(marks, chunk) && KeysIn(started, Propagating) == {}
    requires toMark == ResultsToMark(w, visible, rows, started)
    requires left == UnmarkPropagating(MarkForRecomputation(started, toMark))
    ensures left == marks && chunk == {}
  {
    forall k | k in started
      ensures started[k] != Propagating
    {
      assert k !in KeysIn(started, Propagating);
    }
    assert forall k :: k in chunk ==> k in started;
    assert toMark == {};
  }

  /** Without marks nothing awaits anything, so all chapters agree with their children. */
  lemma NothingAwaits(w: World, rows: Rows)
    requires Covered(w, rows, map[])
    ensures AllAgree(w, rows)
  {
    forall k | k in rows && w.HasChildren(k.item)
      ensures Agrees(w, rows, k)
    {
      assert !Awaits(w, rows, map[], k);
    }
  }

  lemma NothingIsMissing(w: World, visible: set<(Id, Id)>, rows: Rows)
    requires MissingAwait(w, visible, rows, map[])
    ensures NoneMissing(w, visible, rows)
  {
    forall k
      ensures !IsMissing(w, visible, rows, k)
    {
      assert !Awaits(w, rows, map[], k);
    }
  }

  lemma NothingChangesYet(w: World, visible: set<(Id, Id)>, rows: Rows, unlocks: Unlocks, now: int,
                          participant: Option<Id>)
    ensures OnlyChaptersChange(w, visible, rows, rows) && AreUnlocked(w, unlocks, unlocks, now, {})
    ensures ItemsFor({}, participant) == {}
  {
  }

  lemma AgreementCovers(w: World, rows: Rows, marks: Marks)
    ensures AllAgree(w, rows) ==> Covered(w, rows, marks)
  {
  }

  lemma MarkedStillFit(w: World, visible: set<(Id, Id)>, rows: Rows, marks: Marks, chunk: set<Key>, started: Marks,
                       toMark: set<Key>)
    requires WellFormed(w) && Fits(w, rows, marks)
    requires chunk <= KeysIn(marks, ToBePropagated) && started == StartPropagating(marks, chunk)
    requires toMark == ResultsToMark(w, visible, rows, started)
    ensures Fits(w, CreateMissing(rows, toMark), MarkForRecomputation(started, toMark))
  {
    StartedKeysWerePending(marks, chunk, started);
  }

  lemma SomethingIsLeft(marks: Marks)
    requires marks != map[] && KeysIn(marks, Propagating) == {} && KeysIn(marks, Recomputing) == {}
    ensures KeysIn(marks, ToBePropagated) != {} || KeysIn(marks, ToBeRecomputed) != {}
  {
    if k :| k in marks {
      assert k !in KeysIn(marks, Propagating) && k !in KeysIn(marks, Recomputing);
      assert k in KeysIn(marks, ToBePropagated) || k in KeysIn(marks, ToBeRecomputed);
    }
  }

  // ---------- Which results a run can lose ----------

  /** Results that fit the tables, with all the results that their propagation can reach */
  ghost predicate IsClosed(w: World, keys: set<Key>) {
    && (forall k :: k in keys ==> CanExist(w, k))
    && forall c, q :: c in keys && w.IsChildKey(c, q) && CanExist(w, q) ==> q in keys
  }

  function NotChildrenOf(w: World, keys: set<Key>, parent: Key): set<Key> {
    set k | k in keys && !w.IsChildKey(k, parent)
  }

  /** A child, its parent and its grandparent, of which it is no child itself, with a whole chunk of results that are no
      children of the grandparent: a chunk can hold the child without the parent and nothing else that leads to the
      grandparent. */
  ghost predicate IsTrap(w: World, keys: set<Key>, chunkSize: nat, child: Key, parent: Key, grandparent: Key) {
    && child in keys && parent in keys && grandparent in keys
    && w.IsChildKey(child, parent) && w.IsChildKey(parent, grandparent) && !w.IsChildKey(child, grandparent)
    && |NotChildrenOf(w, keys, grandparent)| >= chunkSize
  }

  ghost predicate HasNoTrap(w: World, keys: set<Key>, chunkSize: nat) {
    forall c, p, g :: !IsTrap(w, keys, chunkSize, c, p, g)
  }

  predicate IsChunk(keys: set<Key>, size: nat, chunk: set<Key>) {
    chunk <= keys && |chunk| == if size < |keys| then size else |keys|
  }

  /** Whatever the chunk, a forgotten result is the grandparent of a trap. */
  lemma ForgottenMeansTrap(w: World, visible: set<(Id, Id)>, rows: Rows, marks: Marks, chunk: set<Key>, started: Marks,
                           keys: set<Key>, chunkSize: nat, g: Key)
    returns (c: Key, p: Key)
    requires WellFormed(w) && Fits(w, rows, marks)
    requires IsClosed(w, keys) && marks.Keys <= keys
    requires IsChunk(KeysIn(marks, ToBePropagated), chunkSize, chunk) && started == StartPropagating(marks, chunk)
    requires Forgets(w, visible, rows, started, g)
    ensures IsTrap(w, keys, chunkSize, c, p, g)
  {
    StartedKeysWerePending(marks, chunk, started);
    p :| Is(started, p, ToBePropagated) && w.IsChildKey(p, g);
    assert IsNoHelp(w, visible, rows, started, p);
    c :| Is(started, c, Propagating) && w.IsChildKey(c, p);
    forall k | k in chunk
      ensures k in NotChildrenOf(w, keys, g)
    {
      assert k in keys && Is(started, k, Propagating);
      assert w.IsChildKey(k, g) ==> IsNoHelp(w, visible, rows, started, k);
    }
    SubsetNotLarger(chunk, NotChildrenOf(w, keys, g));
    var pending := KeysIn(marks, ToBePropagated);
    assert p in pending && p !in chunk;
    assert chunk < pending;
    StrictSubsetSmaller(chunk, pending);
    assert CanExist(w, g);
  }

  /** As long as the marks stay within results without a trap, no chunk loses anything. */
  lemma WithoutTrapsNothingIsLost(w: World, visible: set<(Id, Id)>, rows: Rows, marks: Marks, chunk: set<Key>,
                                  started: Marks, keys: set<Key>, chunkSize: nat)
    requires WellFormed(w) && Fits(w, rows, marks)
    requires IsClosed(w, keys) && marks.Keys <= keys && HasNoTrap(w, keys, chunkSize)
    requires IsChunk(KeysIn(marks, ToBePropagated), chunkSize, chunk) && started == StartPropagating(marks, chunk)
    ensures NothingIsLost(w, visible, rows, started) && NothingIsLeftOut(w, visible, rows, started)
  {
    forall g
      ensures !Forgets(w, visible, rows, started, g)
    {
      if Forgets(w, visible, rows, started, g) {
        var c, p := ForgottenMeansTrap(w, visible, rows, marks, chunk, started, keys, chunkSize, g);
      }
    }
  }

  /** Nor does a pass lose anything that finds no more pending propagations than a chunk holds. */
  lemma FewPendingLoseNothing(w: World, visible: set<(Id, Id)>, rows: Rows, marks: Marks, chunk: set<Key>,
                              started: Marks, chunkSize: nat)
    requires IsChunk(KeysIn(marks, ToBePropagated), chunkSize, chunk) && started == StartPropagating(marks, chunk)
    requires |KeysIn(marks, ToBePropagated)| <= chunkSize
    ensures NothingIsLost(w, visible, rows, started) && NothingIsLeftOut(w, visible, rows, started)
  {
    var pending := KeysIn(marks, ToBePropagated);
    if chunk != pending {
      StrictSubsetSmaller(chunk, pending);
    }
    forall p
      ensures !Is(started, p, ToBePropagated)
    {
      assert Is(marks, p, ToBePropagated) ==> p in pending;
    }
  }

  /** Nor one that finds no pending result among the parents of another, whichever chunk it takes. */
  lemma UnrelatedPendingLoseNothing(w: World, visible: set<(Id, Id)>, rows: Rows, marks: Marks, chunk: set<Key>,
                                    started: Marks)
    requires chunk <= KeysIn(marks, ToBePropagated) && started == StartPropagating(marks, chunk)
    requires KeysIn(marks, Propagating) == {}
    requires forall c, p :: Is(marks, c, ToBePropagated) && Is(marks, p, ToBePropagated) ==> !w.IsChildKey(c, p)
    ensures NothingIsLost(w, visible, rows, started) && NothingIsLeftOut(w, visible, rows, started)
  {
    hide MayBeMarked;
    forall k
      ensures Is(started, k, Propagating) ==> Is(marks, k, ToBePropagated)
      ensures Is(started, k, ToBePropagated) ==> Is(marks, k, ToBePropagated)
    {
      assert k !in KeysIn(marks, Propagating);
    }
    forall g
      ensures !Forgets(w, visible, rows, started, g)
    {
      if p :| Is(started, p, ToBePropagated) && w.IsChildKey(p, g) {
        assert !IsMarkedNow(w, visible, rows, started, p);
        assert !IsNoHelp(w, visible, rows, started, p);
      }
    }
  }

  /** No more results than a chunk holds make no trap. */
  lemma FewResultsHaveNoTrap(w: World, keys: set<Key>, chunkSize: nat)
    requires |keys| <= chunkSize
    ensures HasNoTrap(w, keys, chunkSize)
  {
    forall c, p, g
      ensures !IsTrap(w, keys, chunkSize, c, p, g)
    {
      if p in keys && w.IsChildKey(p, g) {
        assert p !in NotChildrenOf(w, keys, g);
        StrictSubsetSmaller(NotChildrenOf(w, keys, g), keys);
      }
    }
  }

  /** The marks made by the step are on results that the propagation can reach. */
  lemma MarksStayWithin(w: World, visible: set<(Id, Id)>, rows: Rows, marks: Marks, toMark: set<Key>, left: Marks,
                        keys: set<Key>)
    requires WellFormed(w) && Fits(w, rows, marks) && IsClosed(w, keys) && marks.Keys <= keys
    requires toMark == ResultsToMark(w, visible, rows, marks)
    requires left == UnmarkPropagating(MarkForRecomputation(marks, toMark))
    ensures toMark <= keys && left.Keys <= keys
  {
    forall k | k in toMark
      ensures k in keys
    {
      ToMarkMeaning(w, visible, rows, marks, k);
      var c :| Is(marks, c, Propagating) && w.IsChildKey(c, k);
      assert c in keys && CanExist(w, k);
    }
  }
}
