/** The tables of results and the propagation over them, proved against the runs it takes. */
module ResultStores {
  import opened Collections
  import opened Graph
  import opened ResultAggregates
  import opened ResultPropagation
  import opened ResultRuns

  /** LIMIT: as many keys as allowed, whichever they are */
  method PickChunk(keys: set<Key>, size: nat) returns (chunk: set<Key>)
    ensures IsChunk(keys, size, chunk)
  {
    chunk := {};
    var rest := keys;
    while |chunk| < size && rest != {}
      invariant chunk + rest == keys && chunk !! rest
      invariant |chunk| <= size
      decreases rest
    {
      ghost var some := SomeElement(rest);
      var k :| k in rest;
      chunk, rest := chunk + {k}, rest - {k};
    }
    assert rest == {} ==> chunk == keys;
    SubsetNotLarger(chunk, keys);
    assert rest != {} ==> |chunk| < |keys| by {
      if rest != {} {
        StrictSubsetSmaller(chunk, keys);
      }
    }
  }

  /** Every parent of a propagating result is marked, and created if it can be; nothing else is. */
  ghost predicate ParentsAreSeenTo(w: World, visible: set<(Id, Id)>, rows: Rows, started: Marks, after: Rows,
                                   marks: Marks) {
    && (forall c, q ::
          Is(started, c, Propagating) && w.IsChildKey(c, q) && (q in rows || IsCreatable(w, visible, q)) ==>
            q in after && Is(marks, q, ToBeRecomputed))
    && (forall q :: q in rows ==> q in after && after[q] == rows[q])
    && (forall q :: q in after && q !in rows ==>
          IsCreatable(w, visible, q) && after[q] == Row(NEVER, 0, 0, None, 0.0, NoRule))
    && (forall q :: !Is(marks, q, ToBeRecomputed) ==>
          (q in marks <==> q in started) && (q in marks ==> marks[q] == started[q]))
    && (forall q :: (q in after && q !in rows) || (Is(marks, q, ToBeRecomputed) && !Is(started, q, ToBeRecomputed)) ==>
          exists c :: Is(started, c, Propagating) && w.IsChildKey(c, q))
  }

  lemma ParentsSeenTo(w: World, visible: set<(Id, Id)>, rows: Rows, started: Marks, toMark: set<Key>)
    requires WellFormed(w) && Fits(w, rows, started) && toMark == ResultsToMark(w, visible, rows, started)
    ensures ParentsAreSeenTo(w, visible, rows, started, CreateMissing(rows, toMark),
                             MarkForRecomputation(started, toMark))
  {
    hide WellFormed, Fits, ResultsToMark, IsCreatable, CreateMissing, MarkForRecomputation, Is;
    forall c, q | Is(started, c, Propagating) && w.IsChildKey(c, q) && (q in rows || IsCreatable(w, visible, q))
      ensures q in CreateMissing(rows, toMark) && Is(MarkForRecomputation(started, toMark), q, ToBeRecomputed)
    {
      ParentsAreMarked(w, visible, rows, started, toMark, c, q);
    }
    forall q | q in toMark
      ensures IsSubject(w, visible, rows, q) && exists c :: Is(started, c, Propagating) && w.IsChildKey(c, q)
    {
      OnlyParentsAreMarked(w, visible, rows, started, toMark, q);
    }
    CreatedRows(rows, toMark);
    MarkedKeys(started, toMark);
  }

  lemma CreatedRows(rows: Rows, toMark: set<Key>)
    ensures var after := CreateMissing(rows, toMark);
            && (forall q :: q in after <==> q in rows || q in toMark)
            && (forall q :: q in rows ==> after[q] == rows[q])
            && (forall q :: q in toMark && q !in rows ==> after[q] == Row(NEVER, 0, 0, None, 0.0, NoRule))
  {
  }

  lemma MarkedKeys(started: Marks, toMark: set<Key>)
    ensures var marks := MarkForRecomputation(started, toMark);
            && (forall q :: Is(marks, q, ToBeRecomputed) <==> Is(started, q, ToBeRecomputed) || q in toMark)
            && (forall q :: q !in toMark ==> (q in marks <==> q in started))
            && (forall q :: q in marks && q !in toMark ==> marks[q] == started[q])
  {
  }

  lemma ChildrenAreBelow(w: World, rows: Rows, shown: set<(Id, Id)>, below: set<Key>)
    requires below == set k, e | k in rows && e in w.ItemEdges() && e.1 == k.item && (k.participant, e.0) in shown :: k
    ensures forall c, q :: c in rows && w.IsChildKey(c, q) && (q.participant, q.item) in shown ==> c in below
  {
    forall c, q | c in rows && w.IsChildKey(c, q) && (q.participant, q.item) in shown
      ensures c in below
    {
      var e := (q.item, c.item);
      assert e in w.ItemEdges() && e.1 == c.item && (c.participant, e.0) in shown;
    }
  }

  lemma EmptyChunk(keys: set<Key>, size: nat, chunk: set<Key>)
    requires IsChunk(keys, size, chunk) && size > 0
    ensures chunk == {} ==> keys == {}
  {
  }

  // ---------- Runs of the outer loop, one after another ----------

  /** The next call starts where the last one ended, but for new marks and for what has become visible. The results of
      children of newly visible items are marked. */
  ghost predicate ContinuesAt(w: World, run: Run, next: Run) {
    && First(next).rows == Last(run).rows && First(next).unlocks == Last(run).unlocks && run.visible <= next.visible
    && IsProper(w, First(next))
    && ShownAreMarked(w, First(next).rows, run.visible, next.visible, First(next).marks)
  }

  /** An existing result of a child of an item that has become visible is marked for propagation. */
  ghost predicate ShownAreMarked(w: World, rows: Rows, before: set<(Id, Id)>, after: set<(Id, Id)>, marks: Marks) {
    forall c, q :: c in rows && w.IsChildKey(c, q) && (q.participant, q.item) in after - before ==>
      Is(marks, c, ToBePropagated)
  }

  lemma ShownAwait(w: World, rows: Rows, before: set<(Id, Id)>, after: set<(Id, Id)>, marks: Marks)
    requires NoneMissing(w, before, rows) && ShownAreMarked(w, rows, before, after, marks)
    ensures MissingAwait(w, after, rows, marks)
  {
    forall q | IsMissing(w, after, rows, q)
      ensures Awaits(w, rows, marks, q)
    {
      assert !IsMissing(w, before, rows, q);
      var c :| c in rows && w.IsChildKey(c, q);
      assert Expecting(rows, marks, c);
    }
  }

  ghost predicate AreRuns(w: World, setting: Setting, runs: seq<Run>) {
    && runs != [] && (forall run :: run in runs ==> IsComplete(w, setting, run)) && IsProper(w, First(runs[0]))
    && forall k :: 0 <= k < |runs| - 1 ==> ContinuesAt(w, runs[k], runs[k + 1])
  }

  ghost predicate NoRunLoses(w: World, runs: seq<Run>) {
    forall run :: run in runs ==> NoPassLoses(w, run)
  }

  ghost predicate NoPassLoses(w: World, run: Run) {
    forall i: nat :: !LosesAt(w, run, i)
  }

  ghost predicate NoRunLeavesOut(w: World, runs: seq<Run>) {
    forall run :: run in runs ==> NoPassLeavesOut(w, run)
  }

  ghost predicate NoPassLeavesOut(w: World, run: Run) {
    forall i: nat :: !LeavesOutAt(w, run, i)
  }

  function UnlockedByAll(w: World, setting: Setting, runs: seq<Run>): set<(Id, Id)> {
    if runs == [] then {} else UnlockedIn(w, setting, runs[0]) + UnlockedByAll(w, setting, runs[1..])
  }

  /** There is another run after a run that unlocks something, and none after one that does not. */
  ghost predicate OnlyLastUnlocksNothing(w: World, setting: Setting, runs: seq<Run>) {
    runs != [] && forall k :: 0 <= k < |runs| ==> (UnlockedIn(w, setting, runs[k]) == {} <==> k == |runs| - 1)
  }

  /** Results among which propagation loses nothing */
  ghost predicate AreSafe(w: World, keys: set<Key>) {
    IsClosed(w, keys) && HasNoTrap(w, keys, PROPAGATION_CHUNK_SIZE)
  }

  /** All runs start with marks among such results. */
  ghost predicate IsSafe(w: World, runs: seq<Run>, keys: set<Key>) {
    && AreSafe(w, keys)
    && forall run :: run in runs ==> First(run).marks.Keys <= keys
  }

  class ResultStore {
    const world: World                      // items, items_items, items_ancestors, attempts
    const dependencies: set<Dependency>     // item_dependencies
    const now: int
    var visible: set<(Id, Id)>              // (participant, item): the item or an ancestor of it is visible
    var rows: Rows                          // results
    var marks: Marks                        // results_propagate
    var unlocks: Unlocks                    // permissions_granted with origin 'item_unlocking'

    ghost function Setting(): ResultRuns.Setting {
      ResultRuns.Setting(dependencies, now, PROPAGATION_CHUNK_SIZE, RECOMPUTATION_CHUNK_SIZE)
    }

    ghost function Tables(stage: Stage): Snapshot
      reads this
    {
      Snapshot(rows, marks, unlocks, stage)
    }

    /** The run so far is one of this store and has led to the tables as they are. */
    ghost predicate IsAt(run: Run, stage: Stage)
      reads this
    {
      IsRun(world, Setting(), run) && run.visible == visible && Last(run) == Tables(stage) &&
        IsProper(world, First(run))
    }

    ghost predicate Valid()
      reads this
    {
      && WellFormed(world)
      && Fits(world, rows, marks)
      && OnlyChaptersMarked(world, marks)
      && KeysIn(marks, Recomputing) == {}
    }

    constructor (world: World, dependencies: set<Dependency>, now: int, visible: set<(Id, Id)>, rows: Rows,
                 marks: Marks, unlocks: Unlocks)
      requires WellFormed(world) && Fits(world, rows, marks) && OnlyChaptersMarked(world, marks)
      requires KeysIn(marks, Recomputing) == {}
      ensures Valid()
      ensures this.world == world && this.dependencies == dependencies && this.now == now
      ensures this.visible == visible && this.rows == rows && this.marks == marks && this.unlocks == unlocks
    {
      this.world, this.dependencies, this.now := world, dependencies, now;
      this.visible, this.rows, this.marks, this.unlocks := visible, rows, marks, unlocks;
    }

    method MarkAsPropagatingSome(chunkSize: nat) returns (ghost chunk: set<Key>)
      modifies this`rows, this`marks
      ensures IsChunk(KeysIn(old(marks), ToBePropagated), chunkSize, chunk)
      ensures var toMark := ResultsToMark(world, visible, old(rows), StartPropagating(old(marks), chunk));
              && rows == CreateMissing(old(rows), toMark)
              && marks == MarkForRecomputation(StartPropagating(old(marks), chunk), toMark)
      ensures WellFormed(world) && Fits(world, old(rows), old(marks)) ==>
                ParentsAreSeenTo(world, visible, old(rows), StartPropagating(old(marks), chunk), rows, marks)
    {
      hide WellFormed, Fits, ResultsToMark, ParentsAreSeenTo;
      var started := PickChunk(KeysIn(marks, ToBePropagated), chunkSize);
      chunk := started;
      marks := StartPropagating(marks, started);
      var toMark := ResultsToMark(world, visible, rows, marks);
      if WellFormed(world) && Fits(world, rows, old(marks)) {
        StartedFit(world, rows, old(marks), started, marks);
        ParentsSeenTo(world, visible, rows, marks, toMark);
      }
      rows := CreateMissing(rows, toMark);
      marks := MarkForRecomputation(marks, toMark);
    }

    method UnlockDependedItems(collectFor: Option<Id>)
      returns (count: nat, participantItems: set<Id>, ghost pairs: set<(Id, Id)>)
      requires Fits(world, rows, marks)
      modifies this`unlocks, this`marks
      ensures marks == UnmarkPropagating(old(marks)) && unlocks == InsertUnlocks(world, old(unlocks), now, pairs)
      ensures pairs == ItemsToUnlock(world, dependencies, old(rows), old(marks), old(unlocks), now)
      ensures AreUnlocked(world, old(unlocks), unlocks, now, pairs)
      ensures EarnedGetAccess(world, dependencies, rows, old(marks), old(unlocks), unlocks, now)
      ensures forall pair :: pair in pairs <==> IsChanged(old(unlocks), unlocks, pair)
      ensures count == |pairs| && participantItems == ItemsFor(pairs, collectFor)
    {
      hide EarnedGetAccess, IsChanged;
      var itemsToUnlock := ItemsToUnlock(world, dependencies, rows, marks, unlocks, now);
      var inserted := InsertUnlocks(world, unlocks, now, itemsToUnlock);
      var left := UnmarkPropagating(marks);
      UnlockingStep(world, dependencies, rows, marks, unlocks, now, itemsToUnlock, inserted);
      UnlockingMeaning(world, dependencies, rows, marks, unlocks, now);
      participantItems := ItemsFor(itemsToUnlock, collectFor);
      count := |itemsToUnlock|;
      pairs := itemsToUnlock;
      assert pairs == ItemsToUnlock(world, dependencies, rows, old(marks), old(unlocks), now);
      assert AreUnlocked(world, old(unlocks), inserted, now, pairs);
      assert left == UnmarkPropagating(old(marks));
      unlocks := inserted;
      marks := left;
    }

    /** Recomputes bottom-up, by chunks, until no result is marked for recomputation. */
    method RecomputeMarked(chunkSize: nat, ghost run: Run) returns (ghost longer: Run)
      requires Valid() && KeysIn(marks, Propagating) == {} && chunkSize == RECOMPUTATION_CHUNK_SIZE
      requires IsAt(run, Aggregating)
      modifies this`rows, this`marks
      ensures Valid() && KeysIn(marks, Propagating) == {} && KeysIn(marks, ToBeRecomputed) == {}
      ensures IsAt(longer, Marking) && First(longer) == First(run)
      ensures Covered(world, old(rows), old(marks)) ==> Covered(world, rows, marks)
      ensures MissingAwait(world, visible, old(rows), old(marks)) ==> MissingAwait(world, visible, rows, marks)
      ensures OnlyChaptersChange(world, visible, old(rows), rows)
      ensures marks == old(marks) || WeightOf(world, marks) < WeightOf(world, old(marks))
      ensures KeysIn(old(marks), ToBeRecomputed) != {} ==> WeightOf(world, marks) < WeightOf(world, old(marks))
    {
      hide WellFormed, Fits, OnlyChaptersMarked, Covered, OnlyChaptersChange, KeysIn, WeightOf, IsRun, IsProper;
      hide Eligible, RecomputeRows, MarkModified, MissingAwait;
      longer := run;
      NoChange(world, visible, rows);
      var hasChanges := true;
      while hasChanges
        invariant Valid() && KeysIn(marks, Propagating) == {}
        invariant IsAt(longer, if hasChanges then Aggregating else Marking) && First(longer) == First(run)
        invariant Covered(world, old(rows), old(marks)) ==> Covered(world, rows, marks)
        invariant MissingAwait(world, visible, old(rows), old(marks)) ==> MissingAwait(world, visible, rows, marks)
        invariant OnlyChaptersChange(world, visible, old(rows), rows)
        invariant marks == old(marks) || WeightOf(world, marks) < WeightOf(world, old(marks))
        invariant !hasChanges ==> KeysIn(marks, ToBeRecomputed) == {}
        decreases KeysIn(marks, ToBeRecomputed), hasChanges
      {
        var chunk := PickChunk(Eligible(world, marks), chunkSize);
        if chunk == {} {
          EmptyChunk(Eligible(world, marks), chunkSize, chunk);
          NothingEligible(world, marks);
          ExtendedIsRun(world, Setting(), longer, Turn);
          longer := Extended(world, Setting(), longer, Turn);
          hasChanges := false;
        } else {
          ExtendedIsRun(world, Setting(), longer, Recompute(chunk));
          longer := Extended(world, Setting(), longer, Recompute(chunk));
          ghost var before := rows;
          RecomputeChunk(chunk);
          ChangesCompose(world, visible, visible, old(rows), before, rows);
        }
      }
    }

    method RecomputeChunk(chunk: set<Key>)
      requires Valid() && KeysIn(marks, Propagating) == {} && chunk != {} && chunk <= Eligible(world, marks)
      modifies this`rows, this`marks
      ensures Valid() && KeysIn(marks, Propagating) == {}
      ensures rows == RecomputeRows(world, old(rows), chunk)
      ensures marks == MarkModified(old(marks), old(rows), rows, chunk)
      ensures ChunkIsDone(world, old(rows), old(marks), chunk, rows, marks)
      ensures KeysIn(marks, ToBeRecomputed) < KeysIn(old(marks), ToBeRecomputed)
      ensures Covered(world, old(rows), old(marks)) ==> Covered(world, rows, marks)
      ensures MissingAwait(world, visible, old(rows), old(marks)) ==> MissingAwait(world, visible, rows, marks)
      ensures OnlyChaptersChange(world, visible, old(rows), rows)
      ensures WeightOf(world, marks) < WeightOf(world, old(marks))
    {
      hide WellFormed, Fits, OnlyChaptersMarked, Covered, OnlyChaptersChange, KeysIn, WeightOf, MissingAwait;
      hide ChunkIsDone;
      var after := RecomputeRows(world, rows, chunk);
      var left := MarkModified(marks, rows, after, chunk);
      ChunkStep(world, visible, rows, marks, chunk, after, left);
      RecomputingIsDone(world, rows, marks, chunk, after, left);
      rows := after;
      marks := left;
    }

    /** The access recomputation after unlocking, seen from here: items become visible to participants, and triggers on
        permissions_generated mark the existing results below these items for propagation, unless they are marked
        already. `touched` stands for those at a greater depth and for items that were visible through an ancestor. */
    method ComputeAllAccess()
      requires Valid()
      modifies this`visible, this`marks
      ensures Valid() && old(visible) <= visible
      ensures forall k :: k in old(marks) ==> k in marks && marks[k] == old(marks)[k]
      ensures forall k :: k in marks && k !in old(marks) ==> marks[k] == ToBePropagated
      ensures old(marks) == map[] ==> ShownAreMarked(world, rows, old(visible), visible, marks)
    {
      var shown: set<(Id, Id)> := *;
      var touched: set<Key> := *;
      var below := set k, e | k in rows && e in world.ItemEdges() && e.1 == k.item &&
                              (k.participant, e.0) in shown - visible :: k;
      ChildrenAreBelow(world, rows, shown - visible, below);
      visible := visible + shown;
      marks := (map k | k in touched + below && k in rows :: ToBePropagated) + marks;
    }

    /** Takes a chunk, marks its parents, unlocks dependent items and removes the chunk. */
    method MarkAndUnlock(collectFor: Option<Id>, ghost run: Run)
      returns (count: nat, participantItems: set<Id>, ghost longer: Run, ghost pairs: set<(Id, Id)>)
      requires Valid() && IsAt(run, Marking)
      modifies this`rows, this`marks, this`unlocks
      ensures Valid() && KeysIn(marks, Propagating) == {}
      ensures IsAt(longer, if marks == map[] then Ended else Aggregating) && First(longer) == First(run)
      ensures Covered(world, old(rows), old(marks)) && !LosesAt(world, longer, |run.actions|) ==>
                Covered(world, rows, marks)
      ensures MissingAwait(world, visible, old(rows), old(marks)) && !LeavesOutAt(world, longer, |run.actions|) ==>
                MissingAwait(world, visible, rows, marks)
      ensures OnlyChaptersChange(world, visible, old(rows), rows)
      ensures AreUnlocked(world, old(unlocks), unlocks, now, pairs)
      ensures count == |pairs| && participantItems == ItemsFor(pairs, collectFor)
      ensures WeightOf(world, marks) < WeightOf(world, old(marks)) ||
              (marks == old(marks) && KeysIn(marks, ToBePropagated) == {})
    {
      hide WellFormed, Fits, OnlyChaptersMarked, Covered, OnlyChaptersChange, KeysIn, WeightOf, AreUnlocked, ItemsFor;
      hide IsRun, IsProper;
      hide StartPropagating, ResultsToMark, CreateMissing, MarkForRecomputation, UnmarkPropagating, ItemsToUnlock;
      hide InsertUnlocks, NothingIsLost, NothingIsLeftOut, MissingAwait, ParentsAreSeenTo;
      ghost var before, pending := rows, marks;
      ghost var chunk := MarkAsPropagatingSome(PROPAGATION_CHUNK_SIZE);
      assert unlocks == old(unlocks);
      ghost var started := StartPropagating(pending, chunk);
      ghost var toMark := ResultsToMark(world, visible, before, started);
      ghost var left := UnmarkPropagating(marks);
      EmptyChunk(KeysIn(pending, ToBePropagated), PROPAGATION_CHUNK_SIZE, chunk);
      MarkingStep(world, visible, before, pending, chunk, started, toMark, rows, left);
      MarkingStepIsLighter(world, visible, before, pending, chunk, started, toMark, rows, left);
      MarkedStillFit(world, visible, before, pending, chunk, started, toMark);
      count, participantItems, pairs := UnlockDependedItems(collectFor);
      ExtendedIsRun(world, Setting(), run, Mark(chunk));
      longer := Extended(world, Setting(), run, Mark(chunk));
    }

    /** Marks, unlocks and recomputes until no result is marked. */
    method PropagateMarked(collectFor: Option<Id>)
      returns (itemsUnlockedCount: nat, participantItems: set<Id>, ghost run: Run, ghost pairs: set<(Id, Id)>)
      requires Valid()
      modifies this`rows, this`marks, this`unlocks
      ensures Valid() && marks == map[]
      ensures IsComplete(world, Setting(), run) && run.visible == visible
      ensures First(run) == old(Tables(Marking)) && Last(run) == Tables(Ended)
      ensures Covered(world, old(rows), old(marks)) && NoPassLoses(world, run) ==> AllAgree(world, rows)
      ensures forall keys ::
                Covered(world, old(rows), old(marks)) && AreSafe(world, keys) && old(marks).Keys <= keys ==>
                  AllAgree(world, rows)
      ensures MissingAwait(world, visible, old(rows), old(marks)) && NoPassLeavesOut(world, run) ==>
                NoneMissing(world, visible, rows)
      ensures forall keys ::
                MissingAwait(world, visible, old(rows), old(marks)) && AreSafe(world, keys) &&
                old(marks).Keys <= keys ==>
                  NoneMissing(world, visible, rows)
      ensures OnlyChaptersChange(world, visible, old(rows), rows)
      ensures pairs == UnlockedIn(world, Setting(), run) && AreUnlocked(world, old(unlocks), unlocks, now, pairs)
      ensures itemsUnlockedCount == |pairs| && participantItems == ItemsFor(pairs, collectFor)
    {
      hide WellFormed, Fits, OnlyChaptersMarked, Covered, OnlyChaptersChange, KeysIn, WeightOf, AreUnlocked, ItemsFor;
      hide IsProper, IsRun;
      hide NoPassLoses, NoPassLeavesOut, AreSafe, AllAgree, MissingAwait, NoneMissing;
      NothingChangesYet(world, visible, rows, unlocks, now, collectFor);
      run := NewRun(visible, Tables(Marking));
      NewRunIsRun(world, Setting(), visible, Tables(Marking));
      itemsUnlockedCount := 0;
      participantItems, pairs := {}, {};
      while true
        invariant Valid()
        invariant IsAt(run, Marking) && First(run) == old(Tables(Marking))
        invariant AreUnlocked(world, old(unlocks), unlocks, now, pairs)
        invariant itemsUnlockedCount == |pairs| && participantItems == ItemsFor(pairs, collectFor)
        decreases WeightOf(world, marks)
      {
        var countAtStep, itemsAtStep;
        ghost var pairsAtStep;
        ghost var unlocksBefore := unlocks;
        countAtStep, itemsAtStep, run, pairsAtStep := MarkAndUnlock(collectFor, run);
        UnlockedCompose(world, old(unlocks), unlocksBefore, unlocks, now, pairs, pairsAtStep);
        ItemsForUnion(pairs, pairsAtStep, collectFor);
        itemsUnlockedCount := itemsUnlockedCount + countAtStep;
        participantItems := participantItems + itemsAtStep;
        pairs := pairs + pairsAtStep;
        assert itemsUnlockedCount == |pairs|;
        if marks == map[] {
          break;
        }
        SomethingIsLeft(marks);
        run := RecomputeMarked(RECOMPUTATION_CHUNK_SIZE, run);
      }
      UnlockedInRun(world, Setting(), run, pairs);
      WhatOneRunReaches(world, Setting(), run);
    }

    /** With the recursion after unlocking: `runs` are the runs of the outer loop, one for each call. */
    method Propagate(collectFor: Option<Id>)
      returns (participantItems: set<Id>, ghost runs: seq<Run>, ghost pairs: set<(Id, Id)>)
      requires Valid()
      modifies this`rows, this`marks, this`unlocks, this`visible
      ensures Valid() && marks == map[]
      ensures runs != [] && AreRuns(world, Setting(), runs)
      ensures First(runs[0]) == old(Tables(Marking)) && Last(runs[|runs| - 1]) == Tables(Ended)
      ensures runs[0].visible == old(visible) && runs[|runs| - 1].visible == visible && old(visible) <= visible
      ensures Covered(world, old(rows), old(marks)) && NoRunLoses(world, runs) ==> AllAgree(world, rows)
      ensures forall keys :: Covered(world, old(rows), old(marks)) && IsSafe(world, runs, keys) ==>
                AllAgree(world, rows)
      ensures forall keys :: Covered(world, old(rows), old(marks)) && AreSafe(world, keys) && old(rows).Keys <= keys ==>
                AllAgree(world, rows)
      ensures MissingAwait(world, old(visible), old(rows), old(marks)) && NoRunLeavesOut(world, runs) ==>
                NoneMissing(world, visible, rows)
      ensures forall keys ::
                MissingAwait(world, old(visible), old(rows), old(marks)) && AreSafe(world, keys) &&
                old(rows).Keys <= keys ==>
                  NoneMissing(world, visible, rows)
      ensures OnlyLastUnlocksNothing(world, Setting(), runs) && pairs == UnlockedByAll(world, Setting(), runs)
      ensures |runs| <= |Locked(world, old(unlocks), now)| + 1
      ensures OnlyChaptersChange(world, visible, old(rows), rows)
      ensures AreUnlocked(world, old(unlocks), unlocks, now, pairs) && participantItems == ItemsFor(pairs, collectFor)
      decreases |Locked(world, unlocks, now)|
    {
      hide WellFormed, Fits, OnlyChaptersMarked, Covered, OnlyChaptersChange, KeysIn, WeightOf, AreUnlocked, ItemsFor;
      hide AllAgree, AreRuns;
      hide NoRunLoses, NoRunLeavesOut, MissingAwait, NoneMissing, IsSafe, AreSafe, IsComplete, UnlockedIn, Locked;
      hide ShownAreMarked;
      var itemsUnlockedCount;
      ghost var run;
      itemsUnlockedCount, participantItems, run, pairs := PropagateMarked(collectFor);
      runs := [run];
      OneRun(world, Setting(), run);
      OneUnlocks(world, Setting(), run, pairs);
      if itemsUnlockedCount > 0 {
        ghost var unlocksThen := unlocks;
        ComputeAllAccess();
        assert unlocks == unlocksThen;
        FewerLocked(world, old(unlocks), unlocks, now, pairs);
        var participantItems2;
        ghost var runs2, more;
        participantItems2, runs2, more := Propagate(collectFor);
        MoreRuns(world, Setting(), run, runs2);
        MoreUnlock(world, Setting(), run, runs2);
        UnlockedCompose(world, old(unlocks), unlocksThen, unlocks, now, pairs, more);
        ItemsForUnion(pairs, more, collectFor);
        participantItems, runs, pairs := participantItems + participantItems2, [run] + runs2, pairs + more;
      }
      WhatRunsReach(world, Setting(), runs);
    }
  }

  // ---------- What the runs unlock ----------

  lemma OneUnlocks(w: World, setting: Setting, run: Run, pairs: set<(Id, Id)>)
    requires pairs == UnlockedIn(w, setting, run)
    ensures UnlockedByAll(w, setting, [run]) == pairs && (pairs == {} ==> OnlyLastUnlocksNothing(w, setting, [run]))
  {
    assert [run][1..] == [];
  }

  lemma MoreUnlock(w: World, setting: Setting, run: Run, runs: seq<Run>)
    requires UnlockedIn(w, setting, run) != {} && OnlyLastUnlocksNothing(w, setting, runs)
    ensures OnlyLastUnlocksNothing(w, setting, [run] + runs)
    ensures UnlockedByAll(w, setting, [run] + runs) == UnlockedIn(w, setting, run) + UnlockedByAll(w, setting, runs)
  {
    hide UnlockedIn;
    assert ([run] + runs)[1..] == runs;
  }

  /** What runs that follow one another unlock is locked before the first of them. */
  lemma {:induction false} LaterRunsUnlock(w: World, setting: Setting, runs: seq<Run>, j: nat)
    requires WellFormed(w) && AreRuns(w, setting, runs) && j < |runs|
    ensures Locked(w, First(runs[j]).unlocks, setting.now) <= Locked(w, First(runs[0]).unlocks, setting.now)
    ensures UnlockedIn(w, setting, runs[j]) <= Locked(w, First(runs[0]).unlocks, setting.now)
    ensures Locked(w, Last(runs[j]).unlocks, setting.now) <= Locked(w, First(runs[0]).unlocks, setting.now)
  {
    hide WellFormed, IsProper, Locked, UnlockedIn, UnlockedUpTo;
    RunUnlocks(w, setting, runs, j);
    if j > 0 {
      LaterRunsUnlock(w, setting, runs, j - 1);
      assert ContinuesAt(w, runs[j - 1], runs[j - 1 + 1]);
    }
  }

  lemma RunUnlocks(w: World, setting: Setting, runs: seq<Run>, j: nat)
    requires WellFormed(w) && AreRuns(w, setting, runs) && j < |runs|
    ensures AreUnlocked(w, First(runs[j]).unlocks, Last(runs[j]).unlocks, setting.now, UnlockedIn(w, setting, runs[j]))
  {
    hide WellFormed, IsProper, AreUnlocked, UnlockedUpTo;
    assert IsComplete(w, setting, runs[j]);
    assert j > 0 ==> ContinuesAt(w, runs[j - 1], runs[j - 1 + 1]);
    RunsUnlock(w, setting, runs[j], |runs[j].actions|);
  }

  /** No pair is unlocked by two of the runs. */
  lemma NoPairIsUnlockedByTwoRuns(w: World, setting: Setting, runs: seq<Run>, i: nat, j: nat)
    requires WellFormed(w) && AreRuns(w, setting, runs) && i < j < |runs|
    ensures UnlockedIn(w, setting, runs[i]) !! UnlockedIn(w, setting, runs[j])
  {
    hide WellFormed, IsProper, IsComplete, Locked, UnlockedIn;
    var later := runs[i + 1..];
    LaterAreRuns(w, setting, runs, i + 1);
    LaterRunsUnlock(w, setting, later, j - i - 1);
    assert later[j - i - 1] == runs[j] && later[0] == runs[i + 1];
    RunUnlocks(w, setting, runs, i);
    assert ContinuesAt(w, runs[i], runs[i + 1]);
  }

  lemma LaterAreRuns(w: World, setting: Setting, runs: seq<Run>, n: nat)
    requires AreRuns(w, setting, runs) && n < |runs|
    ensures AreRuns(w, setting, runs[n..])
  {
    hide IsProper, IsComplete;
    var later := runs[n..];
    assert n > 0 ==> ContinuesAt(w, runs[n - 1], runs[n - 1 + 1]);
    forall k | 0 <= k < |later| - 1
      ensures ContinuesAt(w, later[k], later[k + 1])
    {
      assert ContinuesAt(w, runs[n + k], runs[n + k + 1]);
    }
  }

  // ---------- What the runs reach ----------

  lemma NewRunIsRun(w: World, setting: Setting, visible: set<(Id, Id)>, s: Snapshot)
    requires Fits(w, s.rows, s.marks) && OnlyChaptersMarked(w, s.marks) && KeysIn(s.marks, Recomputing) == {}
    requires s.stage == Marking
    ensures IsRun(w, setting, NewRun(visible, s)) && IsProper(w, s)
  {
  }

  lemma UnlockedInRun(w: World, setting: Setting, run: Run, pairs: set<(Id, Id)>)
    requires WellFormed(w) && IsRun(w, setting, run) && IsProper(w, First(run))
    requires AreUnlocked(w, First(run).unlocks, Last(run).unlocks, setting.now, pairs)
    ensures pairs == UnlockedIn(w, setting, run)
  {
    hide WellFormed, IsProper, Locked, UnlockedUpTo;
    RunsUnlock(w, setting, run, |run.actions|);
  }

  lemma OneRun(w: World, setting: Setting, run: Run)
    requires IsComplete(w, setting, run) && IsProper(w, First(run))
    ensures AreRuns(w, setting, [run])
  {
  }

  lemma MoreRuns(w: World, setting: Setting, run: Run, runs: seq<Run>)
    requires IsComplete(w, setting, run) && IsProper(w, First(run)) && AreRuns(w, setting, runs)
    requires ContinuesAt(w, run, runs[0])
    ensures AreRuns(w, setting, [run] + runs)
    ensures ([run] + runs)[0] == run && ([run] + runs)[|[run] + runs| - 1] == runs[|runs| - 1]
  {
    hide IsComplete, IsProper;
    var all := [run] + runs;
    forall k | 0 <= k < |all| - 1
      ensures ContinuesAt(w, all[k], all[k + 1])
    {
      if k > 0 {
        assert ContinuesAt(w, runs[k - 1], runs[k - 1 + 1]);
      }
    }
  }

  lemma {:induction false} ChainReachesFixpoint(w: World, setting: Setting, runs: seq<Run>)
    requires WellFormed(w) && AreRuns(w, setting, runs)
    requires Covered(w, First(runs[0]).rows, First(runs[0]).marks) && NoRunLoses(w, runs)
    ensures AllAgree(w, Last(runs[|runs| - 1]).rows)
  {
    hide WellFormed, IsProper, Covered, AllAgree, LosesAt;
    var n := |runs| - 1;
    if n > 0 {
      ChainReachesFixpoint(w, setting, runs[..n]);
      assert ContinuesAt(w, runs[n - 1], runs[n - 1 + 1]);
      AgreementCovers(w, First(runs[n]).rows, First(runs[n]).marks);
    }
    assert NoPassLoses(w, runs[n]) && IsComplete(w, setting, runs[n]);
    RunsReachFixpoint(w, setting, runs[n]);
  }

  lemma {:induction false} ChainCreatesMissing(w: World, setting: Setting, runs: seq<Run>)
    requires WellFormed(w) && AreRuns(w, setting, runs)
    requires MissingAwait(w, runs[0].visible, First(runs[0]).rows, First(runs[0]).marks) && NoRunLeavesOut(w, runs)
    ensures NoneMissing(w, runs[|runs| - 1].visible, Last(runs[|runs| - 1]).rows)
  {
    hide WellFormed, IsProper, MissingAwait, NoneMissing, LeavesOutAt, ShownAreMarked;
    var n := |runs| - 1;
    if n > 0 {
      ChainCreatesMissing(w, setting, runs[..n]);
      assert ContinuesAt(w, runs[n - 1], runs[n - 1 + 1]);
      ShownAwait(w, First(runs[n]).rows, runs[n - 1].visible, runs[n].visible, First(runs[n]).marks);
    }
    assert NoPassLeavesOut(w, runs[n]) && IsComplete(w, setting, runs[n]);
    RunsCreateMissing(w, setting, runs[n]);
  }

  lemma ChainsWithoutTraps(w: World, setting: Setting, runs: seq<Run>, keys: set<Key>)
    requires WellFormed(w) && AreRuns(w, setting, runs) && IsSafe(w, runs, keys)
    requires setting.propagationChunk == PROPAGATION_CHUNK_SIZE
    ensures NoRunLoses(w, runs) && NoRunLeavesOut(w, runs)
  {
    hide WellFormed, IsProper, IsClosed, HasNoTrap, Covered, NothingIsLost, NothingIsLeftOut;
    forall run | run in runs
      ensures NoPassLoses(w, run) && NoPassLeavesOut(w, run)
    {
      var k :| 0 <= k < |runs| && runs[k] == run;
      assert k > 0 ==> ContinuesAt(w, runs[k - 1], runs[k - 1 + 1]);
      forall i: nat
        ensures !LosesAt(w, run, i) && !LeavesOutAt(w, run, i)
      {
        if i < |run.actions| {
          WithoutTrapsNoPassLoses(w, setting, run, keys, i);
        }
      }
    }
  }

  lemma {:induction false} ChainChangesChaptersOnly(w: World, setting: Setting, runs: seq<Run>)
    requires WellFormed(w) && AreRuns(w, setting, runs)
    ensures OnlyChaptersChange(w, runs[|runs| - 1].visible, First(runs[0]).rows, Last(runs[|runs| - 1]).rows)
  {
    hide WellFormed, IsProper, OnlyChaptersChange;
    var n := |runs| - 1;
    assert IsComplete(w, setting, runs[n]);
    if n > 0 {
      ChainChangesChaptersOnly(w, setting, runs[..n]);
      assert ContinuesAt(w, runs[n - 1], runs[n - 1 + 1]);
      RunsKeepProper(w, setting, runs[n], |runs[n].actions|);
      ChangesCompose(w, runs[n - 1].visible, runs[n].visible, First(runs[0]).rows, First(runs[n]).rows,
                     Last(runs[n]).rows);
    } else {
      RunsKeepProper(w, setting, runs[n], |runs[n].actions|);
    }
  }

  /** What the calls create and mark stays among results that contain those of the start. */
  lemma {:induction false} RowsStayWithin(w: World, setting: Setting, runs: seq<Run>, keys: set<Key>, j: nat)
    requires WellFormed(w) && AreRuns(w, setting, runs) && IsClosed(w, keys) && j < |runs|
    requires First(runs[0]).rows.Keys <= keys
    ensures First(runs[j]).rows.Keys <= keys && First(runs[j]).marks.Keys <= keys && Last(runs[j]).rows.Keys <= keys
  {
    hide WellFormed, IsClosed, Fits, OnlyChaptersMarked, KeysIn;
    if j > 0 {
      RowsStayWithin(w, setting, runs, keys, j - 1);
      assert ContinuesAt(w, runs[j - 1], runs[j - 1 + 1]);
    }
    MarkedRowsExist(w, First(runs[j]).rows, First(runs[j]).marks);
    assert IsComplete(w, setting, runs[j]);
    RunsStayWithin(w, setting, runs[j], keys, |runs[j].actions|);
  }

  lemma ResultsStaySafe(w: World, setting: Setting, runs: seq<Run>, keys: set<Key>)
    requires WellFormed(w) && AreRuns(w, setting, runs) && AreSafe(w, keys) && First(runs[0]).rows.Keys <= keys
    ensures IsSafe(w, runs, keys)
  {
    hide WellFormed, IsClosed, HasNoTrap, IsComplete, IsProper;
    forall run | run in runs
      ensures First(run).marks.Keys <= keys
    {
      var j :| 0 <= j < |runs| && runs[j] == run;
      RowsStayWithin(w, setting, runs, keys, j);
    }
  }

  lemma WhatRunsReach(w: World, setting: Setting, runs: seq<Run>)
    requires WellFormed(w) && AreRuns(w, setting, runs) && setting.propagationChunk == PROPAGATION_CHUNK_SIZE
    ensures var start, end := First(runs[0]), Last(runs[|runs| - 1]).rows;
            && (Covered(w, start.rows, start.marks) && NoRunLoses(w, runs) ==> AllAgree(w, end))
            && (forall keys :: Covered(w, start.rows, start.marks) && IsSafe(w, runs, keys) ==> AllAgree(w, end))
            && (forall keys ::
                  Covered(w, start.rows, start.marks) && AreSafe(w, keys) && start.rows.Keys <= keys ==>
                    AllAgree(w, end))
            && OnlyChaptersChange(w, runs[|runs| - 1].visible, start.rows, end)
    ensures var start, end, visible := First(runs[0]), Last(runs[|runs| - 1]).rows, runs[|runs| - 1].visible;
            && (MissingAwait(w, runs[0].visible, start.rows, start.marks) && NoRunLeavesOut(w, runs) ==>
                  NoneMissing(w, visible, end))
            && (forall keys :: MissingAwait(w, runs[0].visible, start.rows, start.marks) && IsSafe(w, runs, keys) ==>
                  NoneMissing(w, visible, end))
            && (forall keys ::
                  MissingAwait(w, runs[0].visible, start.rows, start.marks) && AreSafe(w, keys) &&
                  start.rows.Keys <= keys ==>
                    NoneMissing(w, visible, end))
  {
    hide WellFormed, Covered, AllAgree, NoRunLoses, IsSafe, AreSafe, OnlyChaptersChange, IsComplete, IsProper;
    hide MissingAwait, NoneMissing, NoRunLeavesOut, ContinuesAt;
    var start, end := First(runs[0]), Last(runs[|runs| - 1]).rows;
    WhatRunsCreate(w, setting, runs);
    if Covered(w, start.rows, start.marks) && NoRunLoses(w, runs) {
      ChainReachesFixpoint(w, setting, runs);
    }
    forall keys | Covered(w, start.rows, start.marks) && IsSafe(w, runs, keys)
      ensures AllAgree(w, end)
    {
      ChainsWithoutTraps(w, setting, runs, keys);
      ChainReachesFixpoint(w, setting, runs);
    }
    forall keys | Covered(w, start.rows, start.marks) && AreSafe(w, keys) && start.rows.Keys <= keys
      ensures AllAgree(w, end)
    {
      ResultsStaySafe(w, setting, runs, keys);
      ChainsWithoutTraps(w, setting, runs, keys);
      ChainReachesFixpoint(w, setting, runs);
    }
    ChainChangesChaptersOnly(w, setting, runs);
  }

  lemma WhatRunsCreate(w: World, setting: Setting, runs: seq<Run>)
    requires WellFormed(w) && AreRuns(w, setting, runs) && setting.propagationChunk == PROPAGATION_CHUNK_SIZE
    ensures var start, end, visible := First(runs[0]), Last(runs[|runs| - 1]).rows, runs[|runs| - 1].visible;
            MissingAwait(w, runs[0].visible, start.rows, start.marks) &&
            (NoRunLeavesOut(w, runs) || (exists keys :: IsSafe(w, runs, keys)) ||
             exists keys :: AreSafe(w, keys) && start.rows.Keys <= keys) ==>
              NoneMissing(w, visible, end)
  {
    hide WellFormed, MissingAwait, NoneMissing, NoRunLeavesOut, IsSafe, AreSafe, IsComplete, IsProper, ContinuesAt;
    if keys :| IsSafe(w, runs, keys) {
      ChainsWithoutTraps(w, setting, runs, keys);
    } else if keys :| AreSafe(w, keys) && First(runs[0]).rows.Keys <= keys {
      ResultsStaySafe(w, setting, runs, keys);
    }
    if MissingAwait(w, runs[0].visible, First(runs[0]).rows, First(runs[0]).marks) && NoRunLeavesOut(w, runs) {
      ChainCreatesMissing(w, setting, runs);
    }
  }

  lemma WhatOneRunReaches(w: World, setting: Setting, run: Run)
    requires WellFormed(w) && IsComplete(w, setting, run) && IsProper(w, First(run))
    requires setting.propagationChunk == PROPAGATION_CHUNK_SIZE
    ensures var start, end := First(run), Last(run).rows;
            && (Covered(w, start.rows, start.marks) && NoPassLoses(w, run) ==> AllAgree(w, end))
            && (forall keys ::
                  Covered(w, start.rows, start.marks) && AreSafe(w, keys) && start.marks.Keys <= keys ==>
                    AllAgree(w, end))
            && OnlyChaptersChange(w, run.visible, start.rows, end)
    ensures var start, end := First(run), Last(run).rows;
            && (MissingAwait(w, run.visible, start.rows, start.marks) && NoPassLeavesOut(w, run) ==>
                  NoneMissing(w, run.visible, end))
            && (forall keys ::
                  MissingAwait(w, run.visible, start.rows, start.marks) && AreSafe(w, keys) &&
                  start.marks.Keys <= keys ==>
                    NoneMissing(w, run.visible, end))
  {
    hide WellFormed, Covered, AllAgree, NoPassLoses, AreSafe, OnlyChaptersChange, IsComplete, IsProper;
    hide MissingAwait, NoneMissing, NoPassLeavesOut;
    var start, end := First(run), Last(run).rows;
    OneRun(w, setting, run);
    WhatRunsReach(w, setting, [run]);
    assert NoPassLoses(w, run) ==> NoRunLoses(w, [run]);
    assert NoPassLeavesOut(w, run) ==> NoRunLeavesOut(w, [run]);
    forall keys | AreSafe(w, keys) && start.marks.Keys <= keys
      ensures Covered(w, start.rows, start.marks) ==> AllAgree(w, end)
      ensures MissingAwait(w, run.visible, start.rows, start.marks) ==> NoneMissing(w, run.visible, end)
    {
      assert IsSafe(w, [run], keys);
    }
  }

  /** When a chunk can hold every result there can be, nothing is lost. */
  lemma SmallWorldsAreSafe(w: World, setting: Setting, runs: seq<Run>)
    requires WellFormed(w) && AreRuns(w, setting, runs) && |Universe(w)| <= PROPAGATION_CHUNK_SIZE
    ensures IsSafe(w, runs, set k | k in Universe(w) && CanExist(w, k))
  {
    var keys := set k | k in Universe(w) && CanExist(w, k);
    SubsetNotLarger(keys, Universe(w));
    FewResultsHaveNoTrap(w, keys, PROPAGATION_CHUNK_SIZE);
    hide HasNoTrap;
    forall k | CanExist(w, k)
      ensures k in keys
    {
      assert (k.participant, k.attempt) in w.attempts &&
             k == Key((k.participant, k.attempt).0, (k.participant, k.attempt).1, k.item);
    }
    forall run | run in runs
      ensures First(run).marks.Keys <= keys
    {
      var i :| 0 <= i < |runs| && runs[i] == run;
      assert i > 0 ==> ContinuesAt(w, runs[i - 1], runs[i - 1 + 1]);
      MarkedRowsExist(w, First(run).rows, First(run).marks);
    }
  }
}
