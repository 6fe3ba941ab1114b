/** The converse of what runs without traps reach: wherever there is a trap, some run ends without marks and with a
    stale chapter. So the absence of traps is exactly what makes every run reach the fixpoint. */
module PropagationLoss {
  import opened Collections
  import opened Graph
  import opened ResultAggregates
  import opened ResultPropagation
  import opened ResultRuns

  // ---------- Results that all agree but for one ----------

  const IDLE := Row(1, 0, 0, None, 0.0, NoRule)

  /** All results of `done` agree with their children except for `stale`, and none is new. */
  ghost predicate AgreeBut(w: World, rows: Rows, done: set<Key>, stale: Key) {
    && (forall k :: k in done && k != stale ==> Agrees(w, rows, k))
    && (stale in done ==> stale in rows && !Agrees(w, rows, stale))
    && forall k :: k in rows ==> rows[k].latestActivityAt > NEVER
  }

  /** Filling in the results from the deepest items upwards */
  lemma {:induction false} FillIn(w: World, keys: set<Key>, stale: Key, done: set<Key>, rows: Rows)
    returns (filled: Rows)
    requires WellFormed(w) && done <= keys == rows.Keys && forall k :: k in keys ==> k.item in w.items
    requires forall k, d :: k in done && d in keys && w.IsChildKey(d, k) ==> d in done
    requires AgreeBut(w, rows, done, stale)
    ensures filled.Keys == keys && AgreeBut(w, filled, keys, stale)
    decreases |keys - done|
  {
    if keys - done == {} {
      assert done == keys;
      filled := rows;
    } else {
      var k := DeepestKey(w, keys - done);
      forall d | d in keys && w.IsChildKey(d, k)
        ensures d in done
      {
        EdgeReaches(w.ItemEdges(), k.item, d.item);
        DepthGrows(w.ItemEdges(), k.item, d.item);
      }
      var next := FillInOne(w, stale, done, rows, k);
      StrictSubsetSmaller(keys - (done + {k}), keys - done);
      filled := FillIn(w, keys, stale, done + {k}, next);
    }
  }

  lemma FillInOne(w: World, stale: Key, done: set<Key>, rows: Rows, k: Key) returns (next: Rows)
    requires WellFormed(w) && k in rows && k.item in w.items && k !in done && done <= rows.Keys
    requires AgreeBut(w, rows, done, stale)
    requires forall q, d :: q in done && d in rows && w.IsChildKey(d, q) ==> d in done
    ensures next.Keys == rows.Keys && AgreeBut(w, next, done + {k}, stale)
  {
    var row := Recomputed(w, rows, k);
    next := rows[k := if k == stale then row.(tasksTried := row.tasksTried + 1) else row];
    NotItsOwnChild(w, k);
    assert SameChildren(w, rows, next, k);
    if k == stale {
      OffByOneDisagrees(w, rows, next, k);
    } else {
      RecomputingMakesAgree(w, rows, next, k);
    }
    hide Recomputed;
    forall q | q in done
      ensures Agrees(w, next, q) <==> Agrees(w, rows, q)
    {
      OthersAgreeAsBefore(w, rows, next, k, q);
    }
  }

  lemma NotItsOwnChild(w: World, k: Key)
    requires WellFormed(w)
    ensures !w.IsChildKey(k, k)
  {
    if (k.item, k.item) in w.ItemEdges() {
      EdgeReaches(w.ItemEdges(), k.item, k.item);
    }
  }

  lemma OthersAgreeAsBefore(w: World, rows: Rows, next: Rows, k: Key, q: Key)
    requires q != k && q in rows && !w.IsChildKey(k, q) && k in rows && k in next && next == rows[k := next[k]]
    ensures Agrees(w, next, q) <==> Agrees(w, rows, q)
  {
    assert SameChildren(w, rows, next, q);
    if q.item in w.items {
      RecomputedDependsOnChildren(w, rows, next, q);
    }
  }

  lemma OffByOneDisagrees(w: World, rows: Rows, next: Rows, k: Key)
    requires k in rows && k in next && k.item in w.items && SameChildren(w, rows, next, k)
    requires next[k].tasksTried == Recomputed(w, rows, k).tasksTried + 1
    ensures !Agrees(w, next, k)
  {
    LinksAreEdges(w, k.item);
    StatsDependOnChildren(w, rows, next, k, w.LinksOf(k.item));
  }

  // ---------- Runs that change nothing any more ----------

  /** Nothing leads to the stale result: it is not marked, none of its children is pending, and no other result will
      change. */
  ghost predicate IsStuck(w: World, stale: Key, s: Snapshot) {
    && IsProper(w, s) && KeysIn(s.marks, Propagating) == {}
    && stale in s.rows && w.HasChildren(stale.item) && AgreeBut(w, s.rows, s.rows.Keys, stale)
    && LeadsNowhere(w, stale, s.marks)
  }

  ghost predicate LeadsNowhere(w: World, stale: Key, marks: Marks) {
    !Is(marks, stale, ToBeRecomputed) && forall k :: Is(marks, k, ToBePropagated) ==> !w.IsChildKey(k, stale)
  }

  lemma MarkingStaysStuck(w: World, stale: Key, s: Snapshot, chunk: set<Key>)
    requires WellFormed(w) && IsStuck(w, stale, s) && chunk <= KeysIn(s.marks, ToBePropagated)
    ensures RowsWithParents(w, {}, s, chunk) == s.rows
    ensures LeadsNowhere(w, stale, UnmarkPropagating(MarksWithParents(w, {}, s, chunk)))
  {
    hide WellFormed, AgreeBut, Fits, OnlyChaptersMarked;
    NothingIsCreated(w, s.rows, StartPropagating(s.marks, chunk));
    OverwrittenLeadNowhere(w, stale, s.rows, s.marks, chunk);
  }

  /** Results that are not visible are not created. */
  lemma NothingIsCreated(w: World, rows: Rows, marks: Marks)
    ensures CreateMissing(rows, ResultsToMark(w, {}, rows, marks)) == rows
  {
    assert ResultsToMark(w, {}, rows, marks) <= rows.Keys;
  }

  /** The pass takes no child of the stale result, and overwrites the children of it that are pending. */
  lemma OverwrittenLeadNowhere(w: World, stale: Key, rows: Rows, marks: Marks, chunk: set<Key>)
    requires WellFormed(w) && Fits(w, rows, marks) && KeysIn(marks, Propagating) == {}
    requires !Is(marks, stale, ToBeRecomputed)
    requires chunk <= KeysIn(marks, ToBePropagated) && forall k :: k in chunk ==> !w.IsChildKey(k, stale)
    requires forall k :: Is(marks, k, ToBePropagated) && w.IsChildKey(k, stale) ==> HasChildIn(w, chunk, k)
    ensures var s := Snapshot(rows, marks, map[], Marking);
            LeadsNowhere(w, stale, UnmarkPropagating(MarksWithParents(w, {}, s, chunk)))
  {
    hide WellFormed, Fits, ResultsToMark, StartPropagating, MarkForRecomputation, UnmarkPropagating, Is, KeysIn;
    hide IsMarkedNow, HasChildIn;
    var started := StartPropagating(marks, chunk);
    var toMark := ResultsToMark(w, {}, rows, started);
    var left := UnmarkPropagating(MarkForRecomputation(started, toMark));
    StartedFit(w, rows, marks, chunk, started);
    StartedMarks(marks, chunk, started);
    MarkedAfterwards(started, toMark, left, stale);
    ToMarkMeaning(w, {}, rows, started, stale);
    NotMarkedWithoutChild(w, {}, rows, started, stale);
    forall k | Is(left, k, ToBePropagated)
      ensures !w.IsChildKey(k, stale)
    {
      StillPending(started, toMark, left, k);
      if w.IsChildKey(k, stale) {
        IsOverwritten(w, rows, marks, chunk, started, k);
      }
    }
  }

  ghost predicate HasChildIn(w: World, keys: set<Key>, parent: Key) {
    exists c :: c in keys && w.IsChildKey(c, parent)
  }

  lemma StartedMarks(marks: Marks, chunk: set<Key>, started: Marks)
    requires started == StartPropagating(marks, chunk) && chunk <= KeysIn(marks, ToBePropagated)
    requires KeysIn(marks, Propagating) == {}
    ensures forall k :: Is(started, k, Propagating) <==> k in chunk
    ensures forall k :: Is(started, k, ToBePropagated) ==> Is(marks, k, ToBePropagated)
    ensures forall k :: Is(started, k, ToBeRecomputed) ==> Is(marks, k, ToBeRecomputed)
  {
    forall k
      ensures Is(started, k, Propagating) <==> k in chunk
    {
      assert k !in KeysIn(marks, Propagating);
    }
  }

  lemma StillPending(marks: Marks, toMark: set<Key>, left: Marks, k: Key)
    requires left == UnmarkPropagating(MarkForRecomputation(marks, toMark)) && Is(left, k, ToBePropagated)
    ensures Is(marks, k, ToBePropagated) && k !in toMark
  {
  }

  lemma IsOverwritten(w: World, rows: Rows, marks: Marks, chunk: set<Key>, started: Marks, k: Key)
    requires WellFormed(w) && Fits(w, rows, marks) && Fits(w, rows, started)
    requires started == StartPropagating(marks, chunk)
    requires Is(started, k, ToBePropagated) && HasChildIn(w, chunk, k)
    ensures k in ResultsToMark(w, {}, rows, started)
  {
    ToMarkMeaning(w, {}, rows, started, k);
    hide WellFormed, ResultsToMark;
    assert CanExist(w, k);
    var c :| c in chunk && w.IsChildKey(c, k);
    assert Is(started, c, Propagating);
  }

  lemma RecomputingStaysStuck(w: World, stale: Key, rows: Rows, marks: Marks, chunk: set<Key>)
    requires Fits(w, rows, marks) && chunk <= Eligible(w, marks)
    requires AgreeBut(w, rows, rows.Keys, stale) && LeadsNowhere(w, stale, marks)
    ensures RecomputeRows(w, rows, chunk) == rows && LeadsNowhere(w, stale, MarkModified(marks, rows, rows, chunk))
  {
    hide Recomputed;
    forall k | k in chunk
      ensures k in rows && k != stale && Agrees(w, rows, k)
    {
      assert Is(marks, k, ToBeRecomputed);
    }
  }

  lemma StepStaysStuck(w: World, stale: Key, setting: Setting, s: Snapshot, action: Action)
    requires WellFormed(w) && IsStuck(w, stale, s) && IsAllowed(w, setting, s, action)
    ensures var t := After(w, {}, setting, s, action); IsStuck(w, stale, t) && t.rows == s.rows
  {
    StepKeepsProper(w, {}, setting, s, action);
    hide WellFormed, AgreeBut, Fits, OnlyChaptersMarked, OnlyChaptersChange, LeadsNowhere, ResultsToMark, Eligible;
    hide CreateMissing;
    hide MarkForRecomputation, UnmarkPropagating, StartPropagating, MarkModified, RecomputeRows, KeysIn;
    match action
    case Mark(chunk) => MarkingStaysStuck(w, stale, s, chunk);
    case Recompute(chunk) => RecomputingStaysStuck(w, stale, s.rows, s.marks, chunk);
    case Turn =>
  }

  lemma {:induction false} SomeSubset(keys: set<Key>, size: nat) returns (subset: set<Key>)
    requires size <= |keys|
    ensures subset <= keys && |subset| == size
  {
    if size == |keys| {
      subset := keys;
    } else {
      var k := SomeElement(keys);
      subset := SomeSubset(keys - {k}, size);
    }
  }

  lemma SomeChunk(keys: set<Key>, size: nat) returns (chunk: set<Key>)
    ensures IsChunk(keys, size, chunk) && (size > 0 && keys != {} ==> chunk != {})
  {
    chunk := SomeSubset(keys, if size < |keys| then size else |keys|);
  }

  lemma ChunkWith(keys: set<Key>, key: Key, size: nat) returns (chunk: set<Key>)
    requires key in keys && 0 < size <= |keys|
    ensures chunk <= keys && |chunk| == size && key in chunk
  {
    var others := SomeSubset(keys - {key}, size - 1);
    chunk := others + {key};
  }

  /** How many steps the marks can stay as they are */
  ghost function Patience(w: World, s: Snapshot): nat {
    match s.stage
    case Marking => 1
    case Aggregating => if Eligible(w, s.marks) == {} then 2 else 0
    case Ended => 0
  }

  /** From a stuck state every way of going on ends, with the results as they are. */
  lemma {:induction false} StuckRunsEnd(w: World, stale: Key, setting: Setting, run: Run) returns (complete: Run)
    requires WellFormed(w) && setting.propagationChunk > 0 && setting.recomputationChunk > 0
    requires IsRun(w, setting, run) && run.visible == {} && IsStuck(w, stale, Last(run))
    ensures IsRun(w, setting, complete) && First(complete) == First(run) && complete.visible == {}
    ensures Last(complete).stage == Ended && Last(complete).rows == Last(run).rows
    decreases WeightOf(w, Last(run).marks), Patience(w, Last(run))
  {
    hide WellFormed, IsStuck, IsRun, WeightOf, Patience;
    var s := Last(run);
    if s.stage == Ended {
      complete := run;
    } else {
      var action := NextAction(w, stale, setting, s);
      StepStaysStuck(w, stale, setting, s, action);
      ExtendedIsRun(w, setting, run, action);
      complete := StuckRunsEnd(w, stale, setting, Extended(w, setting, run, action));
    }
  }

  lemma NextAction(w: World, stale: Key, setting: Setting, s: Snapshot) returns (action: Action)
    requires WellFormed(w) && setting.propagationChunk > 0 && setting.recomputationChunk > 0
    requires IsStuck(w, stale, s) && s.stage != Ended
    ensures IsAllowed(w, setting, s, action)
    ensures var t := After(w, {}, setting, s, action);
            WeightOf(w, t.marks) < WeightOf(w, s.marks) || (t.marks == s.marks && Patience(w, t) < Patience(w, s))
  {
    hide WellFormed, AgreeBut, Fits, OnlyChaptersMarked, LeadsNowhere, WeightOf, Eligible, KeysIn;
    if s.stage == Marking {
      var chunk := SomeChunk(KeysIn(s.marks, ToBePropagated), setting.propagationChunk);
      action := Mark(chunk);
      StepsAreLighter(w, {}, setting, s, action);
      MarksAreLeft(w, s);
    } else if Eligible(w, s.marks) == {} {
      action := Turn;
    } else {
      var chunk := SomeChunk(Eligible(w, s.marks), setting.recomputationChunk);
      action := Recompute(chunk);
      StepsAreLighter(w, {}, setting, s, action);
    }
  }

  lemma MarksAreLeft(w: World, s: Snapshot)
    requires WellFormed(w) && KeysIn(s.marks, Propagating) == {} && KeysIn(s.marks, Recomputing) == {}
    ensures KeysIn(s.marks, ToBePropagated) == {} && s.marks != map[] ==> Eligible(w, s.marks) != {}
  {
    if KeysIn(s.marks, ToBePropagated) == {} && s.marks != map[] {
      SomethingIsLeft(s.marks);
      var k := SomeElement(KeysIn(s.marks, ToBeRecomputed));
      var found := SomeResultIsEligible(w, s.marks, k);
    }
  }

  // ---------- From a trap to a stale chapter ----------

  /** All results that are no children of the grandparent wait for their propagation, and so does the parent. */
  function TrapMarks(w: World, keys: set<Key>, p: Key, g: Key): Marks {
    map k | k in NotChildrenOf(w, keys, g) + {p} :: ToBePropagated
  }

  lemma TrapStart(w: World, setting: Setting, keys: set<Key>, p: Key, g: Key, rows: Rows, marks: Marks)
    requires WellFormed(w) && IsClosed(w, keys) && p in keys && g in keys && w.IsChildKey(p, g)
    requires rows.Keys == keys && AgreeBut(w, rows, keys, g) && marks == TrapMarks(w, keys, p, g)
    ensures StartsWithin(w, NewRun({}, Snapshot(rows, marks, map[], Marking)), keys)
    ensures KeysIn(marks, Propagating) == {} && KeysIn(marks, ToBePropagated) == NotChildrenOf(w, keys, g) + {p}
  {
    hide WellFormed, IsClosed, AgreeBut, Fits, OnlyChaptersMarked, Covered, TrapMarks, KeysIn;
    var run := NewRun({}, Snapshot(rows, marks, map[], Marking));
    assert First(run).marks == marks && First(run).rows == rows;
    TrapMarksStates(w, keys, p, g, marks);
    TrapMarksFit(w, keys, p, g, rows, marks);
    TrapIsCovered(w, keys, p, g, rows, marks);
  }

  lemma TrapMarksStates(w: World, keys: set<Key>, p: Key, g: Key, marks: Marks)
    requires marks == TrapMarks(w, keys, p, g) && p in keys
    ensures marks.Keys <= keys && OnlyChaptersMarked(w, marks)
    ensures KeysIn(marks, Recomputing) == {} && KeysIn(marks, Propagating) == {}
    ensures KeysIn(marks, ToBePropagated) == NotChildrenOf(w, keys, g) + {p}
  {
  }

  lemma TrapMarksFit(w: World, keys: set<Key>, p: Key, g: Key, rows: Rows, marks: Marks)
    requires IsClosed(w, keys) && marks == TrapMarks(w, keys, p, g) && rows.Keys == keys && p in keys
    ensures Fits(w, rows, marks)
  {
    hide CanExist;
  }

  lemma TrapIsCovered(w: World, keys: set<Key>, p: Key, g: Key, rows: Rows, marks: Marks)
    requires w.IsChildKey(p, g) && p in keys && g in keys
    requires rows.Keys == keys && AgreeBut(w, rows, keys, g) && marks == TrapMarks(w, keys, p, g)
    ensures Covered(w, rows, marks)
  {
    hide Agrees, NotChildrenOf;
    assert Expecting(rows, marks, p);
  }

  lemma ChaptersHaveChildren(w: World, c: Key, p: Key)
    requires w.IsChildKey(c, p)
    ensures w.HasChildren(p.item)
  {
  }

  /** The first pass takes the child and not the parent, whose propagation is overwritten. */
  lemma TrapCloses(w: World, setting: Setting, keys: set<Key>, c: Key, p: Key, g: Key, rows: Rows, marks: Marks,
                   chunk: set<Key>)
    requires WellFormed(w) && IsClosed(w, keys) && p in keys && g in keys && w.IsChildKey(c, p) && w.IsChildKey(p, g)
    requires rows.Keys == keys && AgreeBut(w, rows, keys, g) && marks == TrapMarks(w, keys, p, g)
    requires c in chunk && chunk <= NotChildrenOf(w, keys, g)
    requires IsChunk(KeysIn(marks, ToBePropagated), setting.propagationChunk, chunk)
    ensures var t := After(w, {}, setting, Snapshot(rows, marks, map[], Marking), Mark(chunk));
            IsStuck(w, g, t) && t.rows == rows
  {
    var s := Snapshot(rows, marks, map[], Marking);
    TrapStart(w, setting, keys, p, g, rows, marks);
    StepKeepsProper(w, {}, setting, s, Mark(chunk));
    ChaptersHaveChildren(w, p, g);
    hide WellFormed, IsClosed, AgreeBut, OnlyChaptersChange, Covered, OnlyChaptersMarked;
    hide Fits, Is;
    NothingIsCreated(w, rows, StartPropagating(marks, chunk));
    TrapMarkLeads(w, keys, c, p, g, marks, chunk);
    OverwrittenLeadNowhere(w, g, rows, marks, chunk);
  }

  lemma TrapMarkLeads(w: World, keys: set<Key>, c: Key, p: Key, g: Key, marks: Marks, chunk: set<Key>)
    requires marks == TrapMarks(w, keys, p, g) && c in chunk && w.IsChildKey(c, p) && chunk <= NotChildrenOf(w, keys, g)
    ensures !Is(marks, g, ToBeRecomputed) && KeysIn(marks, Propagating) == {}
    ensures forall k :: k in chunk ==> !w.IsChildKey(k, g)
    ensures forall k :: Is(marks, k, ToBePropagated) && w.IsChildKey(k, g) ==> HasChildIn(w, chunk, k)
  {
  }

  /** Where there is a trap, some results, marks and chunks make a run end with a stale chapter. */
  lemma TrapsLosePropagations(w: World, setting: Setting, keys: set<Key>, c: Key, p: Key, g: Key) returns (run: Run)
    requires WellFormed(w) && IsClosed(w, keys) && IsTrap(w, keys, setting.propagationChunk, c, p, g)
    requires setting.propagationChunk > 0 && setting.recomputationChunk > 0
    ensures IsComplete(w, setting, run) && StartsWithin(w, run, keys) && !AllAgree(w, Last(run).rows)
  {
    hide *;
    var s, chunk := StateWithTrap(w, setting, keys, c, p, g);
    var start := NewRun({}, s);
    OneState(w, setting, s);
    ExtendedIsRun(w, setting, start, Mark(chunk));
    run := StuckRunsEnd(w, g, setting, Extended(w, setting, start, Mark(chunk)));
    SameStart(w, keys, start, run);
    EndsStale(w, setting, keys, g, s, run);
  }

  /** The state before the pass that forgets the grandparent, and the chunk of that pass */
  lemma StateWithTrap(w: World, setting: Setting, keys: set<Key>, c: Key, p: Key, g: Key)
    returns (s: Snapshot, chunk: set<Key>)
    requires WellFormed(w) && IsClosed(w, keys) && IsTrap(w, keys, setting.propagationChunk, c, p, g)
    requires setting.propagationChunk > 0
    ensures s.stage == Marking && StartsWithin(w, NewRun({}, s), keys) && IsAllowed(w, setting, s, Mark(chunk))
    ensures var t := After(w, {}, setting, s, Mark(chunk)); IsStuck(w, g, t) && IsStale(w, t.rows, g)
  {
    hide WellFormed, AgreeBut, After, IsStuck, StartsWithin, TrapMarks, Agrees;
    AllCanBeFilled(w, keys, g);
    var rows := FillIn(w, keys, g, {}, map k | k in keys :: IDLE);
    var marks := TrapMarks(w, keys, p, g);
    s := Snapshot(rows, marks, map[], Marking);
    TrapStart(w, setting, keys, p, g, rows, marks);
    var others := NotChildrenOf(w, keys, g);
    chunk := ChunkWith(others, c, setting.propagationChunk);
    assert p !in others && |others + {p}| == |others| + 1;
    TrapCloses(w, setting, keys, c, p, g, rows, marks, chunk);
    ChaptersHaveChildren(w, p, g);
    StaleOne(w, rows, keys, g);
  }

  lemma AllCanBeFilled(w: World, keys: set<Key>, g: Key)
    requires IsClosed(w, keys)
    ensures (forall k :: k in keys ==> k.item in w.items) && AgreeBut(w, map k | k in keys :: IDLE, {}, g)
  {
  }

  ghost predicate IsStale(w: World, rows: Rows, key: Key) {
    key in rows && w.HasChildren(key.item) && !Agrees(w, rows, key)
  }

  lemma StaleOne(w: World, rows: Rows, keys: set<Key>, g: Key)
    requires AgreeBut(w, rows, keys, g) && g in keys && w.HasChildren(g.item)
    ensures IsStale(w, rows, g)
  {
  }

  lemma OneState(w: World, setting: Setting, s: Snapshot)
    ensures var start := NewRun({}, s);
            IsRun(w, setting, start) && First(start) == s && Last(start) == s && start.visible == {}
    ensures forall action :: Extended(w, setting, NewRun({}, s), action).visible == {}
  {
  }

  lemma EndsStale(w: World, setting: Setting, keys: set<Key>, g: Key, s: Snapshot, run: Run)
    requires IsRun(w, setting, run) && First(run) == s && s.stage == Marking && Last(run).stage == Ended
    requires IsStale(w, Last(run).rows, g)
    ensures IsComplete(w, setting, run) && !AllAgree(w, Last(run).rows)
  {
    hide Agrees;
  }

  lemma SameStart(w: World, keys: set<Key>, a: Run, b: Run)
    requires StartsWithin(w, a, keys) && First(a) == First(b)
    ensures StartsWithin(w, b, keys)
  {
  }

  /** Every run over results among `keys` reaches the fixpoint, whatever the results, the marks and the chunks are,
      if and only if there is no trap among them. */
  lemma RunsReachFixpointExactlyWithoutTraps(w: World, setting: Setting, keys: set<Key>)
    requires WellFormed(w) && IsClosed(w, keys) && setting.propagationChunk > 0 && setting.recomputationChunk > 0
    ensures EveryRunReachesFixpoint(w, setting, keys) <==> HasNoTrap(w, keys, setting.propagationChunk)
  {
    hide WellFormed, IsClosed, IsTrap, AllAgree, IsComplete, StartsWithin;
    if HasNoTrap(w, keys, setting.propagationChunk) {
      WithoutTrapsEveryRunReachesFixpoint(w, setting, keys);
    } else {
      var c, p, g :| IsTrap(w, keys, setting.propagationChunk, c, p, g);
      var run := TrapsLosePropagations(w, setting, keys, c, p, g);
    }
  }

  // ---------- Any number of possible results above the chunk size can hold a trap ----------

  const CHAPTER: Id := 1
  const SKILL: Id := 2
  const TASK: Id := 3

  function At(item: Id): Key {
    Key(0, 0, item)
  }

  /** One participant and `size` items, of which the first three form a chain */
  function Chain(size: nat): World {
    World(map i: Id {:trigger At(i)} | 1 <= i <= size :: Item(false, false, All),
          map[CHAPTER := [ChildLink(SKILL, false, 1)], SKILL := [ChildLink(TASK, false, 1)]],
          {(CHAPTER, SKILL), (SKILL, TASK), (CHAPTER, TASK)},
          map[(0, 0) := Attempt(None, None)])
  }

  lemma ChainIsWellFormed(size: nat)
    requires size >= 3
    ensures WellFormed(Chain(size)) && Chain(size).ItemEdges() == {(CHAPTER, SKILL), (SKILL, TASK)}
  {
    var w := Chain(size);
    var edges := {(CHAPTER, SKILL), (SKILL, TASK)};
    assert w.ItemEdges() == edges by {
      assert ChildLink(SKILL, false, 1) in w.links[CHAPTER] && ChildLink(TASK, false, 1) in w.links[SKILL];
    }
    forall a, b
      ensures Reaches(edges, a, b) <==> (a, b) in w.itemsAncestors
    {
      if Reaches(edges, a, b) {
        ChainReaches(a, b);
      }
      if (a, b) in w.itemsAncestors {
        EdgeReaches(edges, CHAPTER, SKILL);
        EdgeReaches(edges, SKILL, TASK);
        ReachesTransitive(edges, CHAPTER, SKILL, TASK);
      }
    }
  }

  lemma ChainReaches(a: Id, b: Id)
    requires Reaches({(CHAPTER, SKILL), (SKILL, TASK)}, a, b)
    ensures (a, b) in {(CHAPTER, SKILL), (SKILL, TASK), (CHAPTER, TASK)}
    decreases b
  {
    var edges := {(CHAPTER, SKILL), (SKILL, TASK)};
    ReachesThroughParent(edges, a, b);
    var p :| (p, b) in edges && (a == p || Reaches(edges, a, p));
    if a != p {
      ChainReaches(a, p);
    }
  }

  lemma {:induction false} KeysUpTo(size: nat) returns (keys: set<Key>)
    ensures |keys| == size && forall k :: k in keys <==> exists i :: 1 <= i <= size && k == At(i)
  {
    if size == 0 {
      keys := {};
    } else {
      var fewer := KeysUpTo(size - 1);
      assert At(size) !in fewer;
      keys := fewer + {At(size)};
      forall k
        ensures k in keys <==> exists i :: 1 <= i <= size && k == At(i)
      {
        assert k in keys ==> k.item <= size;
      }
    }
  }

  lemma ChainUniverse(size: nat)
    ensures |Universe(Chain(size))| == size && forall i :: At(i) in Universe(Chain(size)) <==> 1 <= i <= size
    ensures forall k :: k in Universe(Chain(size)) ==> k == At(k.item)
  {
    var w := Chain(size);
    var keys := KeysUpTo(size);
    forall k
      ensures k in Universe(w) <==> k in keys
    {
      if k in keys {
        var i :| 1 <= i <= size && k == At(i);
        assert (0, 0) in w.attempts && i in w.items && k == Key((0, 0).0, (0, 0).1, i);
      }
      if k in Universe(w) {
        assert k == At(k.item) && 1 <= k.item <= size;
      }
    }
    assert Universe(w) == keys;
  }

  /** Three items in a chain are a trap as soon as there are more possible results than a chunk holds, and only then. */
  lemma ChainsAreTraps(size: nat, chunkSize: nat)
    requires size >= 3
    ensures var w := Chain(size);
            && WellFormed(w) && |Universe(w)| == size && IsClosed(w, Universe(w))
            && (HasNoTrap(w, Universe(w), chunkSize) <==> size <= chunkSize)
  {
    var w, keys := Chain(size), Universe(Chain(size));
    ChainIsWellFormed(size);
    ChainUniverse(size);
    if size <= chunkSize {
      FewResultsHaveNoTrap(w, keys, chunkSize);
    } else {
      assert w.IsChildKey(At(TASK), At(SKILL)) && w.IsChildKey(At(SKILL), At(CHAPTER));
      assert NotChildrenOf(w, keys, At(CHAPTER)) == keys - {At(SKILL)};
      assert IsTrap(w, keys, chunkSize, At(TASK), At(SKILL), At(CHAPTER));
    }
  }
}
