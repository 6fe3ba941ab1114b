/** Runs of the propagation of results as sequences of states: which chunks were taken, what they lost, and when no run
    can lose anything. */
module ResultRuns {
  import opened Collections
  import opened Graph
  import opened ResultAggregates
  import opened ResultPropagation

  /** Before a chunk of propagations, before a chunk of recomputations, or at the exit of the outer loop */
  datatype Stage = Marking | Aggregating | Ended

  datatype Snapshot = Snapshot(rows: Rows, marks: Marks, unlocks: Unlocks, stage: Stage)

  /** One transaction: the parents of a chunk are marked and the chunk is removed, a chunk is recomputed,
      or nothing is found to recompute. */
  datatype Action = Mark(chunk: set<Key>) | Recompute(chunk: set<Key>) | Turn

  /** What does not change during a run: item_dependencies, the time, and the sizes of the chunks */
  datatype Setting = Setting(dependencies: set<Dependency>, now: int, propagationChunk: nat, recomputationChunk: nat)

  datatype Run = Run(visible: set<(Id, Id)>, states: seq<Snapshot>, actions: seq<Action>)

  predicate IsAllowed(w: World, setting: Setting, s: Snapshot, action: Action) {
    match action
    case Mark(chunk) => s.stage == Marking && IsChunk(KeysIn(s.marks, ToBePropagated), setting.propagationChunk, chunk)
    case Recompute(chunk) => s.stage == Aggregating && chunk != {} &&
      IsChunk(Eligible(w, s.marks), setting.recomputationChunk, chunk)
    case Turn => s.stage == Aggregating && Eligible(w, s.marks) == {}
  }

  /** The marks once the parents of the chunk are marked */
  function MarksWithParents(w: World, visible: set<(Id, Id)>, s: Snapshot, chunk: set<Key>): Marks {
    var started := StartPropagating(s.marks, chunk);
    MarkForRecomputation(started, ResultsToMark(w, visible, s.rows, started))
  }

  function RowsWithParents(w: World, visible: set<(Id, Id)>, s: Snapshot, chunk: set<Key>): Rows {
    CreateMissing(s.rows, ResultsToMark(w, visible, s.rows, StartPropagating(s.marks, chunk)))
  }

  /** The (participant, item) pairs that the pass unlocks */
  function UnlockedBy(w: World, visible: set<(Id, Id)>, setting: Setting, s: Snapshot, action: Action): set<(Id, Id)> {
    if action.Mark? then
      ItemsToUnlock(w, setting.dependencies, RowsWithParents(w, visible, s, action.chunk),
                    MarksWithParents(w, visible, s, action.chunk), s.unlocks, setting.now)
    else {}
  }

  function MarkChunk(w: World, visible: set<(Id, Id)>, setting: Setting, s: Snapshot, chunk: set<Key>): Snapshot {
    var left := UnmarkPropagating(MarksWithParents(w, visible, s, chunk));
    Snapshot(RowsWithParents(w, visible, s, chunk), left,
             InsertUnlocks(w, s.unlocks, setting.now, UnlockedBy(w, visible, setting, s, Mark(chunk))),
             if left == map[] then Ended else Aggregating)
  }

  function RecomputeChunk(w: World, s: Snapshot, chunk: set<Key>): Snapshot {
    var after := RecomputeRows(w, s.rows, chunk);
    Snapshot(after, MarkModified(s.marks, s.rows, after, chunk), s.unlocks, Aggregating)
  }

  function After(w: World, visible: set<(Id, Id)>, setting: Setting, s: Snapshot, action: Action): Snapshot {
    match action
    case Mark(chunk) => MarkChunk(w, visible, setting, s, chunk)
    case Recompute(chunk) => RecomputeChunk(w, s, chunk)
    case Turn => s.(stage := Marking)
  }

  predicate IsStepOf(w: World, setting: Setting, run: Run, i: nat) {
    && i < |run.actions| && i + 1 < |run.states|
    && IsAllowed(w, setting, run.states[i], run.actions[i])
    && run.states[i + 1] == After(w, run.visible, setting, run.states[i], run.actions[i])
  }

  ghost predicate IsRun(w: World, setting: Setting, run: Run) {
    |run.states| == |run.actions| + 1 && forall i :: 0 <= i < |run.actions| ==> IsStepOf(w, setting, run, i)
  }

  const NO_TABLES := Snapshot(map[], map[], map[], Ended)

  function First(run: Run): Snapshot {
    if run.states == [] then NO_TABLES else run.states[0]
  }

  function Last(run: Run): Snapshot {
    if run.states == [] then NO_TABLES else run.states[|run.states| - 1]
  }

  /** From the start of the outer loop to its exit */
  ghost predicate IsComplete(w: World, setting: Setting, run: Run) {
    IsRun(w, setting, run) && First(run).stage == Marking && Last(run).stage == Ended
  }

  /** The pass forgets some result. */
  ghost predicate LosesAt(w: World, run: Run, i: nat) {
    i < |run.actions| && i < |run.states| && run.actions[i].Mark? &&
    !NothingIsLost(w, run.visible, run.states[i].rows, StartPropagating(run.states[i].marks, run.actions[i].chunk))
  }

  /** The pass forgets to have some missing result created. */
  ghost predicate LeavesOutAt(w: World, run: Run, i: nat) {
    i < |run.actions| && i < |run.states| && run.actions[i].Mark? &&
    !NothingIsLeftOut(w, run.visible, run.states[i].rows, StartPropagating(run.states[i].marks, run.actions[i].chunk))
  }

  /** What the tables satisfy between transactions. An interrupted run can leave 'propagating' results to the next
      one. */
  ghost predicate IsProper(w: World, s: Snapshot) {
    && Fits(w, s.rows, s.marks) && OnlyChaptersMarked(w, s.marks)
    && KeysIn(s.marks, Recomputing) == {} && (s.stage != Marking ==> KeysIn(s.marks, Propagating) == {})
    && (s.stage == Ended ==> s.marks == map[])
  }

  function NewRun(visible: set<(Id, Id)>, s: Snapshot): Run {
    Run(visible, [s], [])
  }

  function Extended(w: World, setting: Setting, run: Run, action: Action): Run {
    Run(run.visible, run.states + [After(w, run.visible, setting, Last(run), action)], run.actions + [action])
  }

  lemma ExtendedIsRun(w: World, setting: Setting, run: Run, action: Action)
    requires IsRun(w, setting, run) && IsAllowed(w, setting, Last(run), action)
    ensures var longer := Extended(w, setting, run, action);
            && IsRun(w, setting, longer) && First(longer) == First(run) &&
               Last(longer) == After(w, run.visible, setting, Last(run), action)
            && |longer.actions| == |run.actions| + 1 && |longer.states| == |longer.actions| + 1
            && longer.actions[|run.actions|] == action && longer.states[|run.actions|] == Last(run)
  {
    hide IsAllowed, After;
    var longer := Extended(w, setting, run, action);
    forall i | 0 <= i < |longer.actions|
      ensures IsStepOf(w, setting, longer, i)
    {
      assert i < |run.actions| ==> IsStepOf(w, setting, run, i);
    }
  }

  // ---------- What every step keeps ----------

  lemma StepKeepsProper(w: World, visible: set<(Id, Id)>, setting: Setting, s: Snapshot, action: Action)
    requires WellFormed(w) && IsProper(w, s) && IsAllowed(w, setting, s, action)
    ensures var t := After(w, visible, setting, s, action);
            IsProper(w, t) && OnlyChaptersChange(w, visible, s.rows, t.rows)
  {
    hide WellFormed, Fits, OnlyChaptersMarked, OnlyChaptersChange, KeysIn, Eligible, StartPropagating, ResultsToMark;
    hide MarkForRecomputation;
    hide UnmarkPropagating, CreateMissing, RecomputeRows, MarkModified, Covered, WeightOf;
    match action
    case Mark(chunk) =>
      var started := StartPropagating(s.marks, chunk);
      var toMark := ResultsToMark(w, visible, s.rows, started);
      MarkingStep(w, visible, s.rows, s.marks, chunk, started, toMark, CreateMissing(s.rows, toMark),
                  UnmarkPropagating(MarkForRecomputation(started, toMark)));
    case Recompute(chunk) =>
      var after := RecomputeRows(w, s.rows, chunk);
      ChunkStep(w, visible, s.rows, s.marks, chunk, after, MarkModified(s.marks, s.rows, after, chunk));
    case Turn => NoChange(w, visible, s.rows);
  }

  lemma NoChange(w: World, visible: set<(Id, Id)>, rows: Rows)
    ensures OnlyChaptersChange(w, visible, rows, rows)
  {
  }

  lemma StepKeepsCovered(w: World, visible: set<(Id, Id)>, setting: Setting, s: Snapshot, action: Action)
    requires WellFormed(w) && IsProper(w, s) && IsAllowed(w, setting, s, action) && Covered(w, s.rows, s.marks)
    requires action.Mark? ==> NothingIsLost(w, visible, s.rows, StartPropagating(s.marks, action.chunk))
    ensures var t := After(w, visible, setting, s, action); Covered(w, t.rows, t.marks)
  {
    hide WellFormed, Fits, OnlyChaptersMarked, OnlyChaptersChange, KeysIn, Eligible, StartPropagating, ResultsToMark;
    hide MarkForRecomputation;
    hide UnmarkPropagating, CreateMissing, RecomputeRows, MarkModified, Covered, NothingIsLost, WeightOf;
    match action
    case Mark(chunk) =>
      var started := StartPropagating(s.marks, chunk);
      var toMark := ResultsToMark(w, visible, s.rows, started);
      MarkingStep(w, visible, s.rows, s.marks, chunk, started, toMark, CreateMissing(s.rows, toMark),
                  UnmarkPropagating(MarkForRecomputation(started, toMark)));
    case Recompute(chunk) =>
      var after := RecomputeRows(w, s.rows, chunk);
      ChunkStep(w, visible, s.rows, s.marks, chunk, after, MarkModified(s.marks, s.rows, after, chunk));
    case Turn =>
  }

  lemma StepKeepsMissingAwaited(w: World, visible: set<(Id, Id)>, setting: Setting, s: Snapshot, action: Action)
    requires WellFormed(w) && IsProper(w, s) && IsAllowed(w, setting, s, action)
    requires MissingAwait(w, visible, s.rows, s.marks)
    requires action.Mark? ==> NothingIsLeftOut(w, visible, s.rows, StartPropagating(s.marks, action.chunk))
    ensures var t := After(w, visible, setting, s, action); MissingAwait(w, visible, t.rows, t.marks)
  {
    hide WellFormed, Fits, OnlyChaptersMarked, OnlyChaptersChange, KeysIn, Eligible, StartPropagating, ResultsToMark;
    hide MarkForRecomputation, MissingAwait, NothingIsLost;
    hide UnmarkPropagating, CreateMissing, RecomputeRows, MarkModified, Covered, NothingIsLeftOut, WeightOf;
    match action
    case Mark(chunk) =>
      var started := StartPropagating(s.marks, chunk);
      var toMark := ResultsToMark(w, visible, s.rows, started);
      MarkingStep(w, visible, s.rows, s.marks, chunk, started, toMark, CreateMissing(s.rows, toMark),
                  UnmarkPropagating(MarkForRecomputation(started, toMark)));
    case Recompute(chunk) =>
      var after := RecomputeRows(w, s.rows, chunk);
      ChunkStep(w, visible, s.rows, s.marks, chunk, after, MarkModified(s.marks, s.rows, after, chunk));
    case Turn =>
  }

  /** Every step but the turn makes the marks lighter, unless there was nothing to propagate. */
  lemma StepsAreLighter(w: World, visible: set<(Id, Id)>, setting: Setting, s: Snapshot, action: Action)
    requires WellFormed(w) && IsProper(w, s) && IsAllowed(w, setting, s, action) && !action.Turn?
    ensures var t := After(w, visible, setting, s, action);
            WeightOf(w, t.marks) < WeightOf(w, s.marks) || (t.marks == s.marks && action == Mark({}))
  {
    hide WellFormed, Fits, OnlyChaptersMarked, OnlyChaptersChange, KeysIn, Eligible, StartPropagating, ResultsToMark;
    hide MarkForRecomputation;
    hide UnmarkPropagating, CreateMissing, RecomputeRows, MarkModified, Covered, WeightOf;
    match action
    case Mark(chunk) =>
      var started := StartPropagating(s.marks, chunk);
      var toMark := ResultsToMark(w, visible, s.rows, started);
      var left := UnmarkPropagating(MarkForRecomputation(started, toMark));
      MarkingStep(w, visible, s.rows, s.marks, chunk, started, toMark, CreateMissing(s.rows, toMark), left);
      MarkingStepIsLighter(w, visible, s.rows, s.marks, chunk, started, toMark, CreateMissing(s.rows, toMark), left);
    case Recompute(chunk) =>
      var after := RecomputeRows(w, s.rows, chunk);
      ChunkStep(w, visible, s.rows, s.marks, chunk, after, MarkModified(s.marks, s.rows, after, chunk));
  }

  lemma StepStaysWithin(w: World, visible: set<(Id, Id)>, setting: Setting, s: Snapshot, action: Action, keys: set<Key>)
    requires WellFormed(w) && IsProper(w, s) && IsAllowed(w, setting, s, action) && IsClosed(w, keys)
    requires s.marks.Keys <= keys
    ensures After(w, visible, setting, s, action).marks.Keys <= keys
    ensures s.rows.Keys <= keys ==> After(w, visible, setting, s, action).rows.Keys <= keys
  {
    match action
    case Mark(chunk) => MarkedStayWithin(w, visible, s, chunk, keys);
    case Recompute(chunk) => FewerMarked(w, s.marks, s.rows, RecomputeRows(w, s.rows, chunk), chunk);
    case Turn =>
  }

  lemma FewerMarked(w: World, marks: Marks, rows: Rows, after: Rows, chunk: set<Key>)
    requires after == RecomputeRows(w, rows, chunk)
    ensures MarkModified(marks, rows, after, chunk).Keys <= marks.Keys && after.Keys == rows.Keys
  {
  }

  lemma MarkedStayWithin(w: World, visible: set<(Id, Id)>, s: Snapshot, chunk: set<Key>, keys: set<Key>)
    requires WellFormed(w) && IsProper(w, s) && chunk <= KeysIn(s.marks, ToBePropagated) && IsClosed(w, keys)
    requires s.marks.Keys <= keys
    ensures UnmarkPropagating(MarksWithParents(w, visible, s, chunk)).Keys <= keys
    ensures s.rows.Keys <= keys ==> RowsWithParents(w, visible, s, chunk).Keys <= keys
  {
    hide WellFormed, Fits, ResultsToMark, IsClosed, OnlyChaptersMarked, Covered;
    var started := StartPropagating(s.marks, chunk);
    StartingKeeps(w, s.rows, s.marks, chunk, started);
    StartedKeysWerePending(s.marks, chunk, started);
    var toMark := ResultsToMark(w, visible, s.rows, started);
    MarksStayWithin(w, visible, s.rows, started, toMark, UnmarkPropagating(MarkForRecomputation(started, toMark)),
                    keys);
  }

  /** The pairs a step unlocks could be unlocked before it and cannot after it. */
  lemma StepUnlocks(w: World, visible: set<(Id, Id)>, setting: Setting, s: Snapshot, action: Action)
    requires WellFormed(w) && IsProper(w, s) && IsAllowed(w, setting, s, action)
    ensures AreUnlocked(w, s.unlocks, After(w, visible, setting, s, action).unlocks, setting.now,
                        UnlockedBy(w, visible, setting, s, action))
  {
    hide WellFormed, Fits, OnlyChaptersMarked, KeysIn, Eligible, StartPropagating, ResultsToMark, MarkForRecomputation;
    hide UnmarkPropagating;
    hide CreateMissing, RecomputeRows, MarkModified, AreUnlocked, ItemsToUnlock, InsertUnlocks;
    if action.Mark? {
      var chunk := action.chunk;
      var started := StartPropagating(s.marks, chunk);
      MarkedStillFit(w, visible, s.rows, s.marks, chunk, started, ResultsToMark(w, visible, s.rows, started));
      UnlockingStep(w, setting.dependencies, RowsWithParents(w, visible, s, chunk),
                    MarksWithParents(w, visible, s, chunk), s.unlocks, setting.now,
                    UnlockedBy(w, visible, setting, s, action), MarkChunk(w, visible, setting, s, chunk).unlocks);
    } else {
      NothingUnlocked(w, s.unlocks, setting.now);
    }
  }

  lemma NothingUnlocked(w: World, unlocks: Unlocks, now: int)
    ensures AreUnlocked(w, unlocks, unlocks, now, {})
  {
  }

  // ---------- Runs ----------

  lemma {:induction false} RunsKeepProper(w: World, setting: Setting, run: Run, i: nat)
    requires WellFormed(w) && IsRun(w, setting, run) && IsProper(w, First(run)) && i < |run.states|
    ensures IsProper(w, run.states[i]) && OnlyChaptersChange(w, run.visible, First(run).rows, run.states[i].rows)
  {
    hide WellFormed, IsProper, OnlyChaptersChange, IsAllowed, After;
    if i == 0 {
      NoChange(w, run.visible, First(run).rows);
    } else {
      RunsKeepProper(w, setting, run, i - 1);
      assert IsStepOf(w, setting, run, i - 1);
      StepKeepsProper(w, run.visible, setting, run.states[i - 1], run.actions[i - 1]);
      ChangesCompose(w, run.visible, run.visible, First(run).rows, run.states[i - 1].rows, run.states[i].rows);
    }
  }

  /** As long as no pass loses anything, every stale chapter awaits its recomputation. */
  lemma {:induction false} RunsKeepCovered(w: World, setting: Setting, run: Run, i: nat)
    requires WellFormed(w) && IsRun(w, setting, run) && IsProper(w, First(run)) && i < |run.states|
    requires Covered(w, First(run).rows, First(run).marks) && forall j :: 0 <= j < i ==> !LosesAt(w, run, j)
    ensures Covered(w, run.states[i].rows, run.states[i].marks)
  {
    hide WellFormed, IsProper, Covered, IsAllowed, After, NothingIsLost, OnlyChaptersChange;
    if i > 0 {
      RunsKeepCovered(w, setting, run, i - 1);
      RunsKeepProper(w, setting, run, i - 1);
      assert IsStepOf(w, setting, run, i - 1) && !LosesAt(w, run, i - 1);
      StepKeepsCovered(w, run.visible, setting, run.states[i - 1], run.actions[i - 1]);
    }
  }

  /** As long as no pass leaves anything out, every missing result has a child that will see to its creation. */
  lemma {:induction false} RunsKeepMissingAwaited(w: World, setting: Setting, run: Run, i: nat)
    requires WellFormed(w) && IsRun(w, setting, run) && IsProper(w, First(run)) && i < |run.states|
    requires MissingAwait(w, run.visible, First(run).rows, First(run).marks)
    requires forall j :: 0 <= j < i ==> !LeavesOutAt(w, run, j)
    ensures MissingAwait(w, run.visible, run.states[i].rows, run.states[i].marks)
  {
    hide WellFormed, IsProper, MissingAwait, IsAllowed, After, NothingIsLeftOut, OnlyChaptersChange;
    if i > 0 {
      RunsKeepMissingAwaited(w, setting, run, i - 1);
      RunsKeepProper(w, setting, run, i - 1);
      assert IsStepOf(w, setting, run, i - 1) && !LeavesOutAt(w, run, i - 1);
      StepKeepsMissingAwaited(w, run.visible, setting, run.states[i - 1], run.actions[i - 1]);
    }
  }

  lemma {:induction false} RunsStayWithin(w: World, setting: Setting, run: Run, keys: set<Key>, i: nat)
    requires WellFormed(w) && IsRun(w, setting, run) && IsProper(w, First(run)) && i < |run.states|
    requires IsClosed(w, keys) && First(run).marks.Keys <= keys
    ensures run.states[i].marks.Keys <= keys
    ensures First(run).rows.Keys <= keys ==> run.states[i].rows.Keys <= keys
  {
    hide WellFormed, IsProper, IsAllowed, After, IsClosed, OnlyChaptersChange;
    if i > 0 {
      RunsStayWithin(w, setting, run, keys, i - 1);
      RunsKeepProper(w, setting, run, i - 1);
      assert IsStepOf(w, setting, run, i - 1);
      StepStaysWithin(w, run.visible, setting, run.states[i - 1], run.actions[i - 1], keys);
    }
  }

  /** What the passes up to the `i`-th state have unlocked */
  function UnlockedUpTo(w: World, setting: Setting, run: Run, i: nat): set<(Id, Id)> {
    if i == 0 || i > |run.states| || i > |run.actions| then {} else
      UnlockedUpTo(w, setting, run, i - 1) + UnlockedBy(w, run.visible, setting, run.states[i - 1], run.actions[i - 1])
  }

  function UnlockedIn(w: World, setting: Setting, run: Run): set<(Id, Id)> {
    UnlockedUpTo(w, setting, run, |run.actions|)
  }

  lemma {:induction false} RunsUnlock(w: World, setting: Setting, run: Run, i: nat)
    requires WellFormed(w) && IsRun(w, setting, run) && IsProper(w, First(run)) && i < |run.states|
    ensures AreUnlocked(w, First(run).unlocks, run.states[i].unlocks, setting.now, UnlockedUpTo(w, setting, run, i))
  {
    hide WellFormed, IsProper, IsAllowed, After, UnlockedBy, AreUnlocked, OnlyChaptersChange;
    if i == 0 {
      NothingUnlocked(w, First(run).unlocks, setting.now);
    } else {
      RunsUnlock(w, setting, run, i - 1);
      RunsKeepProper(w, setting, run, i - 1);
      assert IsStepOf(w, setting, run, i - 1);
      var s, action := run.states[i - 1], run.actions[i - 1];
      StepUnlocks(w, run.visible, setting, s, action);
      UnlockedCompose(w, First(run).unlocks, s.unlocks, run.states[i].unlocks, setting.now,
                      UnlockedUpTo(w, setting, run, i - 1), UnlockedBy(w, run.visible, setting, s, action));
    }
  }

  /** No pair is unlocked by two passes of a run. */
  lemma NoPairIsUnlockedTwice(w: World, setting: Setting, run: Run, i: nat, j: nat)
    requires WellFormed(w) && IsRun(w, setting, run) && IsProper(w, First(run)) && i < j < |run.actions|
    ensures UnlockedBy(w, run.visible, setting, run.states[i], run.actions[i]) !!
            UnlockedBy(w, run.visible, setting, run.states[j], run.actions[j])
  {
    hide WellFormed, IsProper, IsAllowed, After, UnlockedBy, OnlyChaptersChange, Locked;
    RunsUnlock(w, setting, run, j);
    UnlockedGrow(w, setting, run, i + 1, j);
    RunsKeepProper(w, setting, run, j);
    assert IsStepOf(w, setting, run, j);
    StepUnlocks(w, run.visible, setting, run.states[j], run.actions[j]);
  }

  lemma {:induction false} UnlockedGrow(w: World, setting: Setting, run: Run, i: nat, j: nat)
    requires i <= j < |run.states| && j <= |run.actions|
    ensures UnlockedUpTo(w, setting, run, i) <= UnlockedUpTo(w, setting, run, j)
    decreases j
  {
    if i < j {
      UnlockedGrow(w, setting, run, i, j - 1);
    }
  }

  /** A complete run without a loss ends with every chapter equal to the aggregate of its children. */
  lemma RunsReachFixpoint(w: World, setting: Setting, run: Run)
    requires WellFormed(w) && IsComplete(w, setting, run) && IsProper(w, First(run))
    requires Covered(w, First(run).rows, First(run).marks) && forall j :: 0 <= j < |run.actions| ==> !LosesAt(w, run, j)
    ensures AllAgree(w, Last(run).rows)
  {
    hide WellFormed, Covered, NothingIsLost, OnlyChaptersChange, AllAgree, IsAllowed, After, Fits, OnlyChaptersMarked;
    hide KeysIn;
    RunsKeepProper(w, setting, run, |run.states| - 1);
    RunsKeepCovered(w, setting, run, |run.states| - 1);
    NothingAwaits(w, Last(run).rows);
  }

  /** A complete run that leaves nothing out ends with every parent result that should exist. */
  lemma RunsCreateMissing(w: World, setting: Setting, run: Run)
    requires WellFormed(w) && IsComplete(w, setting, run) && IsProper(w, First(run))
    requires MissingAwait(w, run.visible, First(run).rows, First(run).marks)
    requires forall j :: 0 <= j < |run.actions| ==> !LeavesOutAt(w, run, j)
    ensures NoneMissing(w, run.visible, Last(run).rows)
  {
    hide WellFormed, MissingAwait, NoneMissing, NothingIsLeftOut, OnlyChaptersChange, IsAllowed, After, Fits;
    hide OnlyChaptersMarked, KeysIn;
    RunsKeepProper(w, setting, run, |run.states| - 1);
    RunsKeepMissingAwaited(w, setting, run, |run.states| - 1);
    NothingIsMissing(w, run.visible, Last(run).rows);
  }

  /** When the marked results and those above them make no trap, no pass of any run loses anything. */
  lemma WithoutTrapsNoPassLoses(w: World, setting: Setting, run: Run, keys: set<Key>, i: nat)
    requires WellFormed(w) && IsRun(w, setting, run) && IsProper(w, First(run)) && i < |run.actions|
    requires IsClosed(w, keys) && First(run).marks.Keys <= keys && HasNoTrap(w, keys, setting.propagationChunk)
    ensures !LosesAt(w, run, i) && !LeavesOutAt(w, run, i)
  {
    hide WellFormed, OnlyChaptersChange, After, IsClosed, HasNoTrap, NothingIsLost, Fits, OnlyChaptersMarked, KeysIn;
    hide Eligible, IsChunk, NothingIsLeftOut;
    RunsKeepProper(w, setting, run, i);
    RunsStayWithin(w, setting, run, keys, i);
    assert IsStepOf(w, setting, run, i);
    if run.actions[i].Mark? {
      var s, chunk := run.states[i], run.actions[i].chunk;
      WithoutTrapsNothingIsLost(w, run.visible, s.rows, s.marks, chunk, StartPropagating(s.marks, chunk), keys,
                                setting.propagationChunk);
    }
  }

  /** Whatever the results are, wherever the marks start among `keys` and whichever chunks are taken, the run ends with
      every chapter equal to the aggregate of its children, and no parent result is missing that was awaited. */
  ghost predicate EveryRunReachesFixpoint(w: World, setting: Setting, keys: set<Key>) {
    forall run :: IsComplete(w, setting, run) && StartsWithin(w, run, keys) ==> EndsWell(w, run)
  }

  ghost predicate EndsWell(w: World, run: Run) {
    && AllAgree(w, Last(run).rows)
    && (MissingAwait(w, run.visible, First(run).rows, First(run).marks) ==> NoneMissing(w, run.visible, Last(run).rows))
  }

  ghost predicate StartsWithin(w: World, run: Run, keys: set<Key>) {
    && IsProper(w, First(run)) && First(run).marks.Keys <= keys
    && Covered(w, First(run).rows, First(run).marks)
  }

  lemma WithoutTrapsEveryRunReachesFixpoint(w: World, setting: Setting, keys: set<Key>)
    requires WellFormed(w) && IsClosed(w, keys) && HasNoTrap(w, keys, setting.propagationChunk)
    ensures EveryRunReachesFixpoint(w, setting, keys)
  {
    hide WellFormed, IsClosed, HasNoTrap, IsProper, Covered, AllAgree, LosesAt, LeavesOutAt, MissingAwait, NoneMissing;
    forall run | IsComplete(w, setting, run) && StartsWithin(w, run, keys)
      ensures EndsWell(w, run)
    {
      CompleteRunsAreRuns(w, setting, run);
      forall i | 0 <= i < |run.actions|
        ensures !LosesAt(w, run, i) && !LeavesOutAt(w, run, i)
      {
        WithoutTrapsNoPassLoses(w, setting, run, keys, i);
      }
      RunsReachFixpoint(w, setting, run);
      if MissingAwait(w, run.visible, First(run).rows, First(run).marks) {
        RunsCreateMissing(w, setting, run);
      }
    }
  }

  lemma CompleteRunsAreRuns(w: World, setting: Setting, run: Run)
    requires IsComplete(w, setting, run)
    ensures IsRun(w, setting, run) && |run.states| == |run.actions| + 1
  {
  }
}
