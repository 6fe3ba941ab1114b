/** Relations between groups: creating and deleting them, deleting orphans, and carrying out membership transitions,
    all on top of the cached ancestors. */
module GroupRelations {
  import opened Collections
  import opened Graph
  import opened Ancestors
  import opened Transitions
  import opened TransitionEffects

  datatype GroupType = Base | User | Team | Other

  datatype GroupInfo = GroupInfo(kind: GroupType, required: Approvals, enforceMaxParticipants: bool,
                                 maxParticipants: int)

  /** A row of group_pending_requests */
  datatype Pending = Pending(kind: PendingKind, approvals: Approvals)

  type PendingRows = map<(Id, Id), Pending>

  // ---------- Reading the state of a pair ----------

  /** groups_groups_active */
  predicate IsMemberNow(relations: Relations, now: Time, parent: Id, child: Id) {
    (parent, child) in relations && now < relations[(parent, child)].expiresAt
  }

  function PendingKindOf(pending: PendingRows, parent: Id, child: Id): Option<PendingKind> {
    if (parent, child) in pending then Some(pending[(parent, child)].kind) else None
  }

  function StateOf(relations: Relations, now: Time, pending: PendingRows, parent: Id, child: Id): Action {
    StateName(IsMemberNow(relations, now, parent, child), PendingKindOf(pending, parent, child))
  }

  function StateInfoOf(relations: Relations, now: Time, pending: PendingRows, parent: Id, child: Id): StateInfo {
    StateInfo(StateOf(relations, now, pending, parent, child),
              if (parent, child) in pending then pending[(parent, child)].approvals else NO_APPROVALS)
  }

  /** oldActionsMap: the states of the listed children that have any row */
  function OldStates(relations: Relations, now: Time, pending: PendingRows, parent: Id,
                     children: seq<Id>): map<Id, StateInfo> {
    map id | id in children && StateOf(relations, now, pending, parent, id) != NoRelation
           :: StateInfoOf(relations, now, pending, parent, id)
  }

  /** Nobody is an active member with a pending invitation or join request. */
  ghost predicate NoConflict(relations: Relations, now: Time, pending: PendingRows) {
    forall p, c :: StateOf(relations, now, pending, p, c) !in {MemberWithInvitation, MemberWithJoinRequest}
  }

  // ---------- Cutting down the plan ----------

  /** performCyclesChecking: the checked ids that are cached as ancestors of the parent */
  function CycleIds(plan: Plan, ancestors: AncestorRows, parent: Id): set<Id> {
    set id | id in plan.checkCycle && (id, parent) in ancestors
  }

  /** The rows counted by enforceMaxSize besides the ids the plan changes */
  function OtherMembers(relations: Relations, now: Time, info: map<Id, GroupInfo>, parent: Id,
                        changed: set<Id>): set<Id> {
    set e | e in relations && e.0 == parent && now < relations[e].expiresAt && e.1 !in changed &&
            e.1 in info && info[e.1].kind in {User, Team} :: e.1
  }

  function OtherInvitations(pending: PendingRows, parent: Id, changed: set<Id>): set<Id> {
    set e | e in pending && e.0 == parent && pending[e].kind == Invitation && e.1 !in changed :: e.1
  }

  function NewPlaces(changed: map<Id, Action>): set<Id> {
    set id | id in changed && (IsActive(changed[id]) || changed[id] == InvitationCreated)
  }

  predicate IsFull(action: TransitionAction, limits: GroupInfo, membersCount: int) {
    membersCount > limits.maxParticipants ||
      (membersCount == limits.maxParticipants && action == UserCreatesJoinRequest)
  }

  /** enforceMaxSize */
  function FullIds(plan: Plan, action: TransitionAction, relations: Relations, now: Time, pending: PendingRows,
                   info: map<Id, GroupInfo>, parent: Id): set<Id>
    requires parent in info
  {
    var changed := plan.changed.Keys;
    var membersCount := |OtherMembers(relations, now, info, parent, changed)| +
      |OtherInvitations(pending, parent, changed)|
                        + |NewPlaces(plan.changed)|;
    if info[parent].enforceMaxParticipants && ChecksLimit(action) && IsFull(action, info[parent], membersCount)
      then changed else {}
  }

  // ---------- Carrying out the plan ----------

  function PairsOf(parent: Id, ids: set<Id>): set<(Id, Id)> {
    set id | id in ids :: (parent, id)
  }

  function NewMemberships(parent: Id, ids: set<Id>, isTeam: bool): Relations {
    map e | e in PairsOf(parent, ids) :: Relation(MAX_TIME, isTeam)
  }

  function NewPending(parent: Id, requests: map<Id, Action>, approvals: map<Id, Approvals>): PendingRows
    requires forall id :: id in requests ==> IsPending(requests[id]) && requests[id] != LeaveRequestExpired
  {
    map e | e in PairsOf(parent, requests.Keys) ::
      Pending(PendingType(requests[e.1]), Get(approvals, e.1, NO_APPROVALS))
  }

  function JournalRows(parent: Id, changed: map<Id, Action>): set<(Id, Id, Action)> {
    set id | id in changed :: (parent, id, JournalName(changed[id]))
  }

  /** Only rows of the plan's children change, and they change as the plan says. */
  lemma PlanChangesPairs(plan: Plan, parent: Id, isTeam: bool, approvals: map<Id, Approvals>, relations: Relations,
                         now: Time, pending: PendingRows, after: Relations, left: PendingRows, p: Id, c: Id)
    requires forall id :: id in plan.insertPending ==>
               IsPending(plan.insertPending[id]) && plan.insertPending[id] != LeaveRequestExpired
    requires after == (relations - PairsOf(parent, plan.deleteRelation)) +
             NewMemberships(parent, plan.insertRelation, isTeam)
    requires left == (pending - PairsOf(parent, plan.deletePending)) + NewPending(parent, plan.insertPending, approvals)
    requires now < MAX_TIME
    ensures p == parent ==>
              && (IsMemberNow(after, now, p, c) <==>
                  c in plan.insertRelation || (IsMemberNow(relations, now, p, c) && c !in plan.deleteRelation))
              && PendingKindOf(left, p, c) == (if c in plan.insertPending then Some(PendingType(plan.insertPending[c]))
                                              else if c in plan.deletePending then None
                                                else PendingKindOf(pending, p, c))
    ensures p != parent || Untouched(plan, c) ==> SamePair(relations, pending, after, left, p, c)
    ensures p == parent && c in plan.insertPending ==>
              (p, c) in left && left[(p, c)].approvals == Get(approvals, c, NO_APPROVALS)
  {
    assert (p, c) in PairsOf(parent, plan.deleteRelation) <==> p == parent && c in plan.deleteRelation;
    assert (p, c) in PairsOf(parent, plan.insertRelation) <==> p == parent && c in plan.insertRelation;
    assert (p, c) in PairsOf(parent, plan.deletePending) <==> p == parent && c in plan.deletePending;
    assert (p, c) in PairsOf(parent, plan.insertPending.Keys) <==> p == parent && c in plan.insertPending;
  }

  predicate SamePair(relations: Relations, pending: PendingRows, after: Relations, left: PendingRows, p: Id, c: Id) {
    && ((p, c) in after <==> (p, c) in relations)
    && ((p, c) in after ==> after[(p, c)] == relations[(p, c)])
    && ((p, c) in left <==> (p, c) in pending)
    && ((p, c) in left ==> left[(p, c)] == pending[(p, c)])
  }

  /** Everything one call works with: the tables before, the arguments, and the plan before and after it is cut down. */
  datatype Call = Call(action: TransitionAction, parent: Id, children: seq<Id>, approvals: map<Id, Approvals>,
                       relations: Relations, now: Time, pending: PendingRows, ancestors: AncestorRows,
                       info: map<Id, GroupInfo>)
  {
    function StateBefore(id: Id): StateInfo {
      StateInfoOf(relations, now, pending, parent, id)
    }

    function Decision(id: Id): Transitions.Decision
      requires parent in info
    {
      Decide(action, StateBefore(id), info[parent].required, Get(approvals, id, NO_APPROVALS))
    }

    /** Moving the child would make it a relative of the parent, which is a cached descendant of it. */
    predicate MakesCycle(id: Id)
      requires parent in info
    {
      var decision := Decision(id);
      && id != parent && decision.Move? && (id, parent) in ancestors
      && !IsActive(StateBefore(id).action) && (IsActive(decision.target) || IsPending(decision.target))
    }

    /** The result each listed child must get; `full` tells whether the limit refuses the whole batch. */
    function ExpectedResult(id: Id, full: bool): Result
      requires parent in info
    {
      if id == parent then Invalid else
        match Decision(id)
        case Refuse(result, _) => result
        case Keep => Unchanged
        case Move(_) => if MakesCycle(id) then Cycle else if full then Full else Success
    }

    predicate Succeeds(id: Id, full: bool)
      requires parent in info
    {
      id in children && ExpectedResult(id, full) == Success
    }
  }

  /** The plan built for the call */
  ghost predicate IsBuilt(call: Call, plan: Plan)
    requires call.parent in call.info
  {
    PlanIsRight(plan, call.parent, Listed(call.children),
                OldStates(call.relations, call.now, call.pending, call.parent, call.children),
                call.info[call.parent].required, call.approvals, call.action)
  }

  lemma BuiltEntry(call: Call, plan: Plan, id: Id)
    requires call.parent in call.info && IsBuilt(call, plan)
    ensures EntryIsRight(plan, call.parent, id, id in call.children,
                         if id in call.children then call.StateBefore(id) else StateInfo(NoRelation, NO_APPROVALS),
                         if id in call.children then call.Decision(id) else Refuse(Invalid, NO_APPROVALS))
    ensures id in call.children && call.Decision(id).Move? ==>
              MayBeTarget(call.action, call.StateBefore(id).action, call.Decision(id).target)
  {
    var states := OldStates(call.relations, call.now, call.pending, call.parent, call.children);
    var required := call.info[call.parent].required;
    assert EntryIsRight(plan, call.parent, id, id in Listed(call.children), StateFor(states, id),
                        DecisionFor(id, states, required, call.approvals, call.action));
    if id in call.children {
      assert StateFor(states, id) == call.StateBefore(id);
      MovesFollowTable(call.action, call.StateBefore(id), required, Get(call.approvals, id, NO_APPROVALS));
    }
  }

  // ---------- The effect of a call on the tables ----------

  /** A child that succeeds ends in the state its target stands for, every other pair keeps its rows. */
  ghost predicate IsCarriedOut(call: Call, full: bool, after: Relations, left: PendingRows)
    requires call.parent in call.info
  {
    && (forall id :: call.Succeeds(id, full) ==>
          StateOf(after, call.now, left, call.parent, id) == Settled(call.Decision(id).target))
    && (forall p, c :: p != call.parent || !call.Succeeds(c, full) ==>
        SamePair(call.relations, call.pending, after, left, p, c))
    && (forall id :: call.Succeeds(id, full) ==> HoldsGivenApprovals(call, id, left))
  }

  /** A pending request that the call creates holds the approvals given with the call. */
  ghost predicate HoldsGivenApprovals(call: Call, id: Id, left: PendingRows)
    requires call.parent in call.info
  {
    var decision := call.Decision(id);
    decision.Move? && IsPending(decision.target) ==>
      (call.parent, id) in left && left[(call.parent, id)].approvals == Get(call.approvals, id, NO_APPROVALS)
  }

  ghost predicate PlanFits(call: Call, full: bool, plan: Plan)
    requires call.parent in call.info
  {
    forall id :: ChildFits(call, full, plan, id)
  }

  /** The plan moves the child if it succeeds and leaves it alone otherwise. */
  ghost predicate ChildFits(call: Call, full: bool, plan: Plan, id: Id)
    requires call.parent in call.info
  {
    if call.Succeeds(id, full)
    then Moves(plan, id, call.StateBefore(id).action, call.Decision(id).target) &&
         MayBeTarget(call.action, call.StateBefore(id).action, call.Decision(id).target)
    else Untouched(plan, id)
  }

  /** The results and the approvals asked for are the expected ones. */
  ghost predicate AnswerFits(call: Call, full: bool, results: map<Id, Result>, approvalsToRequest: map<Id, Approvals>,
                             id: Id)
    requires call.parent in call.info
  {
    && (id in results <==> id in call.children)
    && (id in results ==> results[id] == call.ExpectedResult(id, full))
    && (id in approvalsToRequest <==> id in results && results[id] == ApprovalsMissing)
    && (id in approvalsToRequest ==> approvalsToRequest[id] == call.Decision(id).missing)
  }

  /** performCyclesChecking removes exactly the children whose move would make a cycle. */
  lemma AfterCycleCheck(call: Call, built: Plan, plan: Plan, id: Id)
    requires call.parent in call.info && IsBuilt(call, built)
    requires plan == DeleteIds(built, CycleIds(built, call.ancestors, call.parent), Cycle)
    ensures ChildFits(call, false, plan, id)
  {
    BuiltEntry(call, built, id);
  }

  lemma AnswerAfterCycleCheck(call: Call, built: Plan, plan: Plan, id: Id)
    requires call.parent in call.info && IsBuilt(call, built)
    requires plan == DeleteIds(built, CycleIds(built, call.ancestors, call.parent), Cycle)
    ensures AnswerFits(call, false, plan.results, plan.approvalsToRequest, id)
  {
    BuiltEntry(call, built, id);
    hide Transition, MayBeTarget;
  }

  /** enforceMaxSize refuses all the remaining moves or none. */
  lemma AfterSizeCheck(call: Call, built: Plan, checked: Plan, full: bool, plan: Plan, id: Id)
    requires call.parent in call.info
    requires ChildFits(call, false, checked, id)
    requires AnswerFits(call, false, checked.results, checked.approvalsToRequest, id)
    requires full ==> ChecksLimit(call.action)
    requires plan == DeleteIds(checked, if full then checked.changed.Keys else {}, Full)
    ensures ChildFits(call, full, plan, id) && AnswerFits(call, full, plan.results, plan.approvalsToRequest, id)
  {
    if call.Succeeds(id, false) && full {
      CheckedActionsCountPlaces(call.action, call.StateBefore(id).action, call.Decision(id).target);
    } else {
      assert id !in checked.changed || !full;
    }
  }

  lemma AllFitAfterCycleCheck(call: Call, built: Plan, checked: Plan)
    requires call.parent in call.info && IsBuilt(call, built)
    requires checked == DeleteIds(built, CycleIds(built, call.ancestors, call.parent), Cycle)
    ensures PlanFits(call, false, checked)
  {
    forall id
      ensures ChildFits(call, false, checked, id)
    {
      AfterCycleCheck(call, built, checked, id);
    }
  }

  lemma PlansFit(call: Call, built: Plan, checked: Plan, full: bool, plan: Plan)
    requires call.parent in call.info && IsBuilt(call, built)
    requires checked == DeleteIds(built, CycleIds(built, call.ancestors, call.parent), Cycle)
    requires full ==> ChecksLimit(call.action)
    requires plan == DeleteIds(checked, if full then checked.changed.Keys else {}, Full)
    ensures PlanFits(call, false, checked) && PlanFits(call, full, plan)
    ensures forall id :: AnswerFits(call, full, plan.results, plan.approvalsToRequest, id)
  {
    forall id
      ensures ChildFits(call, false, checked, id)
      ensures ChildFits(call, full, plan, id) && AnswerFits(call, full, plan.results, plan.approvalsToRequest, id)
    {
      AfterCycleCheck(call, built, checked, id);
      AnswerAfterCycleCheck(call, built, checked, id);
      AfterSizeCheck(call, built, checked, full, plan, id);
    }
  }

  /** One journal row for each changed child with a non-empty target */
  ghost function ExpectedJournal(call: Call, full: bool): set<(Id, Id, Action)>
    requires call.parent in call.info
  {
    set id | id in call.children && call.Succeeds(id, full) && call.Decision(id).target != NoRelation ::
      (call.parent, id, JournalName(call.Decision(id).target))
  }

  lemma JournalFits(call: Call, full: bool, plan: Plan)
    requires call.parent in call.info && PlanFits(call, full, plan)
    ensures JournalRows(call.parent, plan.changed) == ExpectedJournal(call, full)
  {
    forall row
      ensures row in JournalRows(call.parent, plan.changed) <==> row in ExpectedJournal(call, full)
    {
      assert ChildFits(call, full, plan, row.1);
    }
  }

  lemma PendingTypesExist(call: Call, full: bool, plan: Plan)
    requires call.parent in call.info && PlanFits(call, full, plan)
    ensures forall id :: id in plan.insertPending ==>
              IsPending(plan.insertPending[id]) && plan.insertPending[id] != LeaveRequestExpired &&
              ((call.parent, id) in call.pending ==> id in plan.deletePending)
  {
    forall id | id in plan.insertPending
      ensures IsPending(plan.insertPending[id]) && plan.insertPending[id] != LeaveRequestExpired
      ensures (call.parent, id) in call.pending ==> id in plan.deletePending
    {
      assert ChildFits(call, full, plan, id);
      MoveSettles(call.action, IsMemberNow(call.relations, call.now, call.parent, id),
                  PendingKindOf(call.pending, call.parent, id), call.Decision(id).target, plan, id);
    }
  }

  lemma CarryingOutThePlan(call: Call, full: bool, plan: Plan, isTeam: bool, after: Relations, left: PendingRows)
    requires call.parent in call.info && PlanFits(call, full, plan) && call.now < MAX_TIME
    requires forall id :: id in plan.insertPending ==>
               IsPending(plan.insertPending[id]) && plan.insertPending[id] != LeaveRequestExpired
    requires after == (call.relations - PairsOf(call.parent, plan.deleteRelation)) +
             NewMemberships(call.parent, plan.insertRelation, isTeam)
    requires left == (call.pending - PairsOf(call.parent, plan.deletePending)) +
             NewPending(call.parent, plan.insertPending, call.approvals)
    ensures IsCarriedOut(call, full, after, left)
  {
    hide PairsOf, NewMemberships, NewPending, Transition;
    forall id | call.Succeeds(id, full)
      ensures StateOf(after, call.now, left, call.parent, id) == Settled(call.Decision(id).target)
    {
      assert ChildFits(call, full, plan, id);
      PlanChangesPairs(plan, call.parent, isTeam, call.approvals, call.relations, call.now, call.pending, after, left,
                       call.parent, id);
      MoveSettles(call.action, IsMemberNow(call.relations, call.now, call.parent, id),
                  PendingKindOf(call.pending, call.parent, id), call.Decision(id).target, plan, id);
    }
    forall id | call.Succeeds(id, full)
      ensures HoldsGivenApprovals(call, id, left)
    {
      assert ChildFits(call, full, plan, id);
      PlanChangesPairs(plan, call.parent, isTeam, call.approvals, call.relations, call.now, call.pending, after, left,
                       call.parent, id);
    }
    forall p, c | p != call.parent || !call.Succeeds(c, full)
      ensures SamePair(call.relations, call.pending, after, left, p, c)
    {
      assert ChildFits(call, full, plan, c);
      PlanChangesPairs(plan, call.parent, isTeam, call.approvals, call.relations, call.now, call.pending, after, left,
                       p, c);
    }
  }

  lemma CarriedOutKeepsNoConflict(call: Call, full: bool, after: Relations, left: PendingRows)
    requires call.parent in call.info && IsCarriedOut(call, full, after, left)
    requires NoConflict(call.relations, call.now, call.pending)
    ensures NoConflict(after, call.now, left)
  {
    forall p, c
      ensures StateOf(after, call.now, left, p, c) !in {MemberWithInvitation, MemberWithJoinRequest}
    {
      assert StateOf(call.relations, call.now, call.pending, p, c) !in {MemberWithInvitation, MemberWithJoinRequest};
      if p != call.parent || !call.Succeeds(c, full) {
        assert SamePair(call.relations, call.pending, after, left, p, c);
      }
    }
  }

  // ---------- What the call means for each child ----------

  /** The approvals given with the call for the child */
  function GivenFor(call: Call, id: Id): Approvals {
    Get(call.approvals, id, NO_APPROVALS)
  }

  /** What the tables say about the child: its state, and the approvals of its pending request if there is one */
  function FoundFor(call: Call, id: Id): StateInfo {
    var pair := (call.parent, id);
    if pair in call.pending
    then StateInfo(StateName(IsMemberNow(call.relations, call.now, call.parent, id), Some(call.pending[pair].kind)),
                   call.pending[pair].approvals)
    else StateInfo(if IsMemberNow(call.relations, call.now, call.parent, id) then IsMember else NoRelation,
                   NO_APPROVALS)
  }

  lemma FoundBefore(call: Call, id: Id)
    ensures FoundFor(call, id) == call.StateBefore(id)
  {
  }

  predicate IsApprovedFor(call: Call, id: Id)
    requires call.parent in call.info
  {
    IsApproved(FoundFor(call, id), call.info[call.parent].required, GivenFor(call, id))
  }

  /** The state that the action is meant to bring the child to */
  function MeantFor(call: Call, id: Id): Action
    requires call.parent in call.info
  {
    Outcome(call.action, FoundFor(call, id).action, IsApprovedFor(call, id))
  }

  /** The child gets the answer that the action, its state and the approvals call for, and ends in the state that the
      action is meant to bring it to, or stays as it is. A child that is a cached ancestor of the parent must not come
      in. */
  ghost predicate IsAnswered(call: Call, full: bool, results: map<Id, Result>, approvalsToRequest: map<Id, Approvals>,
                             after: Relations, left: PendingRows, id: Id)
    requires call.parent in call.info
  {
    var state, required, given := FoundFor(call, id), call.info[call.parent].required, GivenFor(call, id);
    && id in results
    && (if id == call.parent || !MayStart(call.action, state.action) then results[id] == Invalid
        else if LacksApprovals(call.action, state, required, given) then
          && results[id] == ApprovalsMissing
          && id in approvalsToRequest && AreMissing(approvalsToRequest[id], state, required, given)
        else if MeantFor(call, id) == state.action then results[id] == Unchanged
        else if (id, call.parent) in call.ancestors && IsOutside(state.action) && MeantFor(call, id) != NoRelation
          then results[id] == Cycle
        else results[id] == if full then Full else Success)
    && (results[id] == Success ==>
          && StateOf(after, call.now, left, call.parent, id) == MeantFor(call, id)
          && (MeantFor(call, id) in {InvitationCreated, JoinRequestCreated, LeaveRequestCreated} ==>
                (call.parent, id) in left && left[(call.parent, id)].approvals == given))
    && (results[id] != Success ==> SamePair(call.relations, call.pending, after, left, call.parent, id))
  }

  /** The entries of the journal for the children that succeed */
  function RecordedRows(call: Call, results: map<Id, Result>): set<(Id, Id, Action)>
    requires call.parent in call.info
  {
    set id | id in results && results[id] == Success && EntryFor(call, id).Some? ::
      (call.parent, id, EntryFor(call, id).value)
  }

  function EntryFor(call: Call, id: Id): Option<Action>
    requires call.parent in call.info
  {
    Recorded(call.action, FoundFor(call, id).action, IsApprovedFor(call, id))
  }

  ghost predicate EntryIsExpected(call: Call, full: bool, results: map<Id, Result>, id: Id)
    requires call.parent in call.info
  {
    && (id in results && results[id] == Success <==> call.Succeeds(id, full))
    && (call.Succeeds(id, full) ==>
          EntryFor(call, id) == if call.Decision(id).target == NoRelation then None
                                else Some(JournalName(call.Decision(id).target)))
  }

  /** The expected answers and tables are what the action is meant to do. */
  lemma AnswersAreMeant(call: Call, full: bool, results: map<Id, Result>, approvalsToRequest: map<Id, Approvals>,
                        after: Relations, left: PendingRows, id: Id)
    requires call.parent in call.info && AnswerFits(call, full, results, approvalsToRequest, id)
    requires IsCarriedOut(call, full, after, left) && id in call.children
    ensures IsAnswered(call, full, results, approvalsToRequest, after, left, id)
    ensures EntryIsExpected(call, full, results, id)
  {
    hide Transition, Decide, MayStart, Outcome, Recorded, IsApproved, AreMissing, NeedsApprovals, StateOf, SamePair;
    hide JournalName, IsMissing;
    var state := call.StateBefore(id);
    FoundBefore(call, id);
    TableIsMeant(call.action, state, call.info[call.parent].required, GivenFor(call, id));
    if call.Decision(id).Move? {
      MovesFollowTable(call.action, state, call.info[call.parent].required, GivenFor(call, id));
      ComingIn(call.action, state.action, call.Decision(id).target);
      assert id != call.parent ==> MeantFor(call, id) == Settled(call.Decision(id).target);
      assert call.Succeeds(id, full) ==> HoldsGivenApprovals(call, id, left);
    }
  }

  lemma AnsweredAreListed(call: Call, full: bool, results: map<Id, Result>, approvalsToRequest: map<Id, Approvals>)
    requires call.parent in call.info
    requires forall id :: AnswerFits(call, full, results, approvalsToRequest, id)
    ensures results.Keys == set id | id in call.children
  {
    forall id
      ensures id in results <==> id in call.children
    {
      assert AnswerFits(call, full, results, approvalsToRequest, id);
    }
  }

  lemma ComingIn(action: TransitionAction, from: Action, to: Action)
    requires MayBeTarget(action, from, to)
    ensures !IsActive(from) <==> IsOutside(from)
    ensures IsActive(to) || IsPending(to) <==> Settled(to) != NoRelation
    ensures Settled(to) in {InvitationCreated, JoinRequestCreated, LeaveRequestCreated} ==> IsPending(to)
  {
    TableTargets(action, from, to);
    TableStates(action, from);
    hide Transition, DowngradeTo, MayBeTarget;
  }

  lemma TableStates(action: TransitionAction, from: Action)
    requires from in Transition(action)
    ensures IsOutside(from) || from in {IsMember, LeaveRequestCreated}
  {
  }

  lemma JournalIsMeant(call: Call, full: bool, results: map<Id, Result>, approvalsToRequest: map<Id, Approvals>,
                       after: Relations, left: PendingRows)
    requires call.parent in call.info && IsCarriedOut(call, full, after, left)
    requires forall id :: AnswerFits(call, full, results, approvalsToRequest, id)
    ensures forall id :: id in call.children ==> IsAnswered(call, full, results, approvalsToRequest, after, left, id)
    ensures ExpectedJournal(call, full) == RecordedRows(call, results)
  {
    hide IsCarriedOut, IsAnswered, Recorded, IsApproved, JournalName, Decide, IsApprovedFor;
    forall id | id in call.children
      ensures IsAnswered(call, full, results, approvalsToRequest, after, left, id)
      ensures EntryIsExpected(call, full, results, id)
    {
      assert AnswerFits(call, full, results, approvalsToRequest, id);
      AnswersAreMeant(call, full, results, approvalsToRequest, after, left, id);
    }
    forall row
      ensures row in ExpectedJournal(call, full) <==> row in RecordedRows(call, results)
    {
      assert AnswerFits(call, full, results, approvalsToRequest, row.1);
      assert row.1 in call.children ==> EntryIsExpected(call, full, results, row.1);
    }
  }

  // ---------- Capacity ----------

  /** The members of the group together with those invited to it */
  function PlacesTaken(relations: Relations, now: Time, pending: PendingRows, parent: Id): set<Id> {
    set e | e in relations.Keys + pending.Keys && e.0 == parent &&
      TakesPlace(StateOf(relations, now, pending, parent, e.1)) :: e.1
  }

  lemma PlaceMeaning(relations: Relations, now: Time, pending: PendingRows, parent: Id, c: Id)
    ensures c in PlacesTaken(relations, now, pending, parent) <==>
            TakesPlace(StateOf(relations, now, pending, parent, c))
    ensures TakesPlace(StateOf(relations, now, pending, parent, c)) <==>
            IsMemberNow(relations, now, parent, c) || PendingKindOf(pending, parent, c) == Some(Invitation)
  {
    if TakesPlace(StateOf(relations, now, pending, parent, c)) {
      assert (parent, c) in relations.Keys + pending.Keys;
      assert (parent, c).1 == c;
    }
  }

  /** All children of the group are users or teams. */
  ghost predicate HasOnlyParticipants(relations: Relations, info: map<Id, GroupInfo>, parent: Id) {
    forall e :: e in relations && e.0 == parent ==> e.1 in info && info[e.1].kind in {User, Team}
  }

  /** The children that the batch would move if there were no limit */
  function Moving(call: Call): set<Id>
    requires call.parent in call.info
  {
    set id | id in call.children && call.Succeeds(id, false)
  }

  /** Those of them that would take a place */
  function MovingIn(call: Call): set<Id>
    requires call.parent in call.info
  {
    set id | id in Moving(call) && call.Decision(id).Move? && TakesPlace(Settled(call.Decision(id).target))
  }

  /** What enforceMaxSize counts: the children that would move in, the other members of types 'User' and 'Team', and the
      other children with invitations */
  function CountedPlaces(call: Call): nat
    requires call.parent in call.info
  {
    |OtherMembers(call.relations, call.now, call.info, call.parent, Moving(call))|
    + |OtherInvitations(call.pending, call.parent, Moving(call))| + |MovingIn(call)|
  }

  /** The group has a limit, the action is checked against it, some child would move, and there is no room for that. */
  predicate IsRefused(call: Call)
    requires call.parent in call.info
  {
    && call.info[call.parent].enforceMaxParticipants && ChecksLimit(call.action) && Moving(call) != {}
    && IsFull(call.action, call.info[call.parent], CountedPlaces(call))
  }

  /** enforceMaxSize counts on the plan what the rules say about the children. */
  lemma PlanCounts(call: Call, plan: Plan)
    requires call.parent in call.info && PlanFits(call, false, plan) && ChecksLimit(call.action)
    ensures plan.changed.Keys == Moving(call) && NewPlaces(plan.changed) == MovingIn(call)
  {
    forall id
      ensures id in plan.changed <==> id in Moving(call)
      ensures id in NewPlaces(plan.changed) <==> id in MovingIn(call)
    {
      assert ChildFits(call, false, plan, id);
      if call.Succeeds(id, false) {
        CheckedActionsCountPlaces(call.action, call.StateBefore(id).action, call.Decision(id).target);
      }
    }
  }

  lemma FullMeansRefused(call: Call, plan: Plan)
    requires call.parent in call.info && PlanFits(call, false, plan)
    ensures FullIds(plan, call.action, call.relations, call.now, call.pending, call.info, call.parent) ==
            if IsRefused(call) then plan.changed.Keys else {}
    ensures IsRefused(call) ==> plan.changed.Keys != {} && ChecksLimit(call.action)
  {
    hide PlanFits, OtherMembers, OtherInvitations, NewPlaces, Moving, MovingIn, IsFull;
    if ChecksLimit(call.action) {
      PlanCounts(call, plan);
    }
  }

  /** What enforceMaxSize counts is the number of places taken if the batch is carried out. */
  lemma CountIsExact(call: Call, after: Relations, left: PendingRows)
    requires call.parent in call.info && IsCarriedOut(call, false, after, left)
    requires NoConflict(call.relations, call.now, call.pending)
    requires HasOnlyParticipants(call.relations, call.info, call.parent)
    ensures CountedPlaces(call) == |PlacesTaken(after, call.now, left, call.parent)|
  {
    hide IsCarriedOut, NoConflict, HasOnlyParticipants, PlacesTaken, IsMemberNow, PendingKindOf, Moving, MovingIn;
    hide OtherMembers, OtherInvitations;
    var p := call.parent;
    var members := OtherMembers(call.relations, call.now, call.info, p, Moving(call));
    var invitations := OtherInvitations(call.pending, p, Moving(call));
    var places := MovingIn(call);
    forall c
      ensures c in PlacesTaken(after, call.now, left, p) <==> c in members || c in invitations || c in places
      ensures c !in members || c !in invitations
      ensures c in members || c in invitations ==> c !in places
    {
      PlaceAfter(call, after, left, c);
      MemberOrInvited(call, Moving(call), c);
    }
    assert PlacesTaken(after, call.now, left, p) == members + invitations + places;
    assert members !! invitations && (members + invitations) !! places;
  }

  /** A batch is refused as full exactly when the group would have too many members and invitations after it. */
  lemma RefusalMeaning(call: Call, after: Relations, left: PendingRows)
    requires call.parent in call.info && IsCarriedOut(call, false, after, left)
    requires NoConflict(call.relations, call.now, call.pending)
    requires HasOnlyParticipants(call.relations, call.info, call.parent)
    ensures IsRefused(call) <==>
              && call.info[call.parent].enforceMaxParticipants && ChecksLimit(call.action)
              && (exists id :: call.Succeeds(id, false))
              && var taken := |PlacesTaken(after, call.now, left, call.parent)|;
                 || taken > call.info[call.parent].maxParticipants
                 || (taken == call.info[call.parent].maxParticipants && call.action == UserCreatesJoinRequest)
  {
    hide IsCarriedOut, NoConflict, HasOnlyParticipants, PlacesTaken, CountedPlaces;
    CountIsExact(call, after, left);
    SomeMove(call);
  }

  lemma SomeMove(call: Call)
    requires call.parent in call.info
    ensures Moving(call) != {} <==> exists id :: call.Succeeds(id, false)
  {
    if id :| call.Succeeds(id, false) {
      assert id in Moving(call);
    } else {
      assert Moving(call) == {};
    }
  }

  lemma PlaceAfter(call: Call, after: Relations, left: PendingRows, c: Id)
    requires call.parent in call.info && IsCarriedOut(call, false, after, left)
    ensures c in PlacesTaken(after, call.now, left, call.parent) <==>
            if c in Moving(call) then c in MovingIn(call)
            else IsMemberNow(call.relations, call.now, call.parent, c)
                 || PendingKindOf(call.pending, call.parent, c) == Some(Invitation)
    ensures c in MovingIn(call) ==> c in Moving(call)
  {
    PlaceMeaning(after, call.now, left, call.parent, c);
    if !call.Succeeds(c, false) {
      assert SamePair(call.relations, call.pending, after, left, call.parent, c);
    }
  }

  lemma MemberOrInvited(call: Call, changed: set<Id>, c: Id)
    requires NoConflict(call.relations, call.now, call.pending)
    requires HasOnlyParticipants(call.relations, call.info, call.parent)
    ensures c in OtherMembers(call.relations, call.now, call.info, call.parent, changed) <==>
            c !in changed && IsMemberNow(call.relations, call.now, call.parent, c)
    ensures c in OtherInvitations(call.pending, call.parent, changed) <==>
            c !in changed && PendingKindOf(call.pending, call.parent, c) == Some(Invitation)
    ensures !(IsMemberNow(call.relations, call.now, call.parent, c)
              && PendingKindOf(call.pending, call.parent, c) == Some(Invitation))
  {
    assert StateOf(call.relations, call.now, call.pending, call.parent, c) !in
           {MemberWithInvitation, MemberWithJoinRequest};
    assert (call.parent, c).1 == c;
  }

  /** The targets of the moves are those of the rules table. */
  ghost predicate HasTableMoves(call: Call)
    requires call.parent in call.info
  {
    forall id :: call.Succeeds(id, false) ==>
      MayBeTarget(call.action, call.StateBefore(id).action, call.Decision(id).target)
  }

  lemma FittingPlansHaveTableMoves(call: Call, plan: Plan)
    requires call.parent in call.info && PlanFits(call, false, plan)
    ensures HasTableMoves(call)
  {
    forall id | call.Succeeds(id, false)
      ensures MayBeTarget(call.action, call.StateBefore(id).action, call.Decision(id).target)
    {
      assert ChildFits(call, false, plan, id);
    }
  }

  /** A carried out call never takes a group beyond its limit, not even by the actions that are not checked. */
  lemma CapacityIsKept(call: Call, full: bool, after: Relations, left: PendingRows)
    requires call.parent in call.info && HasTableMoves(call)
    requires IsCarriedOut(call, full, after, left) && (full <==> IsRefused(call))
    requires NoConflict(call.relations, call.now, call.pending)
    requires HasOnlyParticipants(call.relations, call.info, call.parent)
    requires call.info[call.parent].enforceMaxParticipants
    ensures var taken := |PlacesTaken(after, call.now, left, call.parent)|;
            || taken <= call.info[call.parent].maxParticipants
            || taken <= |PlacesTaken(call.relations, call.now, call.pending, call.parent)|
  {
    hide IsCarriedOut, HasTableMoves, NoConflict, HasOnlyParticipants, PlacesTaken, CountedPlaces, Moving;
    var p := call.parent;
    if !full && ChecksLimit(call.action) && Moving(call) != {} {
      CountIsExact(call, after, left);
    } else {
      forall c | c in PlacesTaken(after, call.now, left, p)
        ensures c in PlacesTaken(call.relations, call.now, call.pending, p)
      {
        PlaceMeaning(after, call.now, left, p, c);
        PlaceMeaning(call.relations, call.now, call.pending, p, c);
        NoPlaceIsTaken(call, full, after, left, c);
      }
      SubsetNotLarger(PlacesTaken(after, call.now, left, p), PlacesTaken(call.relations, call.now, call.pending, p));
    }
  }

  lemma NoPlaceIsTaken(call: Call, full: bool, after: Relations, left: PendingRows, c: Id)
    requires call.parent in call.info && HasTableMoves(call) && IsCarriedOut(call, full, after, left)
    requires full || !ChecksLimit(call.action) || Moving(call) == {}
    requires full ==> ChecksLimit(call.action)
    requires TakesPlace(StateOf(after, call.now, left, call.parent, c))
    ensures TakesPlace(StateOf(call.relations, call.now, call.pending, call.parent, c))
  {
    if call.Succeeds(c, full) {
      assert call.Succeeds(c, false) && c in Moving(call);
      UncheckedActionsTakeNoPlace(call.action, call.StateBefore(c).action, call.Decision(c).target);
    } else {
      assert SamePair(call.relations, call.pending, after, left, call.parent, c);
    }
  }

  // ---------- Acyclicity ----------

  /** The children that the call makes members */
  function Joining(call: Call, full: bool): set<Id>
    requires call.parent in call.info
  {
    set id | id in call.children && call.Succeeds(id, full) &&
             IsActive(call.Decision(id).target) && !IsActive(call.StateBefore(id).action)
  }

  /** One of them reaches the parent, possibly through expired relations, which the cache no longer shows. */
  ghost predicate ClosesCycle(call: Call, full: bool)
    requires call.parent in call.info
  {
    exists id :: id in Joining(call, full) && Reaches(Links(call.relations), id, call.parent)
  }

  lemma InsertedAreJoining(call: Call, full: bool, plan: Plan)
    requires call.parent in call.info && PlanFits(call, full, plan)
    ensures plan.insertRelation == Joining(call, full) && call.parent !in plan.insertRelation
  {
    forall id
      ensures id in plan.insertRelation <==> id in Joining(call, full)
    {
      assert ChildFits(call, full, plan, id);
    }
  }

  /** However many children a call adds to the parent, its rows make a cycle exactly when one of the children alone
      would. */
  lemma NewMembershipsMakeNoCycle(call: Call, full: bool, plan: Plan, isTeam: bool, after: Relations)
    requires call.parent in call.info && PlanFits(call, full, plan) && Acyclic(Links(call.relations))
    requires after == (call.relations - PairsOf(call.parent, plan.deleteRelation)) +
             NewMemberships(call.parent, plan.insertRelation, isTeam)
    ensures Acyclic(Links(after)) <==> isTeam || !ClosesCycle(call, full)
  {
    hide PlanFits, Reaches, Joining;
    InsertedAreJoining(call, full, plan);
    var before := Links(call.relations);
    if isTeam {
      StarKeepsAcyclic(before, call.parent, {}, Links(after));
    } else if id :| id in Joining(call, full) && Reaches(before, id, call.parent) {
      ReachesWithoutLeaving(before, Links(after), id, call.parent);
      assert (call.parent, id) in PairsOf(call.parent, plan.insertRelation);
      EdgeReaches(Links(after), call.parent, id);
      ReachesTransitive(Links(after), call.parent, id, call.parent);
    } else {
      StarKeepsAcyclic(before, call.parent, plan.insertRelation, Links(after));
    }
  }

  /** The cycle check lets no child in that reaches the parent through active relations. */
  lemma JoiningDoNotReach(call: Call, full: bool, groups: set<Id>)
    requires call.parent in call.info && call.parent in groups
    requires WellFormed(groups, call.relations, call.ancestors)
    requires Exact(call.ancestors, call.relations, call.now, call.parent)
    ensures forall id :: id in Joining(call, full) ==>
              !Reaches(LinksAfter(call.relations, call.now), id, call.parent)
    ensures NoneExpired(call.relations, call.now) ==> !ClosesCycle(call, full)
  {
    hide Reaches, Exact, WellFormed, NoneExpired;
    forall id | id in Joining(call, full)
      ensures !Reaches(LinksAfter(call.relations, call.now), id, call.parent)
      ensures NoneExpired(call.relations, call.now) ==> !Reaches(Links(call.relations), id, call.parent)
    {
      NotCachedNotReached(groups, call.relations, call.ancestors, call.now, id, call.parent);
    }
  }

  // ---------- Orphans ----------

  /** Active descendants of the group, except for those of types 'Base' and 'User' */
  function CandidatesForDeletion(ancestors: AncestorRows, now: Time, info: map<Id, GroupInfo>, group: Id): set<Id> {
    set k | k in ancestors && k.0 == group && k.1 != group && now < ancestors[k] && k.1 in info &&
      info[k.1].kind !in {Base, User} :: k.1
  }

  /** The candidates all whose active ancestors are candidates too */
  function OrphanIds(ancestors: AncestorRows, now: Time, candidates: set<Id>): set<Id> {
    set x | x in candidates &&
            !exists k :: k in ancestors && k.1 == x && k.0 != x && now < ancestors[k] && k.0 !in candidates
  }

  predicate Touches(e: (Id, Id), ids: set<Id>) {
    e.0 in ids || e.1 in ids
  }

  function RelationsOf(relations: Relations, ids: set<Id>): set<(Id, Id)> {
    set e | e in relations && Touches(e, ids)
  }

  /** All parents of members are members. */
  ghost predicate ClosedUnderParents(edges: Edges, members: set<Id>) {
    forall p, x :: x in members && (p, x) in edges ==> p in members
  }

  /** A group is an orphan when it is a candidate and all its parents are orphans: the largest such set. */
  ghost predicate IsOrphanSet(edges: Edges, candidates: set<Id>, orphans: set<Id>) {
    && orphans <= candidates
    && ClosedUnderParents(edges, orphans)
    && forall s: set<Id> :: s <= candidates && ClosedUnderParents(edges, s) ==> s <= orphans
  }

  lemma ClosedContainsAncestors(edges: Edges, members: set<Id>, path: seq<Id>)
    requires ClosedUnderParents(edges, members) && IsPath(edges, path) && path[|path| - 1] in members
    ensures path[0] in members
    decreases |path|
  {
    var n := |path|;
    var p, x := path[n - 2], path[n - 1];
    assert (p, x) in edges by {
      assert (path[n - 2], path[n - 2 + 1]) in edges;
    }
    if n > 2 {
      ClosedContainsAncestors(edges, members, path[..n - 1]);
    }
  }

  /** The test on cached ancestors finds exactly the orphans; every candidate that is spared keeps an active
      parent that is spared. Expired relations do not matter. */
  lemma OrphanTestIsExact(relations: Relations, ancestors: AncestorRows, now: Time, candidates: set<Id>)
    requires forall x :: Exact(ancestors, relations, now, x)
    ensures IsOrphanSet(LinksAfter(relations, now), candidates, OrphanIds(ancestors, now, candidates))
    ensures forall x :: x in candidates - OrphanIds(ancestors, now, candidates) ==>
              exists p :: (p, x) in LinksAfter(relations, now) && p !in OrphanIds(ancestors, now, candidates)
  {
    var edges, orphans := LinksAfter(relations, now), OrphanIds(ancestors, now, candidates);
    forall x
      ensures x in orphans <==> x in candidates && forall a :: Reaches(edges, a, x) ==> a in candidates
    {
      OrphanMeansNoOutsideAncestor(relations, ancestors, now, candidates, x);
    }
    forall p, x | x in orphans && (p, x) in edges
      ensures p in orphans
    {
      EdgeReaches(edges, p, x);
      forall a | Reaches(edges, a, p)
        ensures a in candidates
      {
        ReachesTransitive(edges, a, p, x);
      }
    }
    forall s: set<Id>, x | s <= candidates && ClosedUnderParents(edges, s) && x in s
      ensures x in orphans
    {
      forall a | Reaches(edges, a, x)
        ensures a in candidates
      {
        var path :| Joins(edges, path, a, x);
        ClosedContainsAncestors(edges, s, path);
      }
    }
    forall x | x in candidates - orphans
      ensures exists p :: (p, x) in edges && p !in orphans
    {
      var a :| Reaches(edges, a, x) && a !in candidates;
      ReachesThroughParent(edges, a, x);
      var p :| (p, x) in edges && (a == p || Reaches(edges, a, p));
      assert p !in orphans;
    }
  }

  lemma OrphanMeansNoOutsideAncestor(relations: Relations, ancestors: AncestorRows, now: Time, candidates: set<Id>,
                                     x: Id)
    requires Exact(ancestors, relations, now, x)
    ensures x in OrphanIds(ancestors, now, candidates) <==>
            x in candidates && forall a :: Reaches(LinksAfter(relations, now), a, x) ==> a in candidates
  {
    assert ExactAt(ancestors, relations, now, x);
    if k :| k in ancestors && k.1 == x && k.0 != x && now < ancestors[k] && k.0 !in candidates {
      assert RowAfter(ancestors, k.0, x, now);
    }
    forall a | Reaches(LinksAfter(relations, now), a, x)
      ensures (a, x) in ancestors && (a, x).1 == x && a != x && now < ancestors[(a, x)]
    {
      assert RowAfter(ancestors, a, x, now);
    }
  }

  /** The groups below the group through active relations, except for those of types 'Base' and 'User' */
  ghost function ActiveDescendants(relations: Relations, now: Time, info: map<Id, GroupInfo>, group: Id): set<Id> {
    set x | x in info && info[x].kind !in {Base, User} && Reaches(LinksAfter(relations, now), group, x)
  }

  lemma CandidatesAreDescendants(relations: Relations, ancestors: AncestorRows, now: Time, info: map<Id, GroupInfo>,
                                 group: Id)
    requires (forall x :: Exact(ancestors, relations, now, x)) && Acyclic(Links(relations))
    ensures CandidatesForDeletion(ancestors, now, info, group) == ActiveDescendants(relations, now, info, group)
  {
    hide Acyclic, Reaches;
    forall x
      ensures x in CandidatesForDeletion(ancestors, now, info, group) <==>
              x in ActiveDescendants(relations, now, info, group)
    {
      assert Exact(ancestors, relations, now, x) && ExactAt(ancestors, relations, now, x);
      NoActiveCycle(relations, now, x);
      assert RowAfter(ancestors, group, x, now) ==> (group, x) in ancestors && (group, x).1 == x;
    }
  }

  lemma NoActiveCycle(relations: Relations, now: Time, x: Id)
    requires Acyclic(Links(relations))
    ensures !Reaches(LinksAfter(relations, now), x, x)
  {
    if Reaches(LinksAfter(relations, now), x, x) {
      ReachesMonotone(LinksAfter(relations, now), Links(relations), x, x);
    }
  }

  lemma FewerRelationsStaySound(relations: Relations, fewer: Relations, now: Time)
    requires forall e :: e in fewer ==> e in relations && fewer[e] == relations[e]
    ensures Acyclic(Links(relations)) ==> Acyclic(Links(fewer))
    ensures NoneExpired(relations, now) ==> NoneExpired(fewer, now)
  {
    assert Links(fewer) <= Links(relations);
    forall x
      ensures Reaches(Links(fewer), x, x) ==> Reaches(Links(relations), x, x)
    {
      if Reaches(Links(fewer), x, x) {
        ReachesMonotone(Links(fewer), Links(relations), x, x);
      }
    }
  }

  // ---------- The store ----------

  /** Relations join groups, and `is_team_membership` tells the type of the parent. */
  ghost predicate AreTyped(info: map<Id, GroupInfo>, relations: Relations) {
    forall e :: e in relations ==>
      e.0 in info && e.1 in info && (relations[e].isTeamMembership <==> info[e.0].kind == Team)
  }

  /** The relations that were not there before never expire. */
  ghost predicate NewOnesNeverExpire(before: Relations, after: Relations) {
    forall e :: e in after ==> (e in before && before[e] == after[e]) || after[e].expiresAt == MAX_TIME
  }

  lemma NewRelationIsStorable(info: map<Id, GroupInfo>, relations: Relations, parent: Id, child: Id, rows: Relations,
                              now: Time)
    requires parent in info && child in info && AreTyped(info, relations)
    requires rows == map[(parent, child) := Relation(MAX_TIME, info[parent].kind == Team)]
    ensures Storable(info.Keys, relations - {(parent, child)}, rows)
    ensures AreTyped(info, relations[(parent, child) := rows[(parent, child)]])
    ensures NoneExpired(relations, now) && now < MAX_TIME ==>
              NoneExpired(relations[(parent, child) := rows[(parent, child)]], now)
  {
  }

  lemma NothingIsStorable(groups: set<Id>, relations: Relations)
    ensures Storable(groups, relations, map[])
  {
  }

  /** The groups are gone with their relations, pending requests and kinds, and nothing else is. */
  ghost predicate GroupsAreGone(before: Relations, waiting: PendingRows, info: map<Id, GroupInfo>, gone: set<Id>,
                                after: Relations, pending: PendingRows, remaining: map<Id, GroupInfo>) {
    && after == before - RelationsOf(before, gone)
    && pending == waiting - PendingOf(waiting, gone)
    && remaining == info - gone
  }

  lemma MembershipsNeverExpire(relations: Relations, parent: Id, plan: Plan, isTeam: bool)
    ensures NewOnesNeverExpire(relations, (relations - PairsOf(parent, plan.deleteRelation))
                                          + NewMemberships(parent, plan.insertRelation, isTeam))
  {
  }

  lemma HorizonIsKept(before: Relations, after: Relations, horizon: Time)
    requires NewOnesNeverExpire(before, after) && horizon < MAX_TIME
    ensures NoneExpired(before, horizon) ==> NoneExpired(after, horizon)
  {
  }

  class GroupStore {
    const graph: GroupGraph
    var info: map<Id, GroupInfo>                    // groups
    var pending: PendingRows                        // group_pending_requests
    var journal: multiset<(Id, Id, Action)>         // group_membership_changes

    /** The foreign keys hold and `is_team_membership` tells the type of the parent. */
    ghost predicate Consistent()
      reads this, graph
    {
      && graph.groups == info.Keys
      && graph.now < MAX_TIME
      && AreTyped(info, graph.relations)
    }

    constructor (now: Time, info: map<Id, GroupInfo>)
      requires now < MAX_TIME
      ensures Consistent() && graph.Sound() && NoConflict(graph.relations, graph.now, pending)
      ensures this.info == info && pending == map[] && journal == multiset{} && graph.relations == map[]
      ensures graph.now == now
    {
      graph := new GroupGraph(now, info.Keys);
      this.info, pending, journal := info, map[], multiset{};
    }

    function CallOf(action: TransitionAction, parent: Id, children: seq<Id>, approvals: map<Id, Approvals>): Call
      reads this, graph
    {
      Call(action, parent, children, approvals, graph.relations, graph.now, pending, graph.ancestors, info)
    }

    /** `full` tells whether the limit refused the batch, which it does exactly when there is no room for it. */
    method Transition(action: TransitionAction, parent: Id, children: seq<Id>, approvals: map<Id, Approvals>)
      returns (results: map<Id, Result>, approvalsToRequest: map<Id, Approvals>, full: bool)
      requires Consistent() && parent in info && forall id :: id in children ==> id in info
      modifies this`pending, this`journal, graph`relations, graph`propagate, graph`ancestors, graph`base
      ensures Consistent()
      ensures full <==> IsRefused(old(CallOf(action, parent, children, approvals)))
      ensures forall id :: AnswerFits(old(CallOf(action, parent, children, approvals)), full, results,
                                      approvalsToRequest, id)
      ensures IsCarriedOut(old(CallOf(action, parent, children, approvals)), full, graph.relations, pending)
      ensures journal == old(journal) +
              multiset(ExpectedJournal(old(CallOf(action, parent, children, approvals)), full))
      ensures forall id :: id in children ==>
                IsAnswered(old(CallOf(action, parent, children, approvals)), full, results, approvalsToRequest,
                           graph.relations, pending, id)
      ensures results.Keys == (set id | id in children)
      ensures journal == old(journal) +
              multiset(RecordedRows(old(CallOf(action, parent, children, approvals)), results))
      ensures NoConflict(old(graph.relations), graph.now, old(pending)) ==>
                NoConflict(graph.relations, graph.now, pending)
      ensures NoConflict(old(graph.relations), graph.now, old(pending)) &&
              HasOnlyParticipants(old(graph.relations), info, parent) &&
              info[parent].enforceMaxParticipants ==>
                var taken := |PlacesTaken(graph.relations, graph.now, pending, parent)|;
                taken <= info[parent].maxParticipants ||
                  taken <= |PlacesTaken(old(graph.relations), graph.now, old(pending), parent)|
      ensures NewOnesNeverExpire(old(graph.relations), graph.relations)
      ensures Acyclic(Links(old(graph.relations))) ==>
                (Acyclic(Links(graph.relations)) <==>
                 info[parent].kind == Team || !ClosesCycle(old(CallOf(action, parent, children, approvals)), full))
      ensures old(graph.Settled()) && Acyclic(Links(graph.relations)) ==> graph.Settled()
      ensures old(graph.Settled()) ==>
                forall id :: id in Joining(old(CallOf(action, parent, children, approvals)), full) ==>
                  !Reaches(LinksAfter(old(graph.relations), graph.now), id, parent)
      ensures old(graph.Sound()) ==> graph.Sound()
    {
      hide IsCarriedOut, AnswerFits, IsRefused, PlanFits, PlanIsRight, NoConflict, HasOnlyParticipants, PlacesTaken;
      hide NewOnesNeverExpire, ExpectedJournal, Exact, Acyclic, NoneExpired, WellFormed, FullIds, DeleteIds, OldStates;
      hide Links, LinksAfter, Joining, ClosesCycle, Reaches, IsAnswered, RecordedRows;
      hide PairsOf, NewMemberships, JournalRows, HasTableMoves, UnmarkedExact, ChangesAreMarked;
      ghost var call := CallOf(action, parent, children, approvals);
      var isTeam := info[parent].kind == Team;
      var oldStates := OldStates(graph.relations, graph.now, pending, parent, children);
      var built := BuildTransitionsPlan(parent, children, oldStates, info[parent].required, approvals, action);
      var checked := DeleteIds(built, CycleIds(built, graph.ancestors, parent), Cycle);
      var fullIds := FullIds(checked, action, graph.relations, graph.now, pending, info, parent);
      var plan := DeleteIds(checked, fullIds, Full);
      full := fullIds != {};
      AllFitAfterCycleCheck(call, built, checked);
      FullMeansRefused(call, checked);
      FittingPlansHaveTableMoves(call, checked);
      results, approvalsToRequest := plan.results, plan.approvalsToRequest;
      PlansFit(call, built, checked, full, plan);
      PendingTypesExist(call, full, plan);
      JournalFits(call, full, plan);
      InsertedAreListed(call, full, plan);

      ExecutePlan(plan, parent, isTeam, approvals);

      MembershipsNeverExpire(call.relations, parent, plan, isTeam);
      CarryingOutThePlan(call, full, plan, isTeam, graph.relations, pending);
      JournalIsMeant(call, full, results, approvalsToRequest, graph.relations, pending);
      AnsweredAreListed(call, full, results, approvalsToRequest);
      if NoConflict(call.relations, call.now, call.pending) {
        CarriedOutKeepsNoConflict(call, full, graph.relations, pending);
        if HasOnlyParticipants(call.relations, info, parent) && info[parent].enforceMaxParticipants {
          CapacityIsKept(call, full, graph.relations, pending);
        }
      }
      HorizonIsKept(call.relations, graph.relations, call.now);
      if Acyclic(Links(call.relations)) {
        NewMembershipsMakeNoCycle(call, full, plan, isTeam, graph.relations);
      }
      if old(graph.Settled()) {
        JoiningDoNotReach(call, full, graph.groups);
      }
    }

    /** deletePending, deleteRelations, insertGroupPendingRequests, insertRelations, insertGroupMembershipChanges,
        and the recomputation of the ancestors unless the parent is a team */
    method ExecutePlan(plan: Plan, parent: Id, isTeam: bool, approvals: map<Id, Approvals>)
      requires Consistent() && parent in info && (isTeam <==> info[parent].kind == Team)
      requires forall id :: id in plan.insertPending ==>
                 IsPending(plan.insertPending[id]) && plan.insertPending[id] != LeaveRequestExpired
      requires forall id :: id in plan.insertRelation ==> id in info
      modifies this`pending, this`journal, graph`relations, graph`propagate, graph`ancestors, graph`base
      ensures Consistent()
      ensures graph.relations ==
              (old(graph.relations) - PairsOf(parent, plan.deleteRelation)) +
                NewMemberships(parent, plan.insertRelation, isTeam)
      ensures pending == (old(pending) - PairsOf(parent, plan.deletePending)) +
              NewPending(parent, plan.insertPending, approvals)
      ensures journal == old(journal) + multiset(JournalRows(parent, plan.changed))
      ensures old(graph.Settled()) && Acyclic(Links(graph.relations)) ==> graph.Settled()
    {
      hide PairsOf, NewMemberships, NewPending, JournalRows, AreTyped, Exact, Acyclic, NoneExpired, WellFormed;
      hide ChangesAreMarked;
      hide Links, OnlyMemberships, Storable;
      NewMembershipsAreStorable(info, graph.relations, parent, plan, isTeam);
      pending := pending - PairsOf(parent, plan.deletePending);
      pending := pending + NewPending(parent, plan.insertPending, approvals);
      journal := journal + multiset(JournalRows(parent, plan.changed));
      graph.ChangeRelations(PairsOf(parent, plan.deleteRelation), NewMemberships(parent, plan.insertRelation, isTeam),
                            !isTeam && (plan.deleteRelation != {} || plan.insertRelation != {}));
    }

    /** Refused, with nothing changed, when the child is a cached ancestor of the parent (a group is one of its own). */
    method CreateRelation(parent: Id, child: Id) returns (cycle: bool)
      requires Consistent() && parent in info && child in info
      modifies this`pending, graph`relations, graph`propagate, graph`ancestors, graph`base
      ensures Consistent()
      ensures cycle <==> (child, parent) in old(graph.ancestors)
      ensures cycle ==> graph.relations == old(graph.relations) && pending == old(pending)
      ensures !cycle ==>
              graph.relations == old(graph.relations)[(parent, child) := Relation(MAX_TIME, info[parent].kind == Team)]
      ensures !cycle ==> pending == old(pending) - {(parent, child)}
      ensures NoConflict(old(graph.relations), graph.now, old(pending)) ==>
                NoConflict(graph.relations, graph.now, pending)
      ensures old(graph.Sound()) ==> graph.Sound()
      ensures old(graph.Settled()) && !cycle ==>
                (Acyclic(Links(graph.relations)) <==>
                 info[parent].kind == Team || !Reaches(Links(old(graph.relations)), child, parent))
      ensures old(graph.Settled()) && Acyclic(Links(graph.relations)) ==> graph.Settled()
      ensures old(graph.Settled()) ==>
                (child == parent || Reaches(LinksAfter(old(graph.relations), graph.now), child, parent) ==> cycle)
      ensures old(graph.Settled()) && cycle ==>
                || child == parent
                || Reaches(LinksAfter(old(graph.relations), graph.now), child, parent)
                || old(graph.ancestors)[(child, parent)] <= graph.now
    {
      hide Reaches, Acyclic, NoConflict, ExactAt, Exact, ChangesAreMarked, TodoIds, WellFormed, AreTyped, NoneExpired;
      hide Storable, Links, LinksAfter;
      if graph.Settled() {
        CachedMeansReached(graph, child, parent);
      }
      if (child, parent) in graph.ancestors {
        return true;
      }
      ghost var before, waiting := graph.relations, pending;
      var rows := map[(parent, child) := Relation(MAX_TIME, info[parent].kind == Team)];
      NewRelationIsStorable(info, before, parent, child, rows, graph.now);
      if graph.Settled() {
        NewLinkMakesNoCycle(graph.relations, parent, child, rows);
      }
      pending := pending - {(parent, child)};
      graph.ChangeRelations({(parent, child)}, rows, true);
      assert graph.relations == before[(parent, child) := rows[(parent, child)]];
      if NoConflict(before, graph.now, waiting) {
        OnePairKeepsNoConflict(before, graph.relations, graph.now, waiting, pending, parent, child);
      }
      return false;
    }

    /** deleteObjectsLinkedToGroups, as far as relations go */
    method DeleteObjectsLinkedToGroups(ids: set<Id>)
      requires Consistent()
      modifies graph`relations, graph`propagate, graph`ancestors, graph`base
      ensures Consistent() && graph.relations == old(graph.relations) - RelationsOf(old(graph.relations), ids)
      ensures old(graph.Settled()) ==> graph.Settled()
      ensures old(graph.Sound()) ==> graph.Sound()
    {
      var removed := RelationsOf(graph.relations, ids);
      FewerRelationsStaySound(graph.relations, (graph.relations - removed) + map[], graph.now);
      graph.ChangeRelations(removed, map[], removed != {});
    }

    /** `orphans` are the groups that are deleted besides the group itself. */
    method DeleteGroupAndOrphanedDescendants(group: Id) returns (ghost orphans: set<Id>)
      requires Consistent() && group in info
      modifies this`info, this`pending, graph`groups, graph`relations, graph`propagate, graph`ancestors, graph`base
      ensures Consistent()
      ensures GroupsAreGone(old(graph.relations), old(pending), old(info), orphans + {group}, graph.relations, pending,
                            info)
      ensures old(graph.Settled()) ==>
                graph.Settled() &&
                OnlyOrphansGo(old(graph.relations), graph.now, old(info), group, orphans, graph.relations)
      ensures old(graph.Sound()) ==> graph.Sound()
    {
      hide Exact, Acyclic, OnlyOrphansGo, WellFormed, ChangesAreMarked, NoneExpired, ActiveDescendants, IsOrphanSet;
      ghost var before, kinds := graph.relations, info;
      var candidates := CandidatesForDeletion(graph.ancestors, graph.now, info, group);
      if graph.Settled() {
        CandidatesAreDescendants(graph.relations, graph.ancestors, graph.now, info, group);
      }
      DeleteObjectsLinkedToGroups({group});
      var ids := OrphanIds(graph.ancestors, graph.now, candidates);
      ghost var left := graph.relations;
      if graph.Settled() {
        OrphanTestIsExact(graph.relations, graph.ancestors, graph.now, candidates);
      }
      DeleteObjectsLinkedToGroups(ids);
      if old(graph.Settled()) {
        SparedKeepParents(before, left, graph.relations, graph.now, kinds, group, ids);
      }
      RemovedInTwoSteps(before, group, ids);
      DeleteGroupRows(ids + {group});
      orphans := ids;
    }

    /** DELETE FROM `groups` with its cascades */
    method DeleteGroupRows(ids: set<Id>)
      requires Consistent() && forall e :: e in graph.relations ==> !Touches(e, ids)
      modifies this`info, this`pending, graph`groups, graph`propagate, graph`ancestors
      ensures Consistent() && info == old(info) - ids && pending == old(pending) - PendingOf(old(pending), ids)
      ensures old(graph.Settled()) ==> graph.Settled()
      ensures old(graph.Sound()) ==> graph.Sound()
    {
      graph.DeleteGroups(ids);
      info := info - ids;
      pending := pending - PendingOf(pending, ids);
    }

    /** Deletes the relation, or the child with its orphaned descendants when the parent was its last active one. */
    method DeleteRelation(parent: Id, child: Id, shouldDeleteOrphans: bool) returns (ghost orphans: set<Id>)
      requires Consistent() && child in info
      modifies this`info, this`pending, graph`groups, graph`relations, graph`propagate, graph`ancestors, graph`base
      ensures Consistent()
      ensures !shouldDeleteOrphans ||
              (exists p :: p != parent && IsMemberNow(old(graph.relations), graph.now, p, child)) ==>
                graph.relations == old(graph.relations) - {(parent, child)} && pending == old(pending) &&
                  info == old(info)
      ensures shouldDeleteOrphans &&
              !(exists p :: p != parent && IsMemberNow(old(graph.relations), graph.now, p, child)) ==>
                && GroupsAreGone(old(graph.relations), old(pending), old(info), orphans + {child}, graph.relations,
                                 pending, info)
                && (old(graph.Settled()) ==>
                      OnlyOrphansGo(old(graph.relations), graph.now, old(info), child, orphans, graph.relations))
      ensures NoConflict(old(graph.relations), graph.now, old(pending)) ==>
                NoConflict(graph.relations, graph.now, pending)
      ensures old(graph.Settled()) ==> graph.Settled()
      ensures old(graph.Sound()) ==> graph.Sound()
    {
      hide Exact, Acyclic, OnlyOrphansGo, WellFormed, ChangesAreMarked, NoneExpired, NoConflict, Links, Storable;
      hide OnlyMemberships;
      ghost var before, waiting := graph.relations, pending;
      OtherParentMeaning(graph.relations, graph.now, parent, child);
      orphans := {};
      if !HasOtherParent(graph.relations, graph.now, parent, child) && shouldDeleteOrphans {
        orphans := DeleteGroupAndOrphanedDescendants(child);
      } else {
        FewerRelationsStaySound(graph.relations, (graph.relations - {(parent, child)}) + map[], graph.now);
        NothingIsStorable(graph.groups, graph.relations - {(parent, child)});
        graph.ChangeRelations({(parent, child)}, map[], true);
      }
      if NoConflict(before, graph.now, waiting) {
        FewerRowsKeepNoConflict(before, graph.relations, graph.now, waiting, pending);
      }
    }

    /** One call, or some time passing. Calls about groups that do not exist fail on a foreign key. Relations that the
        calls create never expire, so it is enough that those of the start outlive the `horizon`. */
    method Perform(operation: Operation, ghost group: Id, ghost limit: int, ghost horizon: Time)
      requires Consistent() && horizon < MAX_TIME
      modifies this, graph
      ensures Consistent() && info.Keys <= old(info.Keys)
      ensures forall id :: id in info ==> info[id] == old(info)[id]
      ensures operation.Create? && operation.parent in old(info) && operation.child in old(info) ==>
                var e := (operation.parent, operation.child);
                graph.relations == (if (e.1, e.0) in old(graph.ancestors) then old(graph.relations)
                                    else old(graph.relations)[e := Relation(MAX_TIME, old(info)[e.0].kind == Team)])
      ensures operation.Delete? && operation.child in old(info) ==>
                if operation.orphans &&
                   !exists p :: p != operation.parent &&
                               IsMemberNow(old(graph.relations), graph.now, p, operation.child)
                then exists orphans :: IsOrphaning(old(graph.relations), old(pending), old(info), graph.now,
                                                   operation.child, orphans, graph.relations, pending, info,
                                                   old(graph.Settled()))
                else && graph.relations == old(graph.relations) - {(operation.parent, operation.child)}
                     && pending == old(pending) && info == old(info)
      ensures operation.Move? && operation.parent in old(info) &&
              (forall id :: id in operation.children ==> id in old(info)) ==>
                var call := old(CallOf(operation.action, operation.parent, operation.children, operation.approvals));
                IsCarriedOut(call, IsRefused(call), graph.relations, pending)
      ensures operation.Pass? && old(graph.now) <= operation.later < MAX_TIME ==> graph.now == operation.later
      ensures NoneExpired(old(graph.relations), horizon) ==> NoneExpired(graph.relations, horizon)
      ensures old(graph.Settled()) && Acyclic(Links(graph.relations)) ==> graph.Settled()
      ensures old(graph.Sound()) && NoneExpired(old(graph.relations), horizon) && EndsBy(operation, horizon) ==>
                graph.Sound()
      ensures NoConflict(old(graph.relations), old(graph.now), old(pending)) ==>
                NoConflict(graph.relations, graph.now, pending)
      ensures LeavesAlone(operation, group, old(info)) &&
              StaysWithin(old(graph.relations), old(graph.now), old(pending), old(info), group, limit) ==>
                StaysWithin(graph.relations, graph.now, pending, info, group, limit)
    {
      hide StaysWithin, NoConflict, ExactAt, Exact, Acyclic, Links, ChangesAreMarked, IsCarriedOut, AnswerFits;
      hide IsRefused, SamePair, GroupsAreGone, Joining, ClosesCycle, Reaches, LinksAfter;
      hide ExpectedJournal, PlacesTaken, HasOnlyParticipants, OnlyOrphansGo, NewOnesNeverExpire, NoneExpired;
      ghost var relationsThen, nowThen, pendingThen, infoThen := graph.relations, graph.now, pending, info;
      match operation {
        case Create(parent, child) =>
          if parent in info && child in info {
            var _ := CreateRelation(parent, child);
            AddedNeverExpires(relationsThen, graph.relations, parent, child);
            if parent != group {
              OtherPairsAreKept(relationsThen, graph.relations, pendingThen, pending, parent, child, group);
              OthersStayWithin(relationsThen, graph.relations, graph.now, pendingThen, pending, info, group, limit);
            }
          }
        case Delete(parent, child, orphans) =>
          if child in info {
            ghost var gone := DeleteRelation(parent, child, orphans);
            assert orphans && !(exists p :: p != parent && IsMemberNow(relationsThen, nowThen, p, child)) ==>
                     IsOrphaning(relationsThen, pendingThen, infoThen, graph.now, child, gone, graph.relations, pending,
                                 info, old(graph.Settled()));
            AreFewer(relationsThen, pendingThen, infoThen, parent, child, gone, graph.relations, pending, info);
            FewerNeverExpire(relationsThen, graph.relations);
            FewerStayWithin(relationsThen, graph.relations, graph.now, graph.now, pendingThen, pending, infoThen, info,
                            group, limit);
          }
        case Move(action, parent, children, approvals) =>
          if parent in info && forall id :: id in children ==> id in info {
            ghost var call := CallOf(action, parent, children, approvals);
            var _, _, full := Transition(action, parent, children, approvals);
            if parent != group {
              OthersAreCarriedOver(call, full, graph.relations, pending, group);
              OthersStayWithin(relationsThen, graph.relations, graph.now, pendingThen, pending, info, group, limit);
            } else if LeavesAlone(operation, group, info) {
              StaysWithinMeans(call, limit);
              MembersStayWithin(call, full, graph.relations, pending, limit);
            }
          }
        case Pass(later) =>
          if graph.now <= later < MAX_TIME {
            graph.Wait(later);
            LaterStaysFree(graph.relations, nowThen, later, pending);
            FewerStayWithin(graph.relations, graph.relations, nowThen, later, pending, pending, info, info, group,
                            limit);
            OutlivingIsMonotone(graph.relations, later, horizon);
          }
      }
      HorizonIsKept(relationsThen, graph.relations, horizon);
    }

    /** Any sequence of calls at any times up to the `horizon`: as long as every relation of the start outlives it, the
        relations make no cycle and the cache stays exact; no active member ever has a pending invitation or join
        request; and a limited group never has more members and invitations than its limit. */
    method Run(operations: seq<Operation>, ghost group: Id, ghost limit: int, ghost horizon: Time)
      requires Consistent() && horizon < MAX_TIME
      modifies this, graph
      ensures Consistent()
      ensures old(graph.Sound()) && NoneExpired(old(graph.relations), horizon) &&
              (forall operation :: operation in operations ==> EndsBy(operation, horizon)) ==>
                graph.Sound()
      ensures NoConflict(old(graph.relations), old(graph.now), old(pending)) ==>
                NoConflict(graph.relations, graph.now, pending)
      ensures (forall operation :: operation in operations ==> LeavesAlone(operation, group, old(info))) &&
              StaysWithin(old(graph.relations), old(graph.now), old(pending), old(info), group, limit) ==>
                StaysWithin(graph.relations, graph.now, pending, info, group, limit)
    {
      hide StaysWithin, NoConflict, ExactAt, Exact, Acyclic, Links, ChangesAreMarked, NoneExpired, WellFormed, EndsBy;
      for k := 0 to |operations|
        invariant Consistent() && info.Keys <= old(info.Keys)
        invariant forall id :: id in info ==> info[id] == old(info)[id]
        invariant NoneExpired(old(graph.relations), horizon) ==> NoneExpired(graph.relations, horizon)
        invariant old(graph.Sound()) && NoneExpired(old(graph.relations), horizon) &&
                  (forall operation :: operation in operations ==> EndsBy(operation, horizon)) ==>
                    graph.Sound()
        invariant NoConflict(old(graph.relations), old(graph.now), old(pending)) ==>
                    NoConflict(graph.relations, graph.now, pending)
        invariant (forall operation :: operation in operations ==> LeavesAlone(operation, group, old(info))) &&
                  StaysWithin(old(graph.relations), old(graph.now), old(pending), old(info), group, limit) ==>
                    StaysWithin(graph.relations, graph.now, pending, info, group, limit)
      {
        ghost var infoThen := info;
        Perform(operations[k], group, limit, horizon);
        assert operations[k] in operations;
        assert LeavesAlone(operations[k], group, old(info)) ==> LeavesAlone(operations[k], group, infoThen);
      }
    }
  }

  /** The child and its orphans are gone; in a settled graph they are the true orphans. */
  ghost predicate IsOrphaning(before: Relations, waiting: PendingRows, info: map<Id, GroupInfo>, now: Time, child: Id,
                              orphans: set<Id>, after: Relations, pending: PendingRows, remaining: map<Id, GroupInfo>,
                              settled: bool) {
    && GroupsAreGone(before, waiting, info, orphans + {child}, after, pending, remaining)
    && (settled ==> OnlyOrphansGo(before, now, info, child, orphans, after))
  }

  lemma AreFewer(before: Relations, waiting: PendingRows, info: map<Id, GroupInfo>, parent: Id, child: Id,
                 orphans: set<Id>, after: Relations, pending: PendingRows, remaining: map<Id, GroupInfo>)
    requires || GroupsAreGone(before, waiting, info, orphans + {child}, after, pending, remaining)
             || (after == before - {(parent, child)} && pending == waiting && remaining == info)
    ensures forall e :: e in after ==> e in before && after[e] == before[e]
    ensures forall e :: e in pending ==> e in waiting && pending[e] == waiting[e]
    ensures forall id :: id in remaining ==> id in info && remaining[id] == info[id]
  {
  }

  lemma OthersAreCarriedOver(call: Call, full: bool, after: Relations, left: PendingRows, group: Id)
    requires call.parent in call.info && IsCarriedOut(call, full, after, left) && group != call.parent
    ensures forall c :: SamePair(call.relations, call.pending, after, left, group, c)
  {
  }

  lemma OtherPairsAreKept(relations: Relations, after: Relations, pending: PendingRows, left: PendingRows, parent: Id,
                          child: Id, group: Id)
    requires group != parent && (left == pending || left == pending - {(parent, child)})
    requires after == relations || exists isTeam :: after == relations[(parent, child) := Relation(MAX_TIME, isTeam)]
    ensures forall c :: SamePair(relations, pending, after, left, group, c)
  {
  }

  lemma AddedNeverExpires(relations: Relations, after: Relations, parent: Id, child: Id)
    requires after == relations || exists isTeam :: after == relations[(parent, child) := Relation(MAX_TIME, isTeam)]
    ensures NewOnesNeverExpire(relations, after)
  {
  }

  lemma FewerNeverExpire(relations: Relations, fewer: Relations)
    requires forall e :: e in fewer ==> e in relations && fewer[e] == relations[e]
    ensures NewOnesNeverExpire(relations, fewer)
  {
  }

  lemma OutlivingIsMonotone(relations: Relations, now: Time, horizon: Time)
    ensures NoneExpired(relations, horizon) && now <= horizon ==> NoneExpired(relations, now)
  {
  }

  datatype Operation =
    | Create(parent: Id, child: Id)
    | Delete(parent: Id, child: Id, orphans: bool)
    | Move(action: TransitionAction, parent: Id, children: seq<Id>, approvals: map<Id, Approvals>)
    | Pass(later: Time)

  predicate EndsBy(operation: Operation, horizon: Time) {
    operation.Pass? ==> operation.later <= horizon
  }

  /** Only users and teams enter the group, and only by transitions. */
  predicate LeavesAlone(operation: Operation, group: Id, info: map<Id, GroupInfo>) {
    match operation
    case Create(parent, _) => parent != group
    case Delete(_, _, _) => true
    case Move(_, parent, children, _) => parent == group ==>
      forall id | id in children && id in info :: info[id].kind in {User, Team}
    case Pass(_) => true
  }

  /** The group, if it still exists, has this limit and keeps it, and all its children are users or teams. */
  ghost predicate StaysWithin(relations: Relations, now: Time, pending: PendingRows, info: map<Id, GroupInfo>,
                              group: Id, limit: int) {
    && (group in info ==> info[group].enforceMaxParticipants && info[group].maxParticipants == limit)
    && HasOnlyParticipants(relations, info, group)
    && NoConflict(relations, now, pending)
    && |PlacesTaken(relations, now, pending, group)| <= limit
  }

  lemma LaterStaysFree(relations: Relations, now: Time, later: Time, pending: PendingRows)
    requires now <= later
    ensures NoConflict(relations, now, pending) ==> NoConflict(relations, later, pending)
  {
    if NoConflict(relations, now, pending) {
      forall p, c
        ensures StateOf(relations, later, pending, p, c) !in {MemberWithInvitation, MemberWithJoinRequest}
      {
        assert StateOf(relations, now, pending, p, c) !in {MemberWithInvitation, MemberWithJoinRequest};
      }
    }
  }

  lemma FewerStayWithin(relations: Relations, fewer: Relations, now: Time, later: Time, pending: PendingRows,
                        left: PendingRows, info: map<Id, GroupInfo>, remaining: map<Id, GroupInfo>, group: Id,
                        limit: int)
    requires now <= later && AreTyped(remaining, fewer)
    requires forall e :: e in fewer ==> e in relations && fewer[e] == relations[e]
    requires forall e :: e in left ==> e in pending && left[e] == pending[e]
    requires forall id :: id in remaining ==> id in info && remaining[id] == info[id]
    ensures StaysWithin(relations, now, pending, info, group, limit) ==>
              StaysWithin(fewer, later, left, remaining, group, limit)
  {
    if StaysWithin(relations, now, pending, info, group, limit) {
      LaterStaysFree(relations, now, later, pending);
      FewerRowsKeepNoConflict(relations, fewer, later, pending, left);
      forall c | c in PlacesTaken(fewer, later, left, group)
        ensures c in PlacesTaken(relations, now, pending, group)
      {
        PlaceMeaning(fewer, later, left, group, c);
        PlaceMeaning(relations, now, pending, group, c);
      }
      SubsetNotLarger(PlacesTaken(fewer, later, left, group), PlacesTaken(relations, now, pending, group));
    }
  }

  /** Changes of other groups' rows do not matter. */
  lemma OthersStayWithin(relations: Relations, after: Relations, now: Time, pending: PendingRows, left: PendingRows,
                         info: map<Id, GroupInfo>, group: Id, limit: int)
    requires AreTyped(info, after) && (NoConflict(relations, now, pending) ==> NoConflict(after, now, left))
    requires forall c :: SamePair(relations, pending, after, left, group, c)
    ensures StaysWithin(relations, now, pending, info, group, limit) ==>
              StaysWithin(after, now, left, info, group, limit)
  {
    forall c
      ensures c in PlacesTaken(after, now, left, group) <==> c in PlacesTaken(relations, now, pending, group)
    {
      assert SamePair(relations, pending, after, left, group, c);
      PlaceMeaning(after, now, left, group, c);
      PlaceMeaning(relations, now, pending, group, c);
    }
    assert PlacesTaken(after, now, left, group) == PlacesTaken(relations, now, pending, group);
    forall e | e in after && e.0 == group
      ensures e in relations
    {
      assert SamePair(relations, pending, after, left, group, e.1);
    }
  }

  lemma StaysWithinMeans(call: Call, limit: int)
    requires call.parent in call.info
    ensures StaysWithin(call.relations, call.now, call.pending, call.info, call.parent, limit) ==>
              && NoConflict(call.relations, call.now, call.pending) &&
                 HasOnlyParticipants(call.relations, call.info, call.parent)
              && call.info[call.parent].enforceMaxParticipants && call.info[call.parent].maxParticipants == limit
  {
  }

  lemma MembersStayWithin(call: Call, full: bool, after: Relations, left: PendingRows, limit: int)
    requires call.parent in call.info && IsCarriedOut(call, full, after, left)
    requires forall id :: id in call.children ==> id in call.info && call.info[id].kind in {User, Team}
    requires NoConflict(call.relations, call.now, call.pending) ==> NoConflict(after, call.now, left)
    requires StaysWithin(call.relations, call.now, call.pending, call.info, call.parent, limit) ==>
               var taken := |PlacesTaken(after, call.now, left, call.parent)|;
               taken <= limit || taken <= |PlacesTaken(call.relations, call.now, call.pending, call.parent)|
    ensures StaysWithin(call.relations, call.now, call.pending, call.info, call.parent, limit) ==>
              StaysWithin(after, call.now, left, call.info, call.parent, limit)
  {
    if StaysWithin(call.relations, call.now, call.pending, call.info, call.parent, limit) {
      forall e | e in after && e.0 == call.parent
        ensures e.1 in call.info && call.info[e.1].kind in {User, Team}
      {
        if !call.Succeeds(e.1, full) {
          assert SamePair(call.relations, call.pending, after, left, call.parent, e.1);
        }
      }
    }
  }

  lemma FewerRowsKeepNoConflict(relations: Relations, fewer: Relations, now: Time, pending: PendingRows,
                                left: PendingRows)
    requires NoConflict(relations, now, pending)
    requires forall e :: e in fewer ==> e in relations && fewer[e] == relations[e]
    requires forall e :: e in left ==> e in pending && left[e] == pending[e]
    ensures NoConflict(fewer, now, left)
  {
    forall p, c
      ensures StateOf(fewer, now, left, p, c) !in {MemberWithInvitation, MemberWithJoinRequest}
    {
      assert StateOf(relations, now, pending, p, c) !in {MemberWithInvitation, MemberWithJoinRequest};
    }
  }

  function PendingOf(pending: PendingRows, ids: set<Id>): set<(Id, Id)> {
    set e | e in pending && Touches(e, ids)
  }

  /** Besides the group itself exactly the orphans go, the descendants that lose all their active ancestors outside;
      every descendant that is spared keeps an active parent. */
  ghost predicate OnlyOrphansGo(before: Relations, now: Time, info: map<Id, GroupInfo>, group: Id, orphans: set<Id>,
                                after: Relations) {
    var left := before - RelationsOf(before, {group});
    var descendants := ActiveDescendants(before, now, info, group);
    && IsOrphanSet(LinksAfter(left, now), descendants, orphans)
    && forall x :: x in descendants - orphans ==> HasActiveParent(after, now, x)
  }

  ghost predicate HasActiveParent(relations: Relations, now: Time, x: Id) {
    exists p :: (p, x) in LinksAfter(relations, now)
  }

  lemma SparedKeepParents(before: Relations, left: Relations, after: Relations, now: Time, info: map<Id, GroupInfo>,
                          group: Id, orphans: set<Id>)
    requires left == before - RelationsOf(before, {group}) && after == left - RelationsOf(left, orphans)
    requires IsOrphanSet(LinksAfter(left, now), ActiveDescendants(before, now, info, group), orphans)
    requires forall x :: x in ActiveDescendants(before, now, info, group) - orphans ==>
               exists p :: (p, x) in LinksAfter(left, now) && p !in orphans
    ensures OnlyOrphansGo(before, now, info, group, orphans, after)
  {
    hide ActiveDescendants, IsOrphanSet;
    forall x | x in ActiveDescendants(before, now, info, group) - orphans
      ensures HasActiveParent(after, now, x)
    {
      var p :| (p, x) in LinksAfter(left, now) && p !in orphans;
      assert (p, x) in LinksAfter(after, now);
    }
  }

  lemma RemovedInTwoSteps(before: Relations, group: Id, ids: set<Id>)
    ensures var left := before - RelationsOf(before, {group});
            left - RelationsOf(left, ids) == before - RelationsOf(before, ids + {group})
  {
  }

  /** Another active parent, team memberships included */
  predicate HasOtherParent(relations: Relations, now: Time, parent: Id, child: Id) {
    exists e :: e in relations && e.1 == child && e.0 != parent && now < relations[e].expiresAt
  }

  lemma OtherParentMeaning(relations: Relations, now: Time, parent: Id, child: Id)
    ensures HasOtherParent(relations, now, parent, child) <==>
            exists p :: p != parent && IsMemberNow(relations, now, p, child)
  {
    if e :| e in relations && e.1 == child && e.0 != parent && now < relations[e].expiresAt {
      assert e == (e.0, child) && IsMemberNow(relations, now, e.0, child);
    }
    if p :| p != parent && IsMemberNow(relations, now, p, child) {
      assert (p, child) in relations && (p, child).1 == child;
    }
  }

  /** A new relation makes a cycle exactly when it counts for ancestors and the child reaches the parent,
      possibly through expired relations, which the cache no longer shows. */
  lemma NewLinkMakesNoCycle(relations: Relations, parent: Id, child: Id, rows: Relations)
    requires Acyclic(Links(relations)) && child != parent && rows.Keys == {(parent, child)}
    ensures Acyclic(Links((relations - {(parent, child)}) + rows)) <==>
            rows[(parent, child)].isTeamMembership || !Reaches(Links(relations), child, parent)
  {
    var before, after := Links(relations), Links((relations - {(parent, child)}) + rows);
    if rows[(parent, child)].isTeamMembership {
      StarKeepsAcyclic(before, parent, {}, after);
    } else if Reaches(before, child, parent) {
      var path :| Joins(before, path, child, parent);
      OtherPathsStay(before, after, parent, child, path);
      EdgeReaches(after, parent, child);
      ReachesTransitive(after, parent, child, parent);
    } else {
      StarKeepsAcyclic(before, parent, {child}, after);
    }
  }

  lemma OtherPathsStay(before: Edges, after: Edges, parent: Id, child: Id, path: seq<Id>)
    requires Joins(before, path, child, parent) && forall e :: e in before ==> e in after
    ensures Reaches(after, child, parent)
  {
    assert Joins(after, path, child, parent);
  }

  /** In a settled graph the groups with unexpired rows for a group are the group itself and those that reach it through
      active relations. */
  lemma CachedMeansReached(graph: GroupGraph, a: Id, x: Id)
    requires x in graph.groups && graph.Settled()
    ensures a == x || RowAfter(graph.ancestors, a, x, graph.now) <==>
            a == x || Reaches(LinksAfter(graph.relations, graph.now), a, x)
    ensures (x, x) in graph.ancestors
    ensures NoneExpired(graph.relations, graph.now) ==> Links(graph.relations) == LinksAfter(graph.relations, graph.now)
  {
    assert Exact(graph.ancestors, graph.relations, graph.now, x);
    assert ExactAt(graph.ancestors, graph.relations, graph.now, x);
  }

  lemma OnePairKeepsNoConflict(relations: Relations, after: Relations, now: Time, pending: PendingRows,
                               left: PendingRows, parent: Id, child: Id)
    requires NoConflict(relations, now, pending)
    requires forall p, c :: (p, c) != (parent, child) ==> SamePair(relations, pending, after, left, p, c)
    requires (parent, child) !in left
    ensures NoConflict(after, now, left)
  {
    forall p, c
      ensures StateOf(after, now, left, p, c) !in {MemberWithInvitation, MemberWithJoinRequest}
    {
      assert StateOf(relations, now, pending, p, c) !in {MemberWithInvitation, MemberWithJoinRequest};
      assert (p, c) != (parent, child) ==> SamePair(relations, pending, after, left, p, c);
    }
  }

  lemma InsertedAreListed(call: Call, full: bool, plan: Plan)
    requires call.parent in call.info && PlanFits(call, full, plan)
    ensures forall id :: id in plan.insertRelation ==> id in call.children
  {
    forall id | id in plan.insertRelation
      ensures id in call.children
    {
      assert ChildFits(call, full, plan, id);
    }
  }

  lemma NewMembershipsAreStorable(info: map<Id, GroupInfo>, relations: Relations, parent: Id, plan: Plan, isTeam: bool)
    requires parent in info && (isTeam <==> info[parent].kind == Team)
    requires forall id :: id in plan.insertRelation ==> id in info
    requires AreTyped(info, relations)
    ensures var kept := relations - PairsOf(parent, plan.deleteRelation);
            var rows := NewMemberships(parent, plan.insertRelation, isTeam);
            && Storable(info.Keys, kept, rows)
            && AreTyped(info, kept + rows)
            && (isTeam || (plan.deleteRelation == {} && plan.insertRelation == {}) ==>
                  OnlyMemberships(relations, PairsOf(parent, plan.deleteRelation), rows))
  {
  }
}
