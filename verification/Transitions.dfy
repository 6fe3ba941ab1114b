/** The membership state machine of groups: the rules table, the plan built for a list of children,
    and what carrying out the plan does to each of them. */
module Transitions {
  import opened Collections
  import opened Graph

  /** GroupMembershipAction. The last two stand for the concatenations that no rule knows. */
  datatype Action =
    | NoRelation
    | InvitationCreated
    | JoinRequestCreated
    | InvitationAccepted
    | JoinRequestAccepted
    | LeaveRequestAccepted
    | InvitationRefused
    | InvitationWithdrawn
    | JoinedByBadge
    | JoinedByCode
    | JoinRequestRefused
    | JoinRequestWithdrawn
    | Removed
    | Left
    | IsMember
    | LeaveRequestCreated
    | LeaveRequestExpired
    | LeaveRequestRefused
    | LeaveRequestWithdrawn
    | RemovedDueToApprovalChange
    | MemberWithInvitation
    | MemberWithJoinRequest

  /** GroupGroupTransitionAction */
  datatype TransitionAction =
    | AdminCreatesInvitation
    | UserCreatesJoinRequest
    | UserCreatesAcceptedJoinRequest
    | UserAcceptsInvitation
    | AdminAcceptsJoinRequest
    | AdminAcceptsLeaveRequest
    | AdminRefusesLeaveRequest
    | UserRefusesInvitation
    | AdminRefusesJoinRequest
    | AdminRemovesUser
    | AdminWithdrawsInvitation
    | UserLeavesGroup
    | UserCreatesLeaveRequest
    | UserCancelsJoinRequest
    | UserCancelsLeaveRequest
    | AdminRemovesDirectRelation
    | UserJoinsGroupByBadge
    | UserJoinsGroupByCode
    | AdminStrengthensApprovalWithEmpty
    | AdminStrengthensApprovalWithReinvite

  datatype Result = Cycle | Invalid | ApprovalsMissing | Full | Success | Unchanged

  predicate IsActive(action: Action) {
    action in {JoinedByBadge, InvitationAccepted, JoinRequestAccepted, JoinedByCode, IsMember,
               LeaveRequestCreated, LeaveRequestWithdrawn, LeaveRequestRefused}
  }

  predicate IsPending(action: Action) {
    action in {InvitationCreated, JoinRequestCreated, LeaveRequestCreated, LeaveRequestExpired}
  }

  predicate HasApprovals(action: Action) {
    action == JoinRequestCreated
  }

  function Transition(action: TransitionAction): map<Action, Action> {
    match action
    case AdminCreatesInvitation =>
      map[NoRelation := InvitationCreated, InvitationCreated := InvitationCreated,
          JoinRequestCreated := JoinRequestAccepted, LeaveRequestExpired := InvitationCreated]
    case UserCreatesJoinRequest =>
      map[NoRelation := JoinRequestCreated, JoinRequestCreated := JoinRequestCreated, LeaveRequestExpired :=
          JoinRequestCreated]
    case UserCreatesAcceptedJoinRequest =>
      map[NoRelation := JoinRequestAccepted, JoinRequestCreated := JoinRequestAccepted,
          InvitationCreated := JoinRequestAccepted, LeaveRequestExpired := JoinRequestAccepted]
    case UserJoinsGroupByBadge =>
      map[NoRelation := JoinedByBadge, JoinRequestCreated := JoinedByBadge,
          InvitationCreated := JoinedByBadge, LeaveRequestExpired := JoinedByBadge]
    case UserJoinsGroupByCode =>
      map[NoRelation := JoinedByCode, JoinRequestCreated := JoinedByCode,
          InvitationCreated := JoinedByCode, LeaveRequestExpired := JoinedByCode]
    case UserAcceptsInvitation => map[InvitationCreated := InvitationAccepted]
    case AdminAcceptsJoinRequest => map[JoinRequestCreated := JoinRequestAccepted]
    case AdminAcceptsLeaveRequest => map[LeaveRequestCreated := LeaveRequestAccepted]
    case UserRefusesInvitation => map[InvitationCreated := InvitationRefused]
    case AdminRefusesJoinRequest => map[JoinRequestCreated := JoinRequestRefused]
    case AdminRefusesLeaveRequest => map[LeaveRequestCreated := LeaveRequestRefused]
    case AdminRemovesUser => map[IsMember := Removed, LeaveRequestCreated := Removed]
    case AdminWithdrawsInvitation => map[InvitationCreated := InvitationWithdrawn]
    case UserLeavesGroup => map[IsMember := Left, LeaveRequestCreated := Left]
    case UserCreatesLeaveRequest => map[IsMember := LeaveRequestCreated, LeaveRequestCreated := LeaveRequestCreated]
    case UserCancelsJoinRequest => map[JoinRequestCreated := JoinRequestWithdrawn]
    case UserCancelsLeaveRequest => map[LeaveRequestCreated := LeaveRequestWithdrawn]
    case AdminRemovesDirectRelation =>
      map[IsMember := NoRelation, NoRelation := NoRelation, LeaveRequestCreated := NoRelation]
    case AdminStrengthensApprovalWithEmpty =>
      map[IsMember := RemovedDueToApprovalChange, NoRelation := NoRelation, JoinRequestCreated := NoRelation,
          LeaveRequestCreated := RemovedDueToApprovalChange, LeaveRequestExpired := RemovedDueToApprovalChange,
          InvitationCreated := NoRelation]
    case AdminStrengthensApprovalWithReinvite =>
      map[IsMember := InvitationCreated, NoRelation := NoRelation, JoinRequestCreated := NoRelation,
          LeaveRequestCreated := RemovedDueToApprovalChange, LeaveRequestExpired := RemovedDueToApprovalChange,
          InvitationCreated := InvitationCreated]
  }

  /** IfNotEnoughApprovalsDowngradeTo */
  function DowngradeTo(action: TransitionAction): Action {
    if action == AdminCreatesInvitation then InvitationCreated else NoRelation
  }

  /** GroupApprovals; `true` stands for given or, in a group's settings, for required. */
  datatype Approvals = Approvals(personalInfoView: bool, lockMembership: bool, watch: bool)

  const NO_APPROVALS := Approvals(false, false, false)

  /** The current state of a child with the approvals stored in its pending request */
  datatype StateInfo = StateInfo(action: Action, approvals: Approvals)

  /** The approvals that are required but given neither by the join request nor, without one, by the caller */
  function MissingApprovals(state: StateInfo, required: Approvals, given: Approvals): Approvals {
    var checked := if HasApprovals(state.action) then state.approvals else given;
    Approvals(required.personalInfoView && !checked.personalInfoView,
              required.lockMembership && !checked.lockMembership,
              required.watch && !checked.watch)
  }

  function Get<T>(m: map<Id, T>, id: Id, default: T): T {
    if id in m then m[id] else default
  }

  // ---------- What the rules say about one child ----------

  datatype Decision = Refuse(result: Result, missing: Approvals) | Keep | Move(target: Action)

  /** The target of the rules table, downgraded when approvals are missing */
  function Decide(action: TransitionAction, state: StateInfo, required: Approvals, given: Approvals): Decision {
    if state.action !in Transition(action) then Refuse(Invalid, NO_APPROVALS) else
      var to := Transition(action)[state.action];
      var missing := MissingApprovals(state, required, given);
      var needsApprovals := (IsActive(to) && !IsActive(state.action)) || HasApprovals(to);
      if needsApprovals && missing != NO_APPROVALS && DowngradeTo(action) == NoRelation
        then Refuse(ApprovalsMissing, missing) else
        var effective := if needsApprovals && missing != NO_APPROVALS then DowngradeTo(action) else to;
        if effective == state.action then Keep else Move(effective)
  }

  // ---------- The plan ----------

  datatype Plan = Plan(insertPending: map<Id, Action>, insertRelation: set<Id>, checkCycle: set<Id>,
                       deletePending: set<Id>, deleteRelation: set<Id>, changed: map<Id, Action>,
                       results: map<Id, Result>, approvalsToRequest: map<Id, Approvals>)

  const EMPTY_PLAN := Plan(map[], {}, {}, {}, {}, map[], map[], map[])

  /** buildOneTransition */
  function BuildOneTransition(plan: Plan, id: Id, from: Action, to: Action): Plan {
    if to == from then plan.(results := plan.results[id := Unchanged]) else
      var becomesActive := IsActive(to) && !IsActive(from);
      plan.(results := plan.results[id := Success],
            changed := if to != NoRelation then plan.changed[id := to] else plan.changed,
            deleteRelation :=
              if IsActive(from) && !IsActive(to) then plan.deleteRelation + {id} else plan.deleteRelation,
            insertRelation := if becomesActive then plan.insertRelation + {id} else plan.insertRelation,
            checkCycle :=
              if !IsActive(from) && (IsActive(to) || IsPending(to)) then plan.checkCycle + {id} else plan.checkCycle,
            deletePending := if IsPending(from) then plan.deletePending + {id} else plan.deletePending,
            insertPending := if IsPending(to) then plan.insertPending[id := to] else plan.insertPending)
  }

  /** deleteIDsFromTransitionPlan */
  function DeleteIds(plan: Plan, ids: set<Id>, status: Result): Plan {
    plan.(results := plan.results + map id | id in ids :: status,
          insertRelation := plan.insertRelation - ids,
          insertPending := plan.insertPending - ids,
          deletePending := plan.deletePending - ids,
          deleteRelation := plan.deleteRelation - ids,
          changed := plan.changed - ids)
  }

  /** The child has no place in the plan. */
  predicate Untouched(plan: Plan, id: Id) {
    && id !in plan.insertPending && id !in plan.insertRelation && id !in plan.deletePending
    && id !in plan.deleteRelation && id !in plan.changed
  }

  /** The plan moves the child from one state to another. */
  predicate Moves(plan: Plan, id: Id, from: Action, to: Action) {
    && from != to
    && (id in plan.insertRelation <==> IsActive(to) && !IsActive(from))
    && (id in plan.deleteRelation <==> IsActive(from) && !IsActive(to))
    && (id in plan.deletePending <==> IsPending(from))
    && (if IsPending(to) then id in plan.insertPending && plan.insertPending[id] == to else id !in plan.insertPending)
    && (if to != NoRelation then id in plan.changed && plan.changed[id] == to else id !in plan.changed)
  }

  /** What the plan holds for a child follows from the rules: it moves, or has no place in the plan. */
  predicate FollowsRules(plan: Plan, parent: Id, id: Id, state: StateInfo, decision: Decision) {
    && id in plan.results
    && if id == parent then plan.results[id] == Invalid && Untouched(plan, id) && id !in plan.checkCycle else
         match decision
         case Refuse(result, missing) =>
           plan.results[id] == result && Untouched(plan, id) && id !in plan.checkCycle &&
           (result == ApprovalsMissing ==> id in plan.approvalsToRequest && plan.approvalsToRequest[id] == missing)
         case Keep => plan.results[id] == Unchanged && Untouched(plan, id) && id !in plan.checkCycle
         case Move(to) =>
           plan.results[id] == Success && Moves(plan, id, state.action, to) &&
           (id in plan.checkCycle <==> !IsActive(state.action) && (IsActive(to) || IsPending(to)))
  }

  function StateFor(states: map<Id, StateInfo>, id: Id): StateInfo {
    Get(states, id, StateInfo(NoRelation, NO_APPROVALS))
  }

  /** The decision for each child, whatever the other children are. */
  function DecisionFor(id: Id, states: map<Id, StateInfo>, required: Approvals, approvals: map<Id, Approvals>,
                       action: TransitionAction): Decision {
    Decide(action, StateFor(states, id), required, Get(approvals, id, NO_APPROVALS))
  }

  /** One iteration of the loop over the children */
  function PlanChild(plan: Plan, parent: Id, id: Id, from: Action, decision: Decision): Plan {
    if id == parent then plan.(results := plan.results[id := Invalid]) else
      match decision
      case Refuse(result, missing) =>
        plan.(results := plan.results[id := result],
              approvalsToRequest := if missing != NO_APPROVALS then plan.approvalsToRequest[id := missing]
                else plan.approvalsToRequest)
      case Keep => BuildOneTransition(plan, id, from, from)
      case Move(to) => BuildOneTransition(plan, id, from, to)
  }

  /** Two plans hold the same for a child. */
  predicate SameFor(plan: Plan, other: Plan, id: Id) {
    && (id in plan.results <==> id in other.results)
    && (id in plan.results ==> plan.results[id] == other.results[id])
    && (id in plan.checkCycle <==> id in other.checkCycle)
    && (id in plan.insertRelation <==> id in other.insertRelation)
    && (id in plan.deleteRelation <==> id in other.deleteRelation)
    && (id in plan.deletePending <==> id in other.deletePending)
    && (id in plan.insertPending <==> id in other.insertPending)
    && (id in plan.insertPending ==> plan.insertPending[id] == other.insertPending[id])
    && (id in plan.changed <==> id in other.changed)
    && (id in plan.changed ==> plan.changed[id] == other.changed[id])
    && (id in plan.approvalsToRequest <==> id in other.approvalsToRequest)
    && (id in plan.approvalsToRequest ==> plan.approvalsToRequest[id] == other.approvalsToRequest[id])
  }

  /** Decisions name another state when they move a child and missing approvals when they refuse it for that reason. */
  predicate Sensible(from: Action, decision: Decision) {
    && (decision.Move? ==> decision.target != from)
    && (decision.Refuse? ==>
          && (decision.result == ApprovalsMissing <==> decision.missing != NO_APPROVALS)
          && decision.result in {Invalid, ApprovalsMissing})
  }

  lemma DecisionsAreSensible(action: TransitionAction, state: StateInfo, required: Approvals, given: Approvals)
    ensures Sensible(state.action, Decide(action, state, required, given))
  {
  }

  lemma PlanningAChild(plan: Plan, parent: Id, id: Id, state: StateInfo, decision: Decision)
    requires Sensible(state.action, decision)
    requires Untouched(plan, id) && id !in plan.checkCycle
    ensures FollowsRules(PlanChild(plan, parent, id, state.action, decision), parent, id, state, decision)
    ensures forall other :: other != id ==> SameFor(plan, PlanChild(plan, parent, id, state.action, decision), other)
  {
  }

  /** A child that is listed again is planned the same way again. */
  lemma PlanningAChildAgain(plan: Plan, parent: Id, id: Id, state: StateInfo, decision: Decision)
    requires Sensible(state.action, decision)
    requires FollowsRules(plan, parent, id, state, decision)
    ensures PlanChild(plan, parent, id, state.action, decision) == plan
  {
  }

  /** A listed child is planned as the rules say, any other child has no place in the plan. */
  predicate EntryIsRight(plan: Plan, parent: Id, id: Id, listed: bool, state: StateInfo, decision: Decision) {
    && (id in plan.results <==> listed)
    && (if listed then FollowsRules(plan, parent, id, state, decision)
        else Untouched(plan, id) && id !in plan.checkCycle)
    && (id in plan.approvalsToRequest ==> listed && plan.results[id] == ApprovalsMissing)
  }

  ghost predicate PlanIsRight(plan: Plan, parent: Id, ids: set<Id>, states: map<Id, StateInfo>, required: Approvals,
                              approvals: map<Id, Approvals>, action: TransitionAction) {
    forall id :: EntryIsRight(plan, parent, id, id in ids, StateFor(states, id),
                              DecisionFor(id, states, required, approvals, action))
  }

  lemma PlanningKeepsRight(plan: Plan, parent: Id, ids: set<Id>, id: Id, states: map<Id, StateInfo>,
                           required: Approvals, approvals: map<Id, Approvals>, action: TransitionAction, next: Plan)
    requires PlanIsRight(plan, parent, ids, states, required, approvals, action)
    requires next == PlanChild(plan, parent, id, StateFor(states, id).action,
                               DecisionFor(id, states, required, approvals, action))
    ensures PlanIsRight(next, parent, ids + {id}, states, required, approvals, action)
  {
    var state, decision := StateFor(states, id), DecisionFor(id, states, required, approvals, action);
    DecisionsAreSensible(action, state, required, Get(approvals, id, NO_APPROVALS));
    assert EntryIsRight(plan, parent, id, id in ids, state, decision);
    if id in ids {
      PlanningAChildAgain(plan, parent, id, state, decision);
      assert ids + {id} == ids;
    } else {
      PlanningAChild(plan, parent, id, state, decision);
      forall other
        ensures EntryIsRight(next, parent, other, other in ids + {id}, StateFor(states, other),
                             DecisionFor(other, states, required, approvals, action))
      {
        EntryCarriesOver(plan, parent, ids, id, other, states, required, approvals, action, next);
      }
    }
  }

  lemma EntryCarriesOver(plan: Plan, parent: Id, ids: set<Id>, id: Id, other: Id, states: map<Id, StateInfo>,
                         required: Approvals, approvals: map<Id, Approvals>, action: TransitionAction, next: Plan)
    requires var decision := DecisionFor(other, states, required, approvals, action);
             EntryIsRight(plan, parent, other, other in ids, StateFor(states, other), decision)
    requires other != id ==> SameFor(plan, next, other)
    requires other == id ==> EntryIsRight(next, parent, id, true, StateFor(states, id),
                                          DecisionFor(id, states, required, approvals, action))
    ensures EntryIsRight(next, parent, other, other in ids + {id}, StateFor(states, other),
                         DecisionFor(other, states, required, approvals, action))
  {
  }

  function Listed(children: seq<Id>): set<Id> {
    set id | id in children
  }

  method BuildTransitionsPlan(parent: Id, children: seq<Id>, states: map<Id, StateInfo>, required: Approvals,
                              approvals: map<Id, Approvals>, action: TransitionAction) returns (plan: Plan)
    ensures PlanIsRight(plan, parent, Listed(children), states, required, approvals, action)
  {
    plan := EMPTY_PLAN;
    for k := 0 to |children|
      invariant PlanIsRight(plan, parent, Listed(children[..k]), states, required, approvals, action)
    {
      var id := children[k];
      var next := PlanChild(plan, parent, id, StateFor(states, id).action,
                            DecisionFor(id, states, required, approvals, action));
      PlanningKeepsRight(plan, parent, Listed(children[..k]), id, states, required, approvals, action, next);
      assert children[..k + 1] == children[..k] + [id];
      assert Listed(children[..k + 1]) == Listed(children[..k]) + {id};
      plan := next;
    }
    assert children[..|children|] == children;
  }

  // ---------- What carrying out a plan does to one child ----------

  /** `group_pending_requests.type` */
  datatype PendingKind = Invitation | JoinRequest | LeaveRequest

  /** The state read back from the tables: an active relation and a pending request, concatenated */
  function StateName(active: bool, pending: Option<PendingKind>): Action {
    match (active, pending)
    case (true, None) => IsMember
    case (true, Some(LeaveRequest)) => LeaveRequestCreated
    case (true, Some(Invitation)) => MemberWithInvitation
    case (true, Some(JoinRequest)) => MemberWithJoinRequest
    case (false, None) => NoRelation
    case (false, Some(Invitation)) => InvitationCreated
    case (false, Some(JoinRequest)) => JoinRequestCreated
    case (false, Some(LeaveRequest)) => LeaveRequestExpired
  }

  /** The state a target stands for once the change has been made */
  function Settled(target: Action): Action {
    if target in {InvitationCreated, JoinRequestCreated, LeaveRequestCreated} then target
    else if IsActive(target) then IsMember
    else NoRelation
  }

  /** The part of the action's name after its last comma */
  function JournalName(action: Action): Action {
    if action == LeaveRequestCreated then LeaveRequestExpired else action
  }

  /** PendingType */
  function PendingType(action: Action): PendingKind
    requires IsPending(action) && action != LeaveRequestExpired
  {
    match action
    case InvitationCreated => Invitation
    case JoinRequestCreated => JoinRequest
    case LeaveRequestCreated => LeaveRequest
  }

  predicate MayBeTarget(action: TransitionAction, from: Action, to: Action) {
    from != to && from in Transition(action) &&
    (to == Transition(action)[from] || (to == DowngradeTo(action) && DowngradeTo(action) != NoRelation))
  }

  lemma MovesFollowTable(action: TransitionAction, state: StateInfo, required: Approvals, given: Approvals)
    ensures var decision := Decide(action, state, required, given);
            decision.Move? ==> MayBeTarget(action, state.action, decision.target)
  {
  }

  /** Without a downgrade the table's target is final; a downgrade replaces a membership the approvals do not allow. */
  lemma DecisionMeaning(action: TransitionAction, state: StateInfo, required: Approvals, given: Approvals)
    ensures var decision := Decide(action, state, required, given);
            var approved := MissingApprovals(state, required, given) == NO_APPROVALS;
            && (decision == Refuse(Invalid, NO_APPROVALS) <==> state.action !in Transition(action))
            && (approved && state.action in Transition(action) ==>
                  decision == if Transition(action)[state.action] == state.action then Keep
                    else Move(Transition(action)[state.action]))
            && (!approved && decision.Move? && !IsActive(state.action) ==>
                !IsActive(decision.target) && decision.target != JoinRequestCreated)
  {
  }

  /** Deleting, inserting and upserting what the plan says leaves a child in the state its target stands for. */
  lemma MoveSettles(action: TransitionAction, active: bool, pending: Option<PendingKind>, to: Action, plan: Plan,
                    id: Id)
    requires MayBeTarget(action, StateName(active, pending), to)
    requires Moves(plan, id, StateName(active, pending), to)
    ensures id in plan.insertPending ==>
              IsPending(plan.insertPending[id]) && plan.insertPending[id] != LeaveRequestExpired &&
              (pending.Some? ==> id in plan.deletePending)
    ensures var activeAfter := id in plan.insertRelation || (active && id !in plan.deleteRelation);
            var pendingAfter := if id in plan.insertPending then Some(PendingType(plan.insertPending[id]))
                                else if id in plan.deletePending then None else pending;
            StateName(activeAfter, pendingAfter) == Settled(to)
  {
    hide Transition, DowngradeTo, MayBeTarget;
    TableTargets(action, StateName(active, pending), to);
  }

  lemma TableTargets(action: TransitionAction, from: Action, to: Action)
    requires MayBeTarget(action, from, to)
    ensures to !in {LeaveRequestExpired, MemberWithInvitation, MemberWithJoinRequest}
    ensures from !in {MemberWithInvitation, MemberWithJoinRequest}
  {
  }

  // ---------- Places taken in a group ----------

  /** A member or an invitation takes a place. */
  predicate TakesPlace(state: Action) {
    state in {IsMember, LeaveRequestCreated, InvitationCreated, MemberWithInvitation, MemberWithJoinRequest}
  }

  /** The actions for which enforceMaxSize checks the limit */
  predicate ChecksLimit(action: TransitionAction) {
    action in {UserJoinsGroupByBadge, UserJoinsGroupByCode, UserCreatesJoinRequest, UserCreatesAcceptedJoinRequest,
               AdminCreatesInvitation, AdminAcceptsJoinRequest}
  }

  lemma OutsidersStayOutside(action: TransitionAction, from: Action, to: Action)
    requires !ChecksLimit(action) && MayBeTarget(action, from, to)
    requires from !in {IsMember, LeaveRequestCreated, InvitationCreated}
    ensures !IsActive(to) && to !in {InvitationCreated, LeaveRequestCreated}
  {
  }

  /** The actions that are not checked never take a new place: whoever takes one afterwards took it before. */
  lemma UncheckedActionsTakeNoPlace(action: TransitionAction, from: Action, to: Action)
    requires !ChecksLimit(action) && MayBeTarget(action, from, to)
    ensures TakesPlace(Settled(to)) ==> TakesPlace(from)
  {
    if from !in {IsMember, LeaveRequestCreated, InvitationCreated} {
      OutsidersStayOutside(action, from, to);
    }
  }

  /** For the actions that are checked, the count over the changed ids is the number of places they take afterwards. */
  lemma CheckedActionsCountPlaces(action: TransitionAction, from: Action, to: Action)
    requires ChecksLimit(action) && MayBeTarget(action, from, to)
    ensures to != NoRelation
    ensures TakesPlace(Settled(to)) <==> IsActive(to) || to == InvitationCreated
  {
  }
}
