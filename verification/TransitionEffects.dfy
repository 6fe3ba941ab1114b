/** What each membership action is for: from which states it is possible, what it makes of a pair, when it asks for
    approvals, and what it leaves in the journal. The rules table is proved against this. */
module TransitionEffects {
  import opened Collections
  import opened Transitions

  /** Not a member: nothing, an invitation, a join request, or a leave request whose membership has expired */
  predicate IsOutside(state: Action) {
    state in {NoRelation, InvitationCreated, JoinRequestCreated, LeaveRequestExpired}
  }

  /** A member, possibly with a leave request */
  predicate IsInside(state: Action) {
    state in {IsMember, LeaveRequestCreated}
  }

  /** The action takes what it answers, or somebody who is not a member, or somebody who is. */
  predicate MayStart(action: TransitionAction, state: Action) {
    match action
    case UserAcceptsInvitation | UserRefusesInvitation | AdminWithdrawsInvitation => state == InvitationCreated
    case AdminAcceptsJoinRequest | AdminRefusesJoinRequest | UserCancelsJoinRequest => state == JoinRequestCreated
    case AdminAcceptsLeaveRequest | AdminRefusesLeaveRequest | UserCancelsLeaveRequest => state == LeaveRequestCreated
    case AdminRemovesUser | UserLeavesGroup | UserCreatesLeaveRequest => IsInside(state)
    case AdminRemovesDirectRelation => state == NoRelation || IsInside(state)
    case UserCreatesJoinRequest => IsOutside(state) && state != InvitationCreated
    case AdminCreatesInvitation | UserCreatesAcceptedJoinRequest | UserJoinsGroupByBadge | UserJoinsGroupByCode =>
      IsOutside(state)
    case AdminStrengthensApprovalWithEmpty | AdminStrengthensApprovalWithReinvite => IsOutside(state) || IsInside(state)
  }

  /** The state after the action: neither relation nor pending request after refusing, withdrawing, cancelling a join
      request, removing, leaving and emptying; membership after joining and accepting, and after leave requests that
      come to nothing. An invitation answers a join request, unless approvals are missing; re-inviting takes away what
      is not a plain membership or an invitation. */
  function Outcome(action: TransitionAction, state: Action, approved: bool): Action {
    match action
    case UserRefusesInvitation | AdminWithdrawsInvitation => NoRelation
    case AdminRefusesJoinRequest | UserCancelsJoinRequest => NoRelation
    case AdminAcceptsLeaveRequest | AdminRemovesUser | UserLeavesGroup | AdminRemovesDirectRelation => NoRelation
    case AdminStrengthensApprovalWithEmpty => NoRelation
    case UserAcceptsInvitation | AdminAcceptsJoinRequest | UserCreatesAcceptedJoinRequest => IsMember
    case UserJoinsGroupByBadge | UserJoinsGroupByCode => IsMember
    case AdminRefusesLeaveRequest | UserCancelsLeaveRequest => IsMember
    case UserCreatesJoinRequest => JoinRequestCreated
    case UserCreatesLeaveRequest => LeaveRequestCreated
    case AdminCreatesInvitation => if state == JoinRequestCreated && approved then IsMember else InvitationCreated
    case AdminStrengthensApprovalWithReinvite =>
      if state == IsMember || state == InvitationCreated then InvitationCreated else NoRelation
  }

  /** Approvals are needed by whoever becomes a member and by join requests. */
  predicate NeedsApprovals(action: TransitionAction, state: Action) {
    action == UserCreatesJoinRequest || (IsOutside(state) && Outcome(action, state, true) == IsMember)
  }

  predicate IsGiven(state: StateInfo, given: Approvals, approval: Approvals -> bool) {
    approval(if state.action == JoinRequestCreated then state.approvals else given)
  }

  /** A required approval is missing when neither the join request holds it nor, without one, the caller gives it. */
  predicate IsMissing(state: StateInfo, required: Approvals, given: Approvals, approval: Approvals -> bool) {
    approval(required) && !IsGiven(state, given, approval)
  }

  predicate IsApproved(state: StateInfo, required: Approvals, given: Approvals) {
    && !IsMissing(state, required, given, (a: Approvals) => a.personalInfoView)
    && !IsMissing(state, required, given, (a: Approvals) => a.lockMembership)
    && !IsMissing(state, required, given, (a: Approvals) => a.watch)
  }

  predicate LacksApprovals(action: TransitionAction, state: StateInfo, required: Approvals, given: Approvals) {
    action != AdminCreatesInvitation && NeedsApprovals(action, state.action) && !IsApproved(state, required, given)
  }

  /** The entry in the journal, if there is one. A new leave request is journalled under the name that the state of an
      expired one has. */
  function Recorded(action: TransitionAction, state: Action, approved: bool): Option<Action> {
    match action
    case UserAcceptsInvitation => Some(InvitationAccepted)
    case UserRefusesInvitation => Some(InvitationRefused)
    case AdminWithdrawsInvitation => Some(InvitationWithdrawn)
    case AdminAcceptsJoinRequest => Some(JoinRequestAccepted)
    case UserCreatesAcceptedJoinRequest => Some(JoinRequestAccepted)
    case AdminRefusesJoinRequest => Some(JoinRequestRefused)
    case UserCancelsJoinRequest => Some(JoinRequestWithdrawn)
    case AdminAcceptsLeaveRequest => Some(LeaveRequestAccepted)
    case AdminRefusesLeaveRequest => Some(LeaveRequestRefused)
    case UserCancelsLeaveRequest => Some(LeaveRequestWithdrawn)
    case AdminRemovesUser => Some(Removed)
    case UserLeavesGroup => Some(Left)
    case UserJoinsGroupByBadge => Some(JoinedByBadge)
    case UserJoinsGroupByCode => Some(JoinedByCode)
    case UserCreatesJoinRequest => Some(JoinRequestCreated)
    case UserCreatesLeaveRequest => Some(LeaveRequestExpired)
    case AdminRemovesDirectRelation => None
    case AdminCreatesInvitation =>
      Some(if state == JoinRequestCreated && approved then JoinRequestAccepted else InvitationCreated)
    case AdminStrengthensApprovalWithEmpty =>
      if IsInside(state) || state == LeaveRequestExpired then Some(RemovedDueToApprovalChange) else None
    case AdminStrengthensApprovalWithReinvite =>
      if state == IsMember then Some(InvitationCreated)
      else if state in {LeaveRequestCreated, LeaveRequestExpired} then Some(RemovedDueToApprovalChange)
      else None
  }

  /** What the rules decide about a child is what the action is for. */
  ghost predicate IsMeant(action: TransitionAction, state: StateInfo, required: Approvals, given: Approvals,
                          decision: Decision) {
    var approved := IsApproved(state, required, given);
    if !MayStart(action, state.action) then decision == Refuse(Invalid, NO_APPROVALS)
    else if LacksApprovals(action, state, required, given) then
      && decision.Refuse? && decision.result == ApprovalsMissing
      && AreMissing(decision.missing, state, required, given)
    else if Outcome(action, state.action, approved) == state.action then decision == Keep
    else
      && decision.Move? && Settled(decision.target) == Outcome(action, state.action, approved)
      && (match Recorded(action, state.action, approved)
          case None => decision.target == NoRelation
          case Some(name) => decision.target != NoRelation && JournalName(decision.target) == name)
  }

  predicate AreMissing(missing: Approvals, state: StateInfo, required: Approvals, given: Approvals) {
    && missing.personalInfoView == IsMissing(state, required, given, (a: Approvals) => a.personalInfoView)
    && missing.lockMembership == IsMissing(state, required, given, (a: Approvals) => a.lockMembership)
    && missing.watch == IsMissing(state, required, given, (a: Approvals) => a.watch)
  }

  lemma MissingMeaning(state: StateInfo, required: Approvals, given: Approvals)
    ensures var missing := MissingApprovals(state, required, given);
            AreMissing(missing, state, required, given) &&
            (missing == NO_APPROVALS <==> IsApproved(state, required, given))
  {
  }

  /** The target of the rules table stands for the outcome of the action, with the right entry in the journal. */
  predicate TargetIsMeant(action: TransitionAction, state: Action, to: Action) {
    if to == state then Outcome(action, state, true) == state else
      && Outcome(action, state, true) != state && Settled(to) == Outcome(action, state, true)
      && Recorded(action, state, true) == if to == NoRelation then None else Some(JournalName(to))
  }

  /** The rules table knows the state exactly if the action may start from it, and then holds the right target. */
  predicate EntryIsMeant(action: TransitionAction, state: Action) {
    && (state in Transition(action) <==> MayStart(action, state))
    && (state in Transition(action) ==>
          var to := Transition(action)[state];
          && TargetIsMeant(action, state, to)
          && ((IsActive(to) && !IsActive(state)) || HasApprovals(to) <==> NeedsApprovals(action, state)))
  }

  lemma InvitationAnswers(action: TransitionAction, state: Action)
    requires action in {UserAcceptsInvitation, UserRefusesInvitation, AdminWithdrawsInvitation}
    ensures EntryIsMeant(action, state)
  {
  }

  lemma JoinRequestAnswers(action: TransitionAction, state: Action)
    requires action in {AdminAcceptsJoinRequest, AdminRefusesJoinRequest, UserCancelsJoinRequest}
    ensures EntryIsMeant(action, state)
  {
  }

  lemma LeaveRequestAnswers(action: TransitionAction, state: Action)
    requires action in {AdminAcceptsLeaveRequest, AdminRefusesLeaveRequest, UserCancelsLeaveRequest}
    ensures EntryIsMeant(action, state)
  {
  }

  lemma MembersLeave(action: TransitionAction, state: Action)
    requires action in {AdminRemovesUser, UserLeavesGroup}
    ensures EntryIsMeant(action, state)
  {
  }

  lemma RelationsAreLoosened(action: TransitionAction, state: Action)
    requires action in {UserCreatesLeaveRequest, AdminRemovesDirectRelation}
    ensures EntryIsMeant(action, state)
  {
  }

  lemma OthersJoin(action: TransitionAction, state: Action)
    requires action in {UserJoinsGroupByBadge, UserJoinsGroupByCode}
    ensures EntryIsMeant(action, state)
  {
  }

  lemma OwnersJoin(state: Action)
    ensures EntryIsMeant(UserCreatesAcceptedJoinRequest, state)
  {
  }

  lemma PendingIsCreated(action: TransitionAction, state: Action)
    requires action in {AdminCreatesInvitation, UserCreatesJoinRequest}
    ensures EntryIsMeant(action, state)
  {
  }

  lemma RequestsAreDropped(state: Action)
    requires IsOutside(state)
    ensures EntryIsMeant(AdminStrengthensApprovalWithEmpty, state)
  {
  }

  lemma GroupIsEmptiedOfMembers(state: Action)
    requires !IsOutside(state)
    ensures EntryIsMeant(AdminStrengthensApprovalWithEmpty, state)
  {
  }

  lemma OthersAreNotReinvited(state: Action)
    requires IsOutside(state)
    ensures EntryIsMeant(AdminStrengthensApprovalWithReinvite, state)
  {
  }

  lemma PlainMembersAreReinvited(state: Action)
    requires !IsOutside(state)
    ensures EntryIsMeant(AdminStrengthensApprovalWithReinvite, state)
  {
  }

  lemma TableEntryIsMeant(action: TransitionAction, state: Action)
    ensures EntryIsMeant(action, state)
  {
    hide EntryIsMeant;
    match action
    case UserAcceptsInvitation => InvitationAnswers(action, state);
    case UserRefusesInvitation => InvitationAnswers(action, state);
    case AdminWithdrawsInvitation => InvitationAnswers(action, state);
    case AdminAcceptsJoinRequest => JoinRequestAnswers(action, state);
    case AdminRefusesJoinRequest => JoinRequestAnswers(action, state);
    case UserCancelsJoinRequest => JoinRequestAnswers(action, state);
    case AdminAcceptsLeaveRequest => LeaveRequestAnswers(action, state);
    case AdminRefusesLeaveRequest => LeaveRequestAnswers(action, state);
    case UserCancelsLeaveRequest => LeaveRequestAnswers(action, state);
    case AdminRemovesUser => MembersLeave(action, state);
    case UserLeavesGroup => MembersLeave(action, state);
    case UserCreatesLeaveRequest => RelationsAreLoosened(action, state);
    case AdminRemovesDirectRelation => RelationsAreLoosened(action, state);
    case UserCreatesAcceptedJoinRequest => OwnersJoin(state);
    case UserJoinsGroupByBadge => OthersJoin(action, state);
    case UserJoinsGroupByCode => OthersJoin(action, state);
    case AdminCreatesInvitation => PendingIsCreated(action, state);
    case UserCreatesJoinRequest => PendingIsCreated(action, state);
    case AdminStrengthensApprovalWithEmpty =>
      if IsOutside(state) {
        RequestsAreDropped(state);
      } else {
        GroupIsEmptiedOfMembers(state);
      }
    case AdminStrengthensApprovalWithReinvite =>
      if IsOutside(state) {
        OthersAreNotReinvited(state);
      } else {
        PlainMembersAreReinvited(state);
      }
  }

  /** Approvals matter for the outcome of inviting only. */
  lemma WithoutApproval(action: TransitionAction, state: Action)
    requires MayStart(action, state)
    ensures action != AdminCreatesInvitation || !NeedsApprovals(action, state) ==>
              Outcome(action, state, false) == Outcome(action, state, true) &&
              Recorded(action, state, false) == Recorded(action, state, true)
    ensures DowngradeTo(action) == if action == AdminCreatesInvitation then InvitationCreated else NoRelation
    ensures action == AdminCreatesInvitation && NeedsApprovals(action, state) ==>
              && state == JoinRequestCreated && Outcome(action, state, false) == InvitationCreated
              && Recorded(action, state, false) == Some(InvitationCreated)
  {
  }

  /** The rules table decides as the actions are meant, for every action, state and approvals. */
  lemma TableIsMeant(action: TransitionAction, state: StateInfo, required: Approvals, given: Approvals)
    ensures IsMeant(action, state, required, given, Decide(action, state, required, given))
  {
    hide Transition, MissingApprovals, AreMissing, IsApproved, MayStart, Outcome, Recorded, DowngradeTo, NeedsApprovals;
    hide Settled, JournalName, IsActive, HasApprovals;
    MissingMeaning(state, required, given);
    TableEntryIsMeant(action, state.action);
    if MayStart(action, state.action) {
      WithoutApproval(action, state.action);
    }
    InvitationSettles();
  }

  lemma InvitationSettles()
    ensures Settled(InvitationCreated) == InvitationCreated && JournalName(InvitationCreated) == InvitationCreated
  {
  }

  /** Only joining, accepting and inviting bring anybody in, and only those become members who have an invitation or a
      request, or a badge, a code or the right to decide for themselves. */
  lemma OnlyTheseBringIn(action: TransitionAction, state: Action, approved: bool)
    requires MayStart(action, state) && IsOutside(state) && IsInside(Outcome(action, state, approved))
    ensures || action in {UserCreatesAcceptedJoinRequest, UserJoinsGroupByBadge, UserJoinsGroupByCode}
            || (action == UserAcceptsInvitation && state == InvitationCreated)
            || (action in {AdminAcceptsJoinRequest, AdminCreatesInvitation} && state == JoinRequestCreated)
  {
  }

  /** The limit is checked exactly for the actions that can give a place to somebody without one, and for join
      requests. */
  lemma LimitIsCheckedForNewPlaces(action: TransitionAction)
    ensures ChecksLimit(action) <==>
              || action == UserCreatesJoinRequest
              || exists state ::
                   MayStart(action, state) && !TakesPlace(state) && TakesPlace(Outcome(action, state, true))
  {
    if ChecksLimit(action) && action != UserCreatesJoinRequest {
      assert MayStart(action, JoinRequestCreated) && !TakesPlace(JoinRequestCreated);
      assert TakesPlace(Outcome(action, JoinRequestCreated, true));
    }
  }
}
