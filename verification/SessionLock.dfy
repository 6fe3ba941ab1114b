/** The lock that serialises token refreshes of a session, as a machine whose steps the requests take in any order:
    a shared map from sessions to channels, channels that wake their waiters by being closed, and what runs under the
    lock. */
module SessionLock {
  import opened Collections

  type Session = int
  type Token = int

  /** Where a request stands. `Reading`, `Exchanging` and `Committing` are the guarded function; `Deleting` and
      `Closing` are the deferred calls, run in this order. */
  datatype Stage =
    | Arrived
    | Trying
    | Waiting(channel: nat)
    | Reading
    | Exchanging(token: Token)
    | Committing(refreshToken: Token, accessToken: Token)
    | Deleting(answer: Option<Token>)
    | Closing(answer: Option<Token>)
    | Finished(answer: Option<Token>)

  /** A request; the channel it makes has its own number. */
  datatype Request = Request(session: Session, oldAccessToken: Token, stage: Stage)

  datatype State = State(
    requests: seq<Request>,
    inProgress: map<Session, nat>,         // sessionIDsInProgress: the channel stored for a session
    closed: set<nat>,                      // channels closed so far
    refreshTokens: map<Session, Token>,    // sessions.refresh_token; none means ""
    mostRecent: map<Session, Token>,       // access_tokens: the most recent valid one
    accepted: map<Session, Token>,         // the refresh token the login module accepts
    nextToken: Token,
    outOfStep: set<Session>)               // sessions whose rotated refresh token never reached the database

  datatype Event =
    | ReadMostRecent(tooNewToRefresh: bool)
    | LoadOrStore
    | Wake
    | Cancel
    | ReadRefreshToken
    | Exchange(reached: bool, answered: bool, rotates: bool)
    | Commit(succeeds: bool)
    | Delete
    | Close

  function MoveTo(s: State, r: nat, stage: Stage): State
    requires r < |s.requests|
  {
    s.(requests := s.requests[r := s.requests[r].(stage := stage)])
  }

  /** The login module: it accepts only the current refresh token, and may replace and revoke it. The answer may get
      lost. */
  function ExchangeToken(s: State, r: nat, token: Token, reached: bool, answered: bool, rotates: bool): State
    requires r < |s.requests|
  {
    var session := s.requests[r].session;
    if !reached || session !in s.accepted || s.accepted[session] != token then MoveTo(s, r, Deleting(None)) else
      var newToken := if rotates then s.nextToken else token;
      var exchanged := s.(accepted := s.accepted[session := newToken], nextToken := s.nextToken + 2);
      if answered then MoveTo(exchanged, r, Committing(newToken, s.nextToken + 1))
      else MoveTo(if rotates then exchanged.(outOfStep := s.outOfStep + {session}) else exchanged, r, Deleting(None))
  }

  function CommitTokens(s: State, r: nat, refreshToken: Token, accessToken: Token, succeeds: bool): State
    requires r < |s.requests|
  {
    var session := s.requests[r].session;
    if succeeds then
      MoveTo(s.(refreshTokens := s.refreshTokens[session := refreshToken], mostRecent :=
                s.mostRecent[session := accessToken]), r, Deleting(Some(accessToken)))
    else if session in s.refreshTokens && s.refreshTokens[session] == refreshToken then MoveTo(s, r, Deleting(None))
    else MoveTo(s.(outOfStep := s.outOfStep + {session}), r, Deleting(None))
  }

  /** The state after one atomic step of request `r`; None when it cannot take this step now. */
  function Step(s: State, r: nat, event: Event): Option<State>
    requires r < |s.requests|
  {
    var request := s.requests[r];
    var session := request.session;
    match (request.stage, event)
    case (Arrived, ReadMostRecent(tooNew)) =>
      var recent := if session in s.mostRecent then Some(s.mostRecent[session]) else None;
      Some(MoveTo(s, r, if recent != Some(request.oldAccessToken) || tooNew then Finished(recent) else Trying))
    case (Trying, LoadOrStore) =>
      if session in s.inProgress then Some(MoveTo(s, r, Waiting(s.inProgress[session])))
      else Some(MoveTo(s.(inProgress := s.inProgress[session := r]), r, Reading))
    case (Waiting(channel), Wake) => if channel in s.closed then Some(MoveTo(s, r, Trying)) else None
    case (Waiting(_), Cancel) => Some(MoveTo(s, r, Closing(None)))
    case (Reading, ReadRefreshToken) =>
      Some(MoveTo(s, r, if session in s.refreshTokens then Exchanging(s.refreshTokens[session]) else Deleting(None)))
    case (Exchanging(token), Exchange(reached, answered, rotates)) => Some(ExchangeToken(s, r, token, reached, answered,
                                                                                         rotates))
    case (Committing(refreshToken, accessToken),
          Commit(succeeds)) => Some(CommitTokens(s, r, refreshToken, accessToken, succeeds))
    case (Deleting(answer), Delete) => Some(MoveTo(s.(inProgress := s.inProgress - {session}), r, Closing(answer)))
    case (Closing(answer), Close) => Some(MoveTo(s.(closed := s.closed + {r}), r, Finished(answer)))
    case _ => None
  }

  // ---------- Runs ----------

  ghost predicate Starts(s: State) {
    && (forall r :: 0 <= r < |s.requests| ==> s.requests[r].stage == Arrived)
    && s.inProgress == map[] && s.closed == {} && s.outOfStep == {}
    && s.accepted == s.refreshTokens
  }

  ghost predicate IsStep(before: State, after: State) {
    exists r: nat, event :: r < |before.requests| && Step(before, r, event) == Some(after)
  }

  ghost predicate IsRun(run: seq<State>) {
    run != [] && Starts(run[0]) && forall i :: 0 <= i < |run| - 1 ==> IsStep(run[i], run[i + 1])
  }

  // ---------- What every step keeps ----------

  predicate Holds(stage: Stage) {
    stage.Reading? || stage.Exchanging? || stage.Committing? || stage.Deleting?
  }

  predicate WillClose(stage: Stage) {
    Holds(stage) || stage.Closing?
  }

  /** The map holds exactly the requests that hold the lock, each under its own session. */
  ghost predicate LockIsExact(s: State) {
    && (forall i :: i in s.inProgress ==> s.inProgress[i] < |s.requests| && s.requests[s.inProgress[i]].session == i &&
                                          Holds(s.requests[s.inProgress[i]].stage))
    && forall r :: 0 <= r < |s.requests| && Holds(s.requests[r].stage) ==>
         s.requests[r].session in s.inProgress && s.inProgress[s.requests[r].session] == r
  }

  /** Every channel waited for is closed, or owned by a request of the same session that has yet to close it. */
  ghost predicate WaitersAreSafe(s: State) {
    && (forall r :: r in s.closed ==> r < |s.requests| && s.requests[r].stage.Finished?)
    && forall r :: 0 <= r < |s.requests| && s.requests[r].stage.Waiting? ==>
         IsSafeToWait(s, r, s.requests[r].stage.channel)
  }

  ghost predicate IsSafeToWait(s: State, r: nat, channel: nat)
    requires r < |s.requests|
  {
    && channel < |s.requests| && s.requests[channel].session == s.requests[r].session
    && (channel in s.closed || WillClose(s.requests[channel].stage))
  }

  /** Except between exchange and commit, and for sessions whose new token got lost, the database has the accepted
      refresh token. */
  ghost predicate TokensAgree(s: State) {
    && (forall r :: 0 <= r < |s.requests| ==> TokenFits(s, s.requests[r]))
    && forall i :: i !in s.outOfStep && i in s.refreshTokens ==>
         i in s.accepted && (IsCommitting(s, i) || s.accepted[i] == s.refreshTokens[i])
  }

  predicate IsCommitting(s: State, session: Session) {
    session in s.inProgress && s.inProgress[session] < |s.requests| &&
      s.requests[s.inProgress[session]].stage.Committing?
  }

  ghost predicate TokenFits(s: State, request: Request) {
    && (request.stage.Exchanging? ==>
        request.session in s.refreshTokens && s.refreshTokens[request.session] == request.stage.token)
    && (request.stage.Committing? && request.session !in s.outOfStep ==>
          request.session in s.accepted && s.accepted[request.session] == request.stage.refreshToken)
  }

  ghost predicate Invariant(s: State) {
    LockIsExact(s) && WaitersAreSafe(s) && TokensAgree(s)
  }

  /** A step changes one request, and the map only where that request takes or gives back the lock of its session. */
  ghost predicate ChangesOne(s: State, r: nat, after: State)
    requires r < |s.requests|
  {
    && |after.requests| == |s.requests| && after.requests == s.requests[r := after.requests[r]]
    && after.requests[r].session == s.requests[r].session
    && var session, held, holds := s.requests[r].session, Holds(s.requests[r].stage), Holds(after.requests[r].stage);
       if held == holds then after.inProgress == s.inProgress
       else if holds then session !in s.inProgress && after.inProgress == s.inProgress[session := r]
       else after.inProgress == s.inProgress - {session}
  }

  /** A step closes at most the request's own channel, as its last step, and waits only for what the map holds. */
  ghost predicate ClosesOwn(s: State, r: nat, after: State)
    requires r < |s.requests| && |after.requests| == |s.requests|
  {
    var before, stage := s.requests[r].stage, after.requests[r].stage;
    && after.closed == (if before.Closing? then s.closed + {r} else s.closed)
    && !before.Finished? && (before.Closing? ==> stage.Finished?) &&
       (WillClose(before) && !WillClose(stage) ==> before.Closing?)
    && (stage.Waiting? ==>
          s.requests[r].session in s.inProgress && stage.channel == s.inProgress[s.requests[r].session])
  }

  lemma StepsChangeOne(s: State, r: nat, event: Event, after: State)
    requires r < |s.requests| && Step(s, r, event) == Some(after)
    ensures ChangesOne(s, r, after) && ClosesOwn(s, r, after)
  {
    OthersStayAlike(s, r, event, after);
    StepsCloseOwn(s, r, event, after);
  }

  lemma OthersStayAlike(s: State, r: nat, event: Event, after: State)
    requires r < |s.requests| && Step(s, r, event) == Some(after)
    ensures ChangesOne(s, r, after)
  {
    match event
    case ReadMostRecent(_) =>
    case LoadOrStore =>
    case Wake =>
    case Cancel =>
    case ReadRefreshToken =>
    case Exchange(_, _, _) =>
    case Commit(_) =>
    case Delete =>
    case Close =>
  }

  lemma StepsCloseOwn(s: State, r: nat, event: Event, after: State)
    requires r < |s.requests| && Step(s, r, event) == Some(after)
    ensures |after.requests| == |s.requests| && ClosesOwn(s, r, after)
  {
    match event
    case ReadMostRecent(_) =>
    case LoadOrStore =>
    case Wake =>
    case Cancel =>
    case ReadRefreshToken =>
    case Exchange(_, _, _) =>
    case Commit(_) =>
    case Delete =>
    case Close =>
  }

  lemma StepsKeepLock(s: State, r: nat, event: Event, after: State)
    requires r < |s.requests| && Step(s, r, event) == Some(after) && LockIsExact(s)
    ensures LockIsExact(after)
  {
    StepsChangeOne(s, r, event, after);
    hide Step, Holds;
  }

  lemma StepsKeepWaitersSafe(s: State, r: nat, event: Event, after: State)
    requires r < |s.requests| && Step(s, r, event) == Some(after) && LockIsExact(s) && WaitersAreSafe(s)
    ensures WaitersAreSafe(after)
  {
    StepsChangeOne(s, r, event, after);
    hide Step, Holds;
  }

  /** A step that touches no token keeps the agreement. */
  lemma OtherStepsKeepTokens(s: State, r: nat, after: State)
    requires r < |s.requests| && ChangesOne(s, r, after) && LockIsExact(s) && TokensAgree(s)
    requires after.refreshTokens == s.refreshTokens && after.accepted == s.accepted && after.outOfStep == s.outOfStep
    requires !s.requests[r].stage.Committing? && !after.requests[r].stage.Committing?
    requires TokenFits(after, after.requests[r])
    ensures TokensAgree(after)
  {
    forall q | 0 <= q < |s.requests|
      ensures TokenFits(after, after.requests[q])
    {
      assert TokenFits(s, s.requests[q]);
    }
    hide TokenFits;
    forall i
      ensures IsCommitting(s, i) ==> IsCommitting(after, i)
    {
    }
  }

  lemma ExchangesKeepTokens(s: State, r: nat, token: Token, reached: bool, answered: bool, rotates: bool, after: State)
    requires r < |s.requests| && s.requests[r].stage == Exchanging(token) && LockIsExact(s) && TokensAgree(s)
    requires after == ExchangeToken(s, r, token, reached, answered, rotates)
    ensures TokensAgree(after)
  {
    var session := s.requests[r].session;
    assert TokenFits(s, s.requests[r]) && s.inProgress[session] == r;
    forall q | 0 <= q < |s.requests|
      ensures TokenFits(after, after.requests[q])
    {
      assert TokenFits(s, s.requests[q]);
    }
    hide TokenFits;
    forall i | i != session
      ensures IsCommitting(s, i) ==> IsCommitting(after, i)
    {
    }
  }

  lemma CommitsKeepTokens(s: State, r: nat, refreshToken: Token, accessToken: Token, succeeds: bool, after: State)
    requires r < |s.requests| && s.requests[r].stage == Committing(refreshToken, accessToken) && LockIsExact(s)
    requires TokensAgree(s)
    requires after == CommitTokens(s, r, refreshToken, accessToken, succeeds)
    ensures TokensAgree(after)
  {
    var session := s.requests[r].session;
    assert TokenFits(s, s.requests[r]) && s.inProgress[session] == r;
    forall q | 0 <= q < |s.requests|
      ensures TokenFits(after, after.requests[q])
    {
      assert TokenFits(s, s.requests[q]);
    }
    hide TokenFits;
    forall i | i != session
      ensures IsCommitting(s, i) ==> IsCommitting(after, i)
    {
    }
  }

  lemma StepsKeepTokens(s: State, r: nat, event: Event, after: State)
    requires r < |s.requests| && Step(s, r, event) == Some(after) && LockIsExact(s) && TokensAgree(s)
    ensures TokensAgree(after)
  {
    StepsChangeOne(s, r, event, after);
    hide TokensAgree, LockIsExact, ChangesOne, ClosesOwn;
    match event
    case Exchange(reached, answered, rotates) => ExchangesKeepTokens(s, r, s.requests[r].stage.token, reached, answered,
                                                                     rotates, after);
    case Commit(succeeds) =>
      CommitsKeepTokens(s, r, s.requests[r].stage.refreshToken, s.requests[r].stage.accessToken, succeeds, after);
    case _ => OtherStepsKeepTokens(s, r, after);
  }

  lemma {:induction false} RunsKeepInvariant(run: seq<State>, i: nat)
    requires IsRun(run) && i < |run|
    ensures Invariant(run[i])
  {
    if i > 0 {
      RunsKeepInvariant(run, i - 1);
      assert IsStep(run[i - 1], run[i - 1 + 1]);
      var r: nat, event :| r < |run[i - 1].requests| && Step(run[i - 1], r, event) == Some(run[i]);
      StepsKeepLock(run[i - 1], r, event, run[i]);
      StepsKeepWaitersSafe(run[i - 1], r, event, run[i]);
      StepsKeepTokens(run[i - 1], r, event, run[i]);
    }
  }

  // ---------- What follows for every run ----------

  /** At most one request of a session runs the guarded function. */
  lemma MutualExclusion(run: seq<State>, i: nat, r: nat, q: nat)
    requires IsRun(run) && i < |run| && r < |run[i].requests| && q < |run[i].requests|
    requires Holds(run[i].requests[r].stage) && Holds(run[i].requests[q].stage)
    ensures run[i].requests[r].session == run[i].requests[q].session ==> r == q
  {
    RunsKeepInvariant(run, i);
  }

  /** The deferred Delete removes the entry of its own request and no other. */
  lemma DeleteRemovesOwnEntry(run: seq<State>, i: nat, r: nat, after: State)
    requires IsRun(run) && i < |run| && r < |run[i].requests| && Step(run[i], r, Delete) == Some(after)
    ensures var session := run[i].requests[r].session;
            && session in run[i].inProgress && run[i].inProgress[session] == r
            && forall s :: s in after.inProgress <==> s in run[i].inProgress && run[i].inProgress[s] != r
  {
    RunsKeepInvariant(run, i);
    assert run[i].requests[r].stage.Deleting?;
  }

  /** No wake-up is lost: a waiting request can go on, or the one it waits for is of the same session, does not wait
      itself and has yet to close the channel. */
  lemma NoLostWakeUp(run: seq<State>, i: nat, r: nat)
    requires IsRun(run) && i < |run| && r < |run[i].requests| && run[i].requests[r].stage.Waiting?
    ensures var channel := run[i].requests[r].stage.channel;
            && channel < |run[i].requests| && run[i].requests[channel].session == run[i].requests[r].session
            && (Step(run[i], r, Wake).Some? || WillClose(run[i].requests[channel].stage))
  {
    RunsKeepInvariant(run, i);
    assert IsSafeToWait(run[i], r, run[i].requests[r].stage.channel);
  }

  /** Nothing blocks for ever: while a request is not finished, some request of its session can go on, without anyone
      cancelling. */
  lemma NoDeadlock(run: seq<State>, i: nat, r: nat) returns (q: nat, event: Event)
    requires IsRun(run) && i < |run| && r < |run[i].requests| && !run[i].requests[r].stage.Finished?
    ensures q < |run[i].requests| && run[i].requests[q].session == run[i].requests[r].session
    ensures event != Cancel && Step(run[i], q, event).Some?
  {
    var s := run[i];
    q := r;
    if s.requests[r].stage.Waiting? && s.requests[r].stage.channel !in s.closed {
      NoLostWakeUp(run, i, r);
      q := s.requests[r].stage.channel;
    }
    match s.requests[q].stage
    case Arrived => event := ReadMostRecent(false);
    case Trying => event := LoadOrStore;
    case Waiting(_) => event := Wake;
    case Reading => event := ReadRefreshToken;
    case Exchanging(_) => event := Exchange(true, true, true);
    case Committing(_, _) => event := Commit(true);
    case Deleting(_) => event := Delete;
    case Closing(_) => event := Close;
  }

  /** Every exchange presents the refresh token the login module accepts, unless an earlier new token got lost. */
  lemma ExchangesPresentAcceptedToken(run: seq<State>, i: nat, r: nat)
    requires IsRun(run) && i < |run| && r < |run[i].requests| && run[i].requests[r].stage.Exchanging?
    requires run[i].requests[r].session !in run[i].outOfStep
    ensures var request := run[i].requests[r];
            request.session in run[i].accepted && run[i].accepted[request.session] == request.stage.token
  {
    RunsKeepInvariant(run, i);
    assert TokenFits(run[i], run[i].requests[r]);
    assert run[i].inProgress[run[i].requests[r].session] == r;
  }

  /** A session gets out of step only when the answer of a rotating exchange or the commit after it fails. */
  lemma OnlyLossesGetOutOfStep(s: State, r: nat, event: Event, after: State)
    requires r < |s.requests| && Step(s, r, event) == Some(after)
    ensures event != Exchange(true, false, true) && event != Commit(false) ==> after.outOfStep == s.outOfStep
    ensures after.outOfStep == s.outOfStep || after.outOfStep == s.outOfStep + {s.requests[r].session}
  {
    match event
    case Exchange(_, _, _) =>
    case Commit(_) =>
    case _ =>
  }

  // ---------- Runs with the events they consist of ----------

  datatype Move = Move(request: nat, event: Event)

  /** The events of a run, each with the request it happens to */
  ghost predicate AreMovesOf(moves: seq<Move>, run: seq<State>) {
    |run| == |moves| + 1 && Starts(run[0]) && forall i :: 0 <= i < |moves| ==> IsMove(run[i], moves[i], run[i + 1])
  }

  predicate IsMove(s: State, move: Move, after: State) {
    move.request < |s.requests| && Step(s, move.request, move.event) == Some(after)
  }

  /** The answer of a rotating exchange is lost, or the new tokens are not committed. */
  predicate IsLoss(event: Event) {
    event == Exchange(true, false, true) || event == Commit(false)
  }

  predicate LosesTokenOf(s: State, move: Move, session: Session) {
    IsLoss(move.event) && move.request < |s.requests| && s.requests[move.request].session == session
  }

  lemma MovesMakeRun(moves: seq<Move>, run: seq<State>)
    requires AreMovesOf(moves, run)
    ensures IsRun(run)
  {
    hide Step, Starts;
    forall i | 0 <= i < |run| - 1
      ensures IsStep(run[i], run[i + 1])
    {
      assert IsMove(run[i], moves[i], run[i + 1]);
    }
  }

  lemma {:induction false} LossesAreRecorded(moves: seq<Move>, run: seq<State>, i: nat, session: Session)
    requires AreMovesOf(moves, run) && i < |run| && session in run[i].outOfStep
    ensures exists j :: 0 <= j < i && LosesTokenOf(run[j], moves[j], session)
  {
    hide Step;
    if i > 0 {
      assert IsMove(run[i - 1], moves[i - 1], run[i - 1 + 1]);
      OnlyLossesGetOutOfStep(run[i - 1], moves[i - 1].request, moves[i - 1].event, run[i]);
      if session in run[i - 1].outOfStep {
        LossesAreRecorded(moves, run, i - 1, session);
      } else {
        assert LosesTokenOf(run[i - 1], moves[i - 1], session);
      }
    }
  }

  /** In every run, an exchange that comes before any loss of the session's tokens presents the refresh token that the
      login module accepts, however many requests of the session come at once. */
  lemma WithoutLossesTokensAreAccepted(moves: seq<Move>, run: seq<State>, i: nat)
    requires AreMovesOf(moves, run) && i < |moves| && moves[i].event.Exchange?
    requires moves[i].request < |run[i].requests|
    requires var session := run[i].requests[moves[i].request].session;
             forall j :: 0 <= j < i ==> !LosesTokenOf(run[j], moves[j], session)
    ensures var request := run[i].requests[moves[i].request];
            && request.stage.Exchanging? && request.session in run[i].accepted
            && run[i].accepted[request.session] == request.stage.token
  {
    MovesMakeRun(moves, run);
    assert IsMove(run[i], moves[i], run[i + 1]);
    var session := run[i].requests[moves[i].request].session;
    if session in run[i].outOfStep {
      LossesAreRecorded(moves, run, i, session);
    }
    assert run[i].requests[moves[i].request].stage.Exchanging?;
    ExchangesPresentAcceptedToken(run, i, moves[i].request);
  }

  // ---------- What requests are answered ----------

  function Recent(s: State, session: Session): Option<Token> {
    if session in s.mostRecent then Some(s.mostRecent[session]) else None
  }

  /** What a request is going to be answered, or has been; None is an error. */
  function AnswerOf(stage: Stage): Option<Token> {
    match stage
    case Deleting(answer) => answer
    case Closing(answer) => answer
    case Finished(answer) => answer
    case _ => None
  }

  /** The request stores both tokens it got, and from then on the new access token is the most recent one. */
  ghost predicate Stores(s: State, move: Move, after: State, r: nat, token: Token) {
    && move == Move(r, Commit(true)) && r < |s.requests| && s.requests[r].stage.Committing?
    && s.requests[r].stage.accessToken == token && Recent(after, s.requests[r].session) == Some(token)
    && s.requests[r].session in after.refreshTokens
    && after.refreshTokens[s.requests[r].session] == s.requests[r].stage.refreshToken
  }

  predicate ReadsRecent(move: Move, r: nat) {
    move.request == r && move.event.ReadMostRecent?
  }

  /** What the request read first decides: the most recent token, if it is another one than the request came with or too
      new, is the answer at once; otherwise the only answer is a token that the request itself stores afterwards. */
  ghost predicate IsAnsweredBy(moves: seq<Move>, run: seq<State>, i: nat, r: nat, j: nat)
    requires |run| == |moves| + 1 && j < i < |run| && r < |run[i].requests| && moves[j].event.ReadMostRecent?
  {
    var request := run[i].requests[r];
    var recent := Recent(run[j], request.session);
    if recent != Some(request.oldAccessToken) || moves[j].event.tooNewToRefresh then request.stage == Finished(recent)
    else AnswerOf(request.stage).Some? ==>
      exists k :: j < k < i && Stores(run[k], moves[k], run[k + 1], r, AnswerOf(request.stage).value)
  }

  lemma {:induction false} AnswersMeaning(moves: seq<Move>, run: seq<State>, i: nat, r: nat)
    requires AreMovesOf(moves, run) && i < |run| && r < |run[i].requests| && run[i].requests[r].stage != Arrived
    ensures exists j :: 0 <= j < i && ReadsRecent(moves[j], r) && IsAnsweredBy(moves, run, i, r, j)
  {
    if i > 0 {
      var s, move := run[i - 1], moves[i - 1];
      assert IsMove(s, move, run[i - 1 + 1]);
      StepsChangeOne(s, move.request, move.event, run[i]);
      StepsKeepOldToken(s, move.request, move.event, run[i]);
      if s.requests[r].stage == Arrived {
        FirstStepReads(s, move.event, run[i], r);
        assert ReadsRecent(move, r) && IsAnsweredBy(moves, run, i, r, i - 1);
      } else {
        AnswersMeaning(moves, run, i - 1, r);
        var j :| 0 <= j < i - 1 && ReadsRecent(moves[j], r) && IsAnsweredBy(moves, run, i - 1, r, j);
        NextAnswer(moves, run, i, r, j);
      }
    }
  }

  lemma StepsKeepOldToken(s: State, r: nat, event: Event, after: State)
    requires r < |s.requests| && Step(s, r, event) == Some(after)
    ensures after.requests[r].oldAccessToken == s.requests[r].oldAccessToken
  {
  }

  lemma FirstStepReads(s: State, event: Event, after: State, r: nat)
    requires r < |s.requests| && Step(s, r, event) == Some(after) && s.requests[r].stage == Arrived
    ensures event.ReadMostRecent?
    ensures var recent := Recent(s, s.requests[r].session);
            after.requests[r].stage == if recent != Some(s.requests[r].oldAccessToken) || event.tooNewToRefresh
                                       then Finished(recent) else Trying
  {
  }

  lemma NextAnswer(moves: seq<Move>, run: seq<State>, i: nat, r: nat, j: nat)
    requires AreMovesOf(moves, run) && j + 1 < i < |run| && IsMove(run[i - 1], moves[i - 1], run[i])
    requires r < |run[i - 1].requests| == |run[i].requests| && run[i - 1].requests[r].stage != Arrived
    requires ReadsRecent(moves[j], r) && IsAnsweredBy(moves, run, i - 1, r, j)
    ensures IsAnsweredBy(moves, run, i, r, j)
  {
    var s, move := run[i - 1], moves[i - 1];
    StepsChangeOne(s, move.request, move.event, run[i]);
    StepsKeepOldToken(s, move.request, move.event, run[i]);
    if move.request == r {
      AnswersAreKept(s, move, run[i]);
      var answer := AnswerOf(run[i].requests[r].stage);
      if answer.Some? && AnswerOf(s.requests[r].stage) != answer {
        assert Stores(run[i - 1], moves[i - 1], run[i - 1 + 1], r, answer.value);
      }
    }
  }

  lemma AnswersAreKept(s: State, move: Move, after: State)
    requires IsMove(s, move, after) && s.requests[move.request].stage != Arrived
    ensures var r := move.request;
            var answer := AnswerOf(after.requests[r].stage);
            && !s.requests[r].stage.Finished?
            && (answer.Some? ==> answer == AnswerOf(s.requests[r].stage) || Stores(s, move, after, r, answer.value))
  {
    match move.event
    case ReadMostRecent(_) =>
    case LoadOrStore =>
    case Wake =>
    case Cancel =>
    case ReadRefreshToken =>
    case Exchange(_, _, _) =>
    case Commit(_) =>
    case Delete =>
    case Close =>
  }

  /** Only storing changes which token is the most recent one. */
  lemma {:induction false} MostRecentMeaning(moves: seq<Move>, run: seq<State>, i: nat, session: Session)
    requires AreMovesOf(moves, run) && i < |run| && Recent(run[i], session) != Recent(run[0], session)
    ensures exists k :: 0 <= k < i && Recent(run[i], session).Some? &&
              moves[k].request < |run[k].requests| && run[k].requests[moves[k].request].session == session &&
              Stores(run[k], moves[k], run[k + 1], moves[k].request, Recent(run[i], session).value)
  {
    hide Step, Starts, Stores, Recent;
    var s, move := run[i - 1], moves[i - 1];
    assert IsMove(s, move, run[i - 1 + 1]);
    if Recent(run[i], session) == Recent(s, session) {
      MostRecentMeaning(moves, run, i - 1, session);
    } else {
      RecentIsKept(s, move, run[i], session);
    }
  }

  lemma RecentIsKept(s: State, move: Move, after: State, session: Session)
    requires IsMove(s, move, after) && Recent(after, session) != Recent(s, session)
    ensures Recent(after, session).Some? && s.requests[move.request].session == session
    ensures Stores(s, move, after, move.request, Recent(after, session).value)
  {
    match move.event
    case ReadMostRecent(_) =>
    case LoadOrStore =>
    case Wake =>
    case Cancel =>
    case ReadRefreshToken =>
    case Exchange(_, _, _) =>
    case Commit(_) =>
    case Delete =>
    case Close =>
  }

  // ---------- Runs end ----------

  ghost function OpenChannels(s: State): nat {
    if |s.closed| <= |s.requests| then |s.requests| - |s.closed| else 0
  }

  /** An upper bound for the steps a request can still take: it waits for each channel at most once. */
  ghost function StepsLeft(s: State, r: nat): nat
    requires r < |s.requests|
  {
    match s.requests[r].stage
    case Arrived => 2 * |s.requests| + 7
    case Trying => 2 * OpenChannels(s) + 6
    case Waiting(channel) => 2 * OpenChannels(s) + if channel in s.closed then 7 else 5
    case Reading => 5
    case Exchanging(_) => 4
    case Committing(_, _) => 3
    case Deleting(_) => 2
    case Closing(_) => 1
    case Finished(_) => 0
  }

  ghost function AllStepsLeft(s: State, n: nat): nat
    requires n <= |s.requests|
  {
    if n == 0 then 0 else AllStepsLeft(s, n - 1) + StepsLeft(s, n - 1)
  }

  lemma {:induction false} SumDrops(s: State, after: State, r: nat, n: nat)
    requires n <= |s.requests| == |after.requests|
    requires forall q :: 0 <= q < n ==> StepsLeft(after, q) <= StepsLeft(s, q)
    requires r < n ==> StepsLeft(after, r) < StepsLeft(s, r)
    ensures AllStepsLeft(after, n) <= AllStepsLeft(s, n)
    ensures r < n ==> AllStepsLeft(after, n) < AllStepsLeft(s, n)
  {
    if n > 0 {
      hide StepsLeft;
      SumDrops(s, after, r, n - 1);
    }
  }

  lemma ClosedAreRequests(s: State)
    requires WaitersAreSafe(s)
    ensures |s.closed| <= |s.requests|
    ensures forall r: nat :: r < |s.requests| && r !in s.closed ==> |s.closed| < |s.requests|
  {
    SmallNumbers(|s.requests|, s.closed);
    if r: nat :| r < |s.requests| && r !in s.closed {
      SmallNumbers(|s.requests|, s.closed + {r});
    }
  }

  lemma {:induction false} SmallNumbers(n: nat, numbers: set<nat>)
    requires forall r :: r in numbers ==> r < n
    ensures |numbers| <= n
  {
    if n > 0 {
      SmallNumbers(n - 1, numbers - {n - 1});
    } else {
      assert numbers == {};
    }
  }

  /** What the steps of others do to a request: closing a channel leaves one channel less to wait for. */
  lemma OthersDoNotDelay(s: State, r: nat, event: Event, after: State, q: nat)
    requires r < |s.requests| && Step(s, r, event) == Some(after) && q < |s.requests| && q != r
    requires LockIsExact(s) && WaitersAreSafe(s)
    ensures |after.requests| == |s.requests| && StepsLeft(after, q) <= StepsLeft(s, q)
  {
    StepsChangeOne(s, r, event, after);
    ClosedAreRequests(s);
    hide Step, Holds, WillClose;
    assert after.requests[q] == s.requests[q];
  }

  lemma StoredIsOpen(s: State, session: Session)
    requires LockIsExact(s) && WaitersAreSafe(s)
    ensures session in s.inProgress ==> s.inProgress[session] !in s.closed
  {
  }

  lemma StepsUseOneUp(s: State, r: nat, event: Event, after: State)
    requires r < |s.requests| && Step(s, r, event) == Some(after)
    requires LockIsExact(s) && WaitersAreSafe(s)
    ensures |after.requests| == |s.requests| && StepsLeft(after, r) < StepsLeft(s, r)
  {
    hide LockIsExact, WaitersAreSafe;
    StoredIsOpen(s, s.requests[r].session);
    match event
    case ReadMostRecent(_) =>
    case LoadOrStore =>
    case Wake =>
    case Cancel =>
    case ReadRefreshToken =>
    case Exchange(_, _, _) =>
    case Commit(_) =>
    case Delete =>
    case Close =>
  }

  lemma StepsLeftDropAtOnce(s: State, after: State)
    requires IsStep(s, after) && LockIsExact(s) && WaitersAreSafe(s)
    ensures |after.requests| == |s.requests| && AllStepsLeft(after, |s.requests|) < AllStepsLeft(s, |s.requests|)
  {
    var r: nat, event :| r < |s.requests| && Step(s, r, event) == Some(after);
    StepsUseOneUp(s, r, event, after);
    hide LockIsExact, WaitersAreSafe, StepsLeft;
    forall q | 0 <= q < |s.requests|
      ensures StepsLeft(after, q) <= StepsLeft(s, q)
    {
      if q != r {
        OthersDoNotDelay(s, r, event, after, q);
      }
    }
    SumDrops(s, after, r, |s.requests|);
  }

  lemma {:induction false} StepsLeftDrop(run: seq<State>, i: nat)
    requires IsRun(run) && i < |run|
    ensures |run[i].requests| == |run[0].requests|
    ensures AllStepsLeft(run[i], |run[i].requests|) + i <= AllStepsLeft(run[0], |run[0].requests|)
  {
    if i > 0 {
      StepsLeftDrop(run, i - 1);
      RunsKeepInvariant(run, i - 1);
      assert IsStep(run[i - 1], run[i - 1 + 1]);
      hide IsRun, IsStep, LockIsExact, WaitersAreSafe, TokensAgree;
      StepsLeftDropAtOnce(run[i - 1], run[i]);
    }
  }

  lemma {:induction false} FirstStepsLeft(s: State, n: nat)
    requires Starts(s) && n <= |s.requests|
    ensures AllStepsLeft(s, n) == n * (2 * |s.requests| + 7)
  {
    if n > 0 {
      FirstStepsLeft(s, n - 1);
      assert n * (2 * |s.requests| + 7) == (n - 1) * (2 * |s.requests| + 7) + (2 * |s.requests| + 7);
    }
  }

  /** Whatever the interleaving, `n` requests take at most n * (2n + 7) steps: retrying never goes on for ever. */
  lemma RunsEnd(run: seq<State>)
    requires IsRun(run)
    ensures var n := |run[0].requests|; |run| - 1 <= n * (2 * n + 7)
  {
    StepsLeftDrop(run, |run| - 1);
    FirstStepsLeft(run[0], |run[0].requests|);
  }
}
