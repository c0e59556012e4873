/** Refresh tokens: single-use rotation on the server composed with the single-flight refresh of the
    app. Requests, answers, storage and sign-ins interleave freely; answers may be lost. */
module TokenRotation {
  import opened Prelude

  type Token = nat       // fresh random tokens; the table holds their hashes
  type RequestId = nat

  const REFRESH_TTL_MS := 90 * 86_400_000
  const REFRESH_AHEAD_MS := 60_000

  /** `family` is the sign-in a token descends from, `parent` the token it replaced. */
  datatype Row = Row(user: string, family: nat, parent: Option<Token>, expiresAt: int, revoked: bool)

  type Table = map<Token, Row>

  predicate Live(rows: Table, t: Token, now: int) {
    t in rows && !rows[t].revoked && rows[t].expiresAt > now
  }

  /** UPDATE .. SET revoked_at .. WHERE not revoked and not expired RETURNING: one atomic statement. */
  function RevokeReturning(rows: Table, t: Token, now: int): (Table, Option<Row>) {
    if Live(rows, t, now) then (rows[t := rows[t].(revoked := true)], Some(rows[t])) else (rows, None)
  }

  function Stored(rows: Table, t: Token, user: string, family: nat, parent: Option<Token>, now: int): Table {
    rows[t := Row(user, family, parent, now + REFRESH_TTL_MS, false)]
  }

  predicate SameFamily(rows: Table, t: Token, u: Token)
    requires t in rows && u in rows
  {
    rows[t].family == rows[u].family
  }

  function RevokeAll(rows: Table, user: string): Table {
    map t | t in rows :: if rows[t].user == user then rows[t].(revoked := true) else rows[t]
  }

  class RefreshTokens {
    var rows: Table

    constructor ()
      ensures rows == map[]
    {
      rows := map[];
    }

    /** Stores a newly drawn token. */
    method IssueTokenPair(user: string, family: nat, parent: Option<Token>, drawn: Token, now: int)
      requires drawn !in rows
      modifies this
      ensures rows == Stored(old(rows), drawn, user, family, parent, now)
      ensures forall at :: Live(rows, drawn, at) <==> at < now + 7_776_000_000
    {
      rows := rows[drawn := Row(user, family, parent, now + REFRESH_TTL_MS, false)];
    }

    method RevokeReturningRow(raw: Token, now: int) returns (row: Option<Row>)
      modifies this
      ensures (rows, row) == RevokeReturning(old(rows), raw, now)
    {
      row := None;
      if raw in rows {
        var r := rows[raw];
        if !r.revoked && now < r.expiresAt {
          rows := rows[raw := r.(revoked := true)];
          row := Some(r);
        }
      }
    }

    /** Single use: a live token buys one successor for the same user and dies; any other token buys
        nothing and changes nothing. */
    method RotateRefreshToken(raw: Token, drawn: Token, now: int) returns (issued: Option<Token>)
      requires drawn !in rows
      modifies this
      ensures issued == if Live(old(rows), raw, now) then Some(drawn) else None
      ensures issued.None? ==> rows == old(rows)
      ensures issued.Some? ==>
        && !Live(rows, raw, now) && Live(rows, drawn, now)
        && rows[drawn].user == old(rows)[raw].user && rows[drawn].family == old(rows)[raw].family
        && rows == Stored(RevokeReturning(old(rows), raw, now).0, drawn,
                          old(rows)[raw].user, old(rows)[raw].family, Some(raw), now)
    {
      var row := RevokeReturningRow(raw, now);
      if row.None? {
        return None;
      }
      IssueTokenPair(row.value.user, row.value.family, Some(raw), drawn, now);
      issued := Some(drawn);
    }

    /** Logout from all devices ends exactly the sessions of the user. */
    method RevokeAllTokens(user: string)
      modifies this
      ensures rows == RevokeAll(old(rows), user)
      ensures forall t, now :: Live(rows, t, now) <==> Live(old(rows), t, now) && old(rows)[t].user != user
    {
      rows := map t | t in rows :: if rows[t].user == user then rows[t].(revoked := true) else rows[t];
    }
  }

  // ---- The composed system ----

  /** A refresh request on its way through the server. */
  datatype Stage =
    | InNetwork
    | Rotating(row: Row)               // the token is revoked, its successor not yet stored
    | Replied(token: Option<Token>)

  datatype Request = Request(token: Token, stage: Stage)

  datatype Session = Session(token: Token, expiresAt: int)

  /** The shared refresh promise of the app. */
  datatype Flight =
    | Waiting(request: RequestId)
    | Storing(renewed: Token)          // tokens arrived, secure storage is being written
    | Clearing                         // failed, secure storage is being cleared

  datatype State = State(
    now: int,
    rows: Table,
    nextToken: Token,
    nextFamily: nat,
    requests: map<RequestId, Request>,
    nextRequest: RequestId,
    store: Option<Session>,
    flight: Option<Flight>,
    sent: seq<Token>,                  // what the app has sent, in order
    rotated: seq<Token>)               // what the server has rotated, in order

  datatype Step =
    | Tick(ms: nat)
    | SignIn(user: string, accessExpiresAt: int)
    | Call                                        // authedFetch is entered
    | Foreign(token: Token)                       // a refresh request from anywhere else
    | ServerRevokes(r: RequestId)
    | ServerIssues(r: RequestId, fails: bool)
    | AnswerArrives
    | AnswerIsLost
    | StorageWritten(fails: bool, accessExpiresAt: int)
    | StorageCleared(fails: bool)
    | Unauthorized                                // a 401 answer signs the app out
    | LogoutEverywhere(user: string)

  function NewRequest(s: State, t: Token): State {
    s.(requests := s.requests[s.nextRequest := Request(t, InNetwork)], nextRequest := s.nextRequest + 1)
  }

  function SetStage(s: State, r: RequestId, stage: Stage): State
    requires r in s.requests
  {
    s.(requests := s.requests[r := s.requests[r].(stage := stage)])
  }

  function RevokeStep(s: State, r: RequestId): State
    requires r in s.requests
  {
    var t := s.requests[r].token;
    var (rows, row) := RevokeReturning(s.rows, t, s.now);
    if row.None? then SetStage(s, r, Replied(None))
    else SetStage(s, r, Rotating(row.value)).(rows := rows, rotated := s.rotated + [t])
  }

  function IssueStep(s: State, r: RequestId, fails: bool): State
    requires r in s.requests && s.requests[r].stage.Rotating?
  {
    var row := s.requests[r].stage.row;
    if fails then SetStage(s, r, Replied(None))
    else
      SetStage(s, r, Replied(Some(s.nextToken))).(
        rows := Stored(s.rows, s.nextToken, row.user, row.family, Some(s.requests[r].token), s.now),
        nextToken := s.nextToken + 1)
  }

  predicate Expiring(s: State) {
    s.store.Some? && s.store.value.expiresAt != 0 && s.store.value.expiresAt - s.now < REFRESH_AHEAD_MS
  }

  /** A step that does not apply leaves the state as it is. */
  function Next(s: State, step: Step): State {
    match step
    case Tick(ms) => s.(now := s.now + ms)
    case SignIn(user, accessExpiresAt) =>
      s.(rows := Stored(s.rows, s.nextToken, user, s.nextFamily, None, s.now),
         store := Some(Session(s.nextToken, accessExpiresAt)), nextToken := s.nextToken + 1, nextFamily := s.nextFamily + 1)
    case Call =>
      if Expiring(s) && s.flight.None? then
        NewRequest(s, s.store.value.token).(flight := Some(Waiting(s.nextRequest)), sent := s.sent + [s.store.value.token])
      else s
    case Foreign(token) => NewRequest(s, token)
    case ServerRevokes(r) => if r in s.requests && s.requests[r].stage.InNetwork? then RevokeStep(s, r) else s
    case ServerIssues(r, fails) => if r in s.requests && s.requests[r].stage.Rotating? then IssueStep(s, r, fails) else s
    case AnswerArrives =>
      if s.flight.Some? && s.flight.value.Waiting? && s.flight.value.request in s.requests
         && s.requests[s.flight.value.request].stage.Replied? then
        var answer := s.requests[s.flight.value.request].stage.token;
        s.(flight := Some(if answer.Some? then Storing(answer.value) else Clearing))
      else s
    case AnswerIsLost => if s.flight.Some? && s.flight.value.Waiting? then s.(flight := Some(Clearing)) else s
    case StorageWritten(fails, accessExpiresAt) =>
      if s.flight.Some? && s.flight.value.Storing? then
        if fails then s.(flight := Some(Clearing))
        else s.(store := Some(Session(s.flight.value.renewed, accessExpiresAt)), flight := None)
      else s
    case StorageCleared(fails) =>
      if s.flight == Some(Clearing) then
        if fails then s.(flight := None) else s.(store := None, flight := None)
      else s
    case Unauthorized => s.(store := None)
    case LogoutEverywhere(user) => s.(rows := RevokeAll(s.rows, user))
  }

  function Start(now: int): State {
    State(now, map[], 0, 0, map[], 0, None, None, [], [])
  }

  function Run(s: State, steps: seq<Step>): State {
    if steps == [] then s else Next(Run(s, Front(steps)), Last(steps))
  }

  // ---- The server: one chain per sign-in, at most one live token ----

  ghost predicate RowInv(rows: Table, nextToken: Token, nextFamily: nat, rotated: seq<Token>, t: Token)
    requires t in rows
  {
    var row := rows[t];
    && t < nextToken && row.family < nextFamily
    && (t in rotated ==> row.revoked)
    && (row.parent.Some? ==>
          var p := row.parent.value;
          p in rows && p < t && p in rotated && rows[p].family == row.family)
  }

  /** One root per sign-in, no token replaced twice, at most one token per sign-in unrevoked. */
  ghost predicate ChainInv(rows: Table, nextToken: Token, nextFamily: nat, rotated: seq<Token>) {
    && (forall t :: t in rows ==> RowInv(rows, nextToken, nextFamily, rotated, t))
    && (forall t, u :: t in rows && u in rows && t != u && SameFamily(rows, t, u) ==>
          rows[t].parent != rows[u].parent && (rows[t].revoked || rows[u].revoked))
    && (forall t :: t in rotated ==> t in rows)
    && NoDuplicates(rotated)
  }

  /** While a token is being rotated its sign-in has no unrevoked token, and the token no successor. */
  ghost predicate RotatingInv(rows: Table, rotated: seq<Token>, t: Token, family: nat) {
    && t in rows && t in rotated && rows[t].family == family
    && (forall u :: u in rows && rows[u].family == family ==> rows[u].revoked && rows[u].parent != Some(t))
  }

  predicate Rotates(requests: map<RequestId, Request>, r: RequestId) {
    r in requests && requests[r].stage.Rotating?
  }

  ghost predicate RequestsInv(rows: Table, rotated: seq<Token>, requests: map<RequestId, Request>, nextRequest: RequestId) {
    && (forall r :: r in requests ==> r < nextRequest)
    && (forall r :: Rotates(requests, r) ==> RotatingInv(rows, rotated, requests[r].token, requests[r].stage.row.family))
    && (forall q, r :: Rotates(requests, q) && Rotates(requests, r) && q != r ==>
          requests[q].stage.row.family != requests[r].stage.row.family)
  }

  ghost predicate ServerInv(s: State) {
    && ChainInv(s.rows, s.nextToken, s.nextFamily, s.rotated)
    && RequestsInv(s.rows, s.rotated, s.requests, s.nextRequest)
  }

  lemma AddRow(rows: Table, nextToken: Token, nextFamily: nat, rotated: seq<Token>, row: Row, laterFamily: nat)
    requires ChainInv(rows, nextToken, nextFamily, rotated)
    requires nextFamily <= laterFamily && row.family < laterFamily
    requires forall u :: u in rows && rows[u].family == row.family ==> rows[u].revoked && rows[u].parent != row.parent
    requires row.parent.Some? ==>
        row.parent.value in rows && row.parent.value in rotated && rows[row.parent.value].family == row.family
    ensures nextToken !in rows
    ensures ChainInv(rows[nextToken := row], nextToken + 1, laterFamily, rotated)
  {
    forall u | u in rows ensures u < nextToken {
      assert RowInv(rows, nextToken, nextFamily, rotated, u);
    }
    var more := rows[nextToken := row];
    forall u | u in more ensures RowInv(more, nextToken + 1, laterFamily, rotated, u) {
      if u in rows {
        assert RowInv(rows, nextToken, nextFamily, rotated, u);
      }
    }
    forall t, u | t in more && u in more && t != u && SameFamily(more, t, u)
      ensures more[t].parent != more[u].parent && (more[t].revoked || more[u].revoked)
    {
      if t in rows && u in rows {
        assert SameFamily(rows, t, u);
      }
    }
  }

  lemma RevokeRow(rows: Table, nextToken: Token, nextFamily: nat, rotated: seq<Token>, t: Token)
    requires ChainInv(rows, nextToken, nextFamily, rotated) && t in rows && !rows[t].revoked
    ensures ChainInv(rows[t := rows[t].(revoked := true)], nextToken, nextFamily, rotated + [t])
    ensures RotatingInv(rows[t := rows[t].(revoked := true)], rotated + [t], t, rows[t].family)
  {
    var less := rows[t := rows[t].(revoked := true)];
    assert RowInv(rows, nextToken, nextFamily, rotated, t);
    forall u | u in less ensures RowInv(less, nextToken, nextFamily, rotated + [t], u) && less[u].parent != Some(t) {
      assert RowInv(rows, nextToken, nextFamily, rotated, u);
    }
    forall u, v | u in less && v in less && u != v && SameFamily(less, u, v)
      ensures less[u].parent != less[v].parent && (less[u].revoked || less[v].revoked)
    {
      assert SameFamily(rows, u, v);
    }
    forall u | u in less && less[u].family == rows[t].family ensures less[u].revoked {
      if u != t {
        assert SameFamily(rows, u, t);
      }
    }
  }

  lemma RevokeKeeps(s: State, r: RequestId)
    requires ServerInv(s) && r in s.requests && s.requests[r].stage.InNetwork?
    ensures ServerInv(RevokeStep(s, r))
  {
    hide ChainInv;
    var s' := RevokeStep(s, r);
    var t := s.requests[r].token;
    assert forall q :: q != r ==> Rotates(s'.requests, q) == Rotates(s.requests, q);
    if Live(s.rows, t, s.now) {
      var family := s.rows[t].family;
      RevokeRow(s.rows, s.nextToken, s.nextFamily, s.rotated, t);
      forall q | Rotates(s.requests, q)
        ensures s.requests[q].stage.row.family != family
        ensures RotatingInv(s'.rows, s'.rotated, s.requests[q].token, s.requests[q].stage.row.family)
      {
        assert RotatingInv(s.rows, s.rotated, s.requests[q].token, s.requests[q].stage.row.family);
      }
    }
  }

  lemma IssueKeeps(s: State, r: RequestId, fails: bool)
    requires ServerInv(s) && Rotates(s.requests, r)
    ensures ServerInv(IssueStep(s, r, fails))
  {
    hide ChainInv;
    var s' := IssueStep(s, r, fails);
    var t, family := s.requests[r].token, s.requests[r].stage.row.family;
    assert forall q :: Rotates(s'.requests, q) ==> q != r && Rotates(s.requests, q);
    if !fails {
      AddRow(s.rows, s.nextToken, s.nextFamily, s.rotated, s'.rows[s.nextToken], s.nextFamily) by {
        FamilyIsKnown(s, t);
      }
      forall q | Rotates(s'.requests, q)
        ensures RotatingInv(s'.rows, s'.rotated, s.requests[q].token, s.requests[q].stage.row.family)
      {
        assert RotatingInv(s.rows, s.rotated, s.requests[q].token, s.requests[q].stage.row.family);
      }
    }
  }

  lemma FamilyIsKnown(s: State, t: Token)
    requires ChainInv(s.rows, s.nextToken, s.nextFamily, s.rotated) && t in s.rows
    ensures s.rows[t].family < s.nextFamily
  {
    assert RowInv(s.rows, s.nextToken, s.nextFamily, s.rotated, t);
  }

  lemma SignInKeeps(s: State, user: string, at: int)
    requires ServerInv(s)
    ensures ServerInv(Next(s, SignIn(user, at)))
  {
    hide ChainInv;
    var s' := Next(s, SignIn(user, at));
    AddRow(s.rows, s.nextToken, s.nextFamily, s.rotated, s'.rows[s.nextToken], s.nextFamily + 1) by {
      forall u | u in s.rows ensures s.rows[u].family < s.nextFamily {
        FamilyIsKnown(s, u);
      }
    }
    forall q | Rotates(s.requests, q)
      ensures RotatingInv(s'.rows, s'.rotated, s.requests[q].token, s.requests[q].stage.row.family)
    {
      assert RotatingInv(s.rows, s.rotated, s.requests[q].token, s.requests[q].stage.row.family);
      FamilyIsKnown(s, s.requests[q].token);
    }
  }

  lemma LogoutKeeps(s: State, user: string)
    requires ServerInv(s)
    ensures ServerInv(s.(rows := RevokeAll(s.rows, user)))
  {
    var rows := RevokeAll(s.rows, user);
    forall u | u in rows ensures RowInv(rows, s.nextToken, s.nextFamily, s.rotated, u) {
      assert RowInv(s.rows, s.nextToken, s.nextFamily, s.rotated, u);
    }
    forall t, u | t in rows && u in rows && t != u && SameFamily(rows, t, u)
      ensures rows[t].parent != rows[u].parent && (rows[t].revoked || rows[u].revoked)
    {
      assert SameFamily(s.rows, t, u);
    }
    forall q | Rotates(s.requests, q)
      ensures RotatingInv(rows, s.rotated, s.requests[q].token, s.requests[q].stage.row.family)
    {
      assert RotatingInv(s.rows, s.rotated, s.requests[q].token, s.requests[q].stage.row.family);
    }
  }

  lemma RequestKeeps(s: State, t: Token)
    requires ServerInv(s)
    ensures ServerInv(NewRequest(s, t))
  {
    hide ChainInv;
    var s' := NewRequest(s, t);
    assert s.nextRequest !in s.requests;
    assert forall q :: Rotates(s'.requests, q) ==> q != s.nextRequest && Rotates(s.requests, q);
  }

  lemma {:induction false} ServerIsSafe(now: int, steps: seq<Step>)
    ensures ServerInv(Run(Start(now), steps))
  {
    if steps != [] {
      var s, step := Run(Start(now), Front(steps)), Last(steps);
      ServerIsSafe(now, Front(steps));
      hide ChainInv, RequestsInv, RevokeStep, IssueStep, NewRequest;
      match step
      case ServerRevokes(r) => if r in s.requests && s.requests[r].stage.InNetwork? { RevokeKeeps(s, r); }
      case ServerIssues(r, fails) => if Rotates(s.requests, r) { IssueKeeps(s, r, fails); }
      case SignIn(user, at) => SignInKeeps(s, user, at);
      case LogoutEverywhere(user) => LogoutKeeps(s, user);
      case Foreign(t) => RequestKeeps(s, t);
      case Call => if Launches(s, step) { RequestKeeps(s, s.store.value.token); }
      case _ =>
    }
  }

  /** Whatever is sent by whomever, each token is rotated at most once. */
  lemma EachTokenRotatedOnce(now: int, steps: seq<Step>)
    ensures NoDuplicates(Run(Start(now), steps).rotated)
  {
    ServerIsSafe(now, steps);
  }

  /** Of the tokens that descend from one sign-in at most one is live. */
  lemma AtMostOneLiveToken(now: int, steps: seq<Step>, t: Token, u: Token)
    requires var s := Run(Start(now), steps);
      Live(s.rows, t, s.now) && Live(s.rows, u, s.now) && SameFamily(s.rows, t, u)
    ensures t == u
  {
    ServerIsSafe(now, steps);
  }

  /** The tokens of a sign-in form one chain: one has no parent, every other replaced a rotated token of
      the same sign-in, and no token was replaced twice. */
  lemma OneChain(now: int, steps: seq<Step>, t: Token, u: Token)
    requires var s := Run(Start(now), steps);
      t in s.rows && u in s.rows && t != u && SameFamily(s.rows, t, u)
    ensures var s := Run(Start(now), steps);
      && s.rows[t].parent != s.rows[u].parent
      && (s.rows[t].parent.Some? ==>
            var p := s.rows[t].parent.value;
            p in s.rows && p < t && SameFamily(s.rows, p, t) && s.rows[p].revoked && p in s.rotated)
  {
    ServerIsSafe(now, steps);
    var s := Run(Start(now), steps);
    assert RowInv(s.rows, s.nextToken, s.nextFamily, s.rotated, t);
    if s.rows[t].parent.Some? {
      assert RowInv(s.rows, s.nextToken, s.nextFamily, s.rotated, s.rows[t].parent.value);
    }
  }

  // ---- The app: when is a token sent twice? ----

  /** The step starts a refresh. */
  predicate Launches(s: State, step: Step) {
    step.Call? && Expiring(s) && s.flight.None?
  }

  /** The step replaces or clears the tokens the app holds. */
  predicate Writes(s: State, step: Step) {
    match step
    case SignIn(_, _) => true
    case Unauthorized => true
    case StorageWritten(fails, _) => !fails && s.flight.Some? && s.flight.value.Storing?
    case StorageCleared(fails) => !fails && s.flight == Some(Clearing)
    case _ => false
  }

  /** The held tokens were not written since the last refresh was started. */
  predicate Stale(now: int, steps: seq<Step>) {
    steps != [] &&
      var s := Run(Start(now), Front(steps));
      Launches(s, Last(steps)) || (!Writes(s, Last(steps)) && Stale(now, Front(steps)))
  }

  /** A refresh was started while the held tokens were stale. */
  predicate StaleRefresh(now: int, steps: seq<Step>) {
    steps != [] &&
      (StaleRefresh(now, Front(steps))
       || (Launches(Run(Start(now), Front(steps)), Last(steps)) && Stale(now, Front(steps))))
  }

  /** The token of an answer has not been sent. */
  predicate Unsent(s: State, stage: Stage) {
    stage.Replied? && stage.token.Some? ==> stage.token.value !in s.sent
  }

  predicate FlightInv(s: State, flight: Flight) {
    match flight
    case Waiting(r) => r < s.nextRequest && (r in s.requests ==> Unsent(s, s.requests[r].stage))
    case Storing(renewed) => renewed < s.nextToken && renewed !in s.sent
    case Clearing => true
  }

  ghost predicate ClientInv(s: State, stale: bool) {
    && (stale <==> s.store.Some? && s.store.value.token in s.sent)
    && (s.store.Some? ==> s.store.value.token < s.nextToken)
    && (forall t :: t in s.sent ==> t < s.nextToken)
    && (forall r :: r in s.requests && s.requests[r].stage.Replied? && s.requests[r].stage.token.Some? ==>
          s.requests[r].stage.token.value < s.nextToken)
    && (s.flight.Some? ==> FlightInv(s, s.flight.value))
  }

  lemma ServerKeepsClient(s: State, step: Step, stale: bool)
    requires ClientInv(s, stale) && (step.ServerRevokes? || step.ServerIssues? || step.Foreign?)
    ensures ClientInv(Next(s, step), stale)
  {
  }

  lemma ClientStep(s: State, step: Step, stale: bool)
    requires ClientInv(s, stale)
    ensures ClientInv(Next(s, step), Launches(s, step) || (!Writes(s, step) && stale))
  {
    if step.ServerRevokes? || step.ServerIssues? || step.Foreign? {
      hide Next;
      ServerKeepsClient(s, step, stale);
    }
  }

  lemma {:induction false} ClientIsSafe(now: int, steps: seq<Step>)
    ensures ClientInv(Run(Start(now), steps), Stale(now, steps))
  {
    if steps != [] {
      ClientIsSafe(now, Front(steps));
      hide ClientInv, Next;
      ClientStep(Run(Start(now), Front(steps)), Last(steps), Stale(now, Front(steps)));
    }
  }

  /** Over all interleavings of concurrent calls, sign-ins and answers: the app sends no refresh token
      twice exactly when no refresh is started on stale tokens. */
  lemma {:induction false} SentOnceExactly(now: int, steps: seq<Step>)
    ensures NoDuplicates(Run(Start(now), steps).sent) <==> !StaleRefresh(now, steps)
  {
    hide Next, FlightInv;
    if steps != [] {
      var s := Run(Start(now), Front(steps));
      SentOnceExactly(now, Front(steps));
      ClientIsSafe(now, Front(steps));
      SentGrows(s, Last(steps));
      if Launches(s, Last(steps)) {
        OneMore(s.sent, s.store.value.token);
      }
    }
  }

  lemma SentGrows(s: State, step: Step)
    ensures Next(s, step).sent == if Launches(s, step) then s.sent + [s.store.value.token] else s.sent
  {
  }

  lemma OneMore(sent: seq<Token>, t: Token)
    ensures NoDuplicates(sent + [t]) <==> NoDuplicates(sent) && t !in sent
  {
    var longer := sent + [t];
    assert longer[|sent|] == t;
    assert forall k :: 0 <= k < |sent| ==> longer[k] == sent[k];
  }

  /** Clearing the secure storage never fails. */
  predicate ClearingWorks(steps: seq<Step>) {
    StorageCleared(true) !in steps
  }

  lemma {:induction false} StaleOnlyInFlight(now: int, steps: seq<Step>)
    requires ClearingWorks(steps)
    ensures Stale(now, steps) ==> Run(Start(now), steps).flight.Some?
    ensures !StaleRefresh(now, steps)
  {
    if steps != [] {
      StaleOnlyInFlight(now, Front(steps));
    }
  }

  /** The single flight is enough as long as clearing the secure storage does not fail. */
  lemma EachTokenSentOnce(now: int, steps: seq<Step>)
    requires ClearingWorks(steps)
    ensures NoDuplicates(Run(Start(now), steps).sent)
  {
    StaleOnlyInFlight(now, steps);
    SentOnceExactly(now, steps);
  }

  // ---- Client and server together ----

  /** No one else presents refresh tokens, and no logout from all devices. */
  predicate Alone(steps: seq<Step>) {
    forall k :: 0 <= k < |steps| ==> !steps[k].Foreign? && !steps[k].LogoutEverywhere?
  }

  ghost predicate AloneInv(s: State) {
    && (forall r :: r in s.requests ==> s.requests[r].token in s.sent)
    && (forall t :: t in s.rows && s.rows[t].revoked ==> t in s.sent)
    && (s.store.Some? ==> s.store.value.token in s.rows)
    && (forall r :: r in s.requests && s.requests[r].stage.Replied? && s.requests[r].stage.token.Some? ==>
          s.requests[r].stage.token.value in s.rows)
    && (s.flight.Some? && s.flight.value.Storing? ==> s.flight.value.renewed in s.rows)
  }

  lemma AloneStep(s: State, step: Step)
    requires AloneInv(s) && !step.Foreign? && !step.LogoutEverywhere?
    ensures AloneInv(Next(s, step))
  {
    if step.ServerRevokes? || step.ServerIssues? {
      hide Next;
      AloneServerStep(s, step);
    }
  }

  lemma AloneServerStep(s: State, step: Step)
    requires AloneInv(s) && (step.ServerRevokes? || step.ServerIssues?)
    ensures AloneInv(Next(s, step))
  {
  }

  lemma {:induction false} AloneIsSafe(now: int, steps: seq<Step>)
    requires Alone(steps)
    ensures AloneInv(Run(Start(now), steps))
  {
    if steps != [] {
      AloneIsSafe(now, Front(steps));
      hide AloneInv, Next;
      AloneStep(Run(Start(now), Front(steps)), Last(steps));
    }
  }

  /** However calls, answers and sign-ins interleave, the app holds a token the server knows and has not
      revoked, unless a refresh has been started on it; between refreshes, then, it never locks itself out
      by presenting a used token. */
  lemma HeldTokenIsUnused(now: int, steps: seq<Step>)
    requires Alone(steps)
    ensures var s := Run(Start(now), steps);
      s.store.Some? && (!Stale(now, steps) || (ClearingWorks(steps) && s.flight.None?)) ==>
        s.store.value.token in s.rows && !s.rows[s.store.value.token].revoked
  {
    AloneIsSafe(now, steps);
    ClientIsSafe(now, steps);
    if ClearingWorks(steps) {
      StaleOnlyInFlight(now, steps);
    }
  }

  /** When clearing the storage fails, the used token stays in the store and the next call sends it again. */
  lemma FailedClearResends() returns (steps: seq<Step>)
    ensures Run(Start(0), steps).sent == [0, 0]
  {
    var one := [SignIn("user", 1)];
    var two := one + [Call];
    var three := two + [AnswerIsLost];
    var four := three + [StorageCleared(true)];
    steps := four + [Call];
    assert Front(one) == [] && Front(two) == one && Front(three) == two && Front(four) == three && Front(steps) == four;
    assert Run(Start(0), one).store == Some(Session(0, 1));
    var s := Run(Start(0), two);
    assert s.sent == [0] && s.store == Some(Session(0, 1)) && s.flight.Some?;
    assert Run(Start(0), four) == s.(flight := None);
  }

  // ---- In numbers ----

  /** An issued token can be used for ninety days and no longer, unless it is revoked. */
  lemma LivesNinetyDays(rows: Table, t: Token, user: string, family: nat, parent: Option<Token>, now: int, at: int)
    ensures Live(Stored(rows, t, user, family, parent, now), t, at) <==> at < now + 7_776_000_000
  {
  }

  /** A call starts a refresh exactly when none is on its way and the access token, if its end is known, has less than a
      minute left. */
  lemma CallRefreshes(s: State)
    ensures Next(s, Call) != s <==>
      s.flight.None? && s.store.Some? && s.store.value.expiresAt != 0 && s.store.value.expiresAt < s.now + 60_000
    ensures Next(s, Call) != s ==> Next(s, Call).sent == s.sent + [s.store.value.token]
  {
    assert Next(s, Call) != s ==> |Next(s, Call).sent| == |s.sent| + 1;
    assert Expiring(s) && s.flight.None? ==> |Next(s, Call).sent| == |s.sent| + 1;
  }

  /** Logging out everywhere ends the tokens of that user and no others. */
  lemma LogoutInWords(s: State, user: string, t: Token, at: int)
    ensures Live(Next(s, LogoutEverywhere(user)).rows, t, at) <==> Live(s.rows, t, at) && s.rows[t].user != user
  {
  }

  /** A presented token is rotated exactly when it is stored, unrevoked and not past its end by then. */
  lemma PresentedToken(s: State, r: RequestId, ms: nat)
    requires r in s.requests && s.requests[r].stage.InNetwork?
    ensures var t := s.requests[r].token; var next := Next(Next(s, Tick(ms)), ServerRevokes(r));
      && r in next.requests && next.requests[r].token == t
      && if t in s.rows && !s.rows[t].revoked && s.now + ms < s.rows[t].expiresAt then
           && next.requests[r].stage == Rotating(s.rows[t]) && next.rotated == s.rotated + [t]
           && next.rows == s.rows[t := s.rows[t].(revoked := true)]
         else next.requests[r].stage == Replied(None) && next.rows == s.rows && next.rotated == s.rotated
  {
  }

  /** What answers and storage do to the app: a lost or empty answer and a failed write lead to clearing, clearing that works
      signs the app out, and a 401 answer does at once. */
  lemma AppInWords(s: State, e: int, fails: bool)
    ensures Next(s, AnswerIsLost).flight == if s.flight.Some? && s.flight.value.Waiting? then Some(Clearing) else s.flight
    ensures s.flight.Some? && s.flight.value.Storing? ==>
      var next := Next(s, StorageWritten(fails, e));
      if fails then next.flight == Some(Clearing) && next.store == s.store
      else next.flight == None && next.store == Some(Session(s.flight.value.renewed, e))
    ensures s.flight.None? || !s.flight.value.Storing? ==> Next(s, StorageWritten(fails, e)) == s
    ensures Next(s, StorageCleared(fails)).flight == if s.flight == Some(Clearing) then None else s.flight
    ensures Next(s, StorageCleared(fails)).store == if s.flight == Some(Clearing) && !fails then None else s.store
    ensures Next(s, Unauthorized) == s.(store := None)
    ensures s.flight.Some? && s.flight.value.Waiting? && s.flight.value.request in s.requests ==>
      var stage := s.requests[s.flight.value.request].stage;
      Next(s, AnswerArrives).flight ==
        if !stage.Replied? then s.flight else if stage.token.None? then Some(Clearing) else Some(Storing(stage.token.value))
  {
  }

  lemma OneMoreStep(s: State, steps: seq<Step>, step: Step)
    ensures Run(s, steps + [step]) == Next(Run(s, steps), step) && Run(s, []) == s
  {
    assert Front(steps + [step]) == steps;
  }

  lemma CallStarts(s: State)
    requires s.flight.None? && s.store.Some? && s.store.value.expiresAt != 0 && s.store.value.expiresAt < s.now + 60_000
    ensures var t := s.store.value.token;
      Next(s, Call) == s.(requests := s.requests[s.nextRequest := Request(t, InNetwork)], nextRequest := Next(s, Call).nextRequest,
                          flight := Some(Waiting(s.nextRequest)), sent := s.sent + [t])
  {
  }

  lemma ServerRotates(s: State, r: RequestId, t: Token)
    requires r in s.requests && s.requests[r] == Request(t, InNetwork)
    requires t in s.rows && !s.rows[t].revoked && s.now < s.rows[t].expiresAt && t != s.nextToken
    ensures var a := Next(Next(s, ServerRevokes(r)), ServerIssues(r, false));
      && r in a.requests && a.requests[r] == Request(t, Replied(Some(s.nextToken)))
      && a.now == s.now && a.flight == s.flight && a.store == s.store && a.sent == s.sent && a.rotated == s.rotated + [t]
      && a.nextToken > s.nextToken
      && a.rows == s.rows[t := s.rows[t].(revoked := true)]
           [s.nextToken := Row(s.rows[t].user, s.rows[t].family, Some(t), s.now + 7_776_000_000, false)]
  {
  }

  lemma AnswerIsStored(s: State, renewed: Token, e: int)
    requires s.flight.Some? && s.flight.value.Waiting? && s.flight.value.request in s.requests
    requires s.requests[s.flight.value.request].stage == Replied(Some(renewed))
    ensures Next(Next(s, AnswerArrives), StorageWritten(false, e)) == s.(flight := None, store := Some(Session(renewed, e)))
  {
  }

  lemma RefreshSteps(s: State, e: int)
    requires s.flight.None? && s.store.Some? && s.store.value.expiresAt != 0 && s.store.value.expiresAt < s.now + 60_000
    requires var t := s.store.value.token; t in s.rows && !s.rows[t].revoked && s.now < s.rows[t].expiresAt && t != s.nextToken
    ensures var t, r := s.store.value.token, s.nextRequest;
      var served := Next(Next(Next(s, Call), ServerRevokes(r)), ServerIssues(r, false));
      var done := Next(Next(served, AnswerArrives), StorageWritten(false, e));
      && done.store == Some(Session(s.nextToken, e)) && done.flight == None
      && done.sent == s.sent + [t] && done.rotated == s.rotated + [t]
      && done.rows == s.rows[t := s.rows[t].(revoked := true)]
           [s.nextToken := Row(s.rows[t].user, s.rows[t].family, Some(t), s.now + 7_776_000_000, false)]
  {
    hide Next;
    var t, r := s.store.value.token, s.nextRequest;
    CallStarts(s);
    ServerRotates(Next(s, Call), r, t);
    AnswerIsStored(Next(Next(Next(s, Call), ServerRevokes(r)), ServerIssues(r, false)), s.nextToken, e);
  }

  lemma HeldRowIsOld(now: int, steps: seq<Step>, t: Token)
    requires t in Run(Start(now), steps).rows
    ensures t < Run(Start(now), steps).nextToken
  {
    ServerIsSafe(now, steps);
    hide Run;
    var s := Run(Start(now), steps);
    assert RowInv(s.rows, s.nextToken, s.nextFamily, s.rotated, t);
  }

  /** A refresh from end to end: the held token is sent once and revoked, its successor of the same user and sign-in is stored
      by both sides and good for ninety days. */
  lemma RefreshRenews(now: int, steps: seq<Step>, e: int)
    requires var s := Run(Start(now), steps);
      && s.flight.None? && s.store.Some? && s.store.value.expiresAt != 0 && s.store.value.expiresAt < s.now + 60_000
      && var t := s.store.value.token; t in s.rows && !s.rows[t].revoked && s.now < s.rows[t].expiresAt
    ensures var s := Run(Start(now), steps); var t, r := s.store.value.token, s.nextRequest;
      var called := steps + [Call];
      var served := called + [ServerRevokes(r)] + [ServerIssues(r, false)];
      var done := Run(Start(now), served + [AnswerArrives] + [StorageWritten(false, e)]);
      && done.store == Some(Session(s.nextToken, e)) && done.flight == None
      && done.sent == s.sent + [t] && done.rotated == s.rotated + [t]
      && done.rows == s.rows[t := s.rows[t].(revoked := true)]
           [s.nextToken := Row(s.rows[t].user, s.rows[t].family, Some(t), s.now + 7_776_000_000, false)]
  {
    hide Run, Next;
    var s := Run(Start(now), steps);
    var r := s.nextRequest;
    HeldRowIsOld(now, steps, s.store.value.token);
    var called := steps + [Call];
    var revoked := called + [ServerRevokes(r)];
    var served := revoked + [ServerIssues(r, false)];
    OneMoreStep(Start(now), steps, Call);
    OneMoreStep(Start(now), called, ServerRevokes(r));
    OneMoreStep(Start(now), revoked, ServerIssues(r, false));
    OneMoreStep(Start(now), served, AnswerArrives);
    OneMoreStep(Start(now), served + [AnswerArrives], StorageWritten(false, e));
    RefreshSteps(s, e);
  }
}
