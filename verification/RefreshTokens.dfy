/** internal/auth/service.go and internal/db/query/refresh_tokens.sql: refresh-token rotation
    under concurrency.

    Each SQL statement outside a transaction, and each transaction, is one atomic step. Token
    hashes are injective, so a token is identified with the number of its issue. */
module RefreshTokens {
  import opened Wrappers

  datatype Client = Web | Mobile

  datatype Token = Token(user: nat, client: Client, expiresAt: int, revoked: bool)

  /** What was issued, kept for ever: the parent is the token exchanged for this one, the root
      the sign-in the chain began with. */
  datatype Issue = Issue(user: nat, client: Client, parent: Option<nat>, root: nat)

  datatype Process =
    | Presenting(token: nat)                            // about to look the token up
    | Replaying(user: nat)                              // read a revoked token, about to revoke the family
    | Rotating(token: nat, user: nat, client: Client)   // read a live token, about to run the transaction
    | Rotated(token: nat, successor: nat)
    | Refused(error: Error)

  datatype Error = InvalidToken | TokenExpired | Internal

  datatype State = State(
    now: int, ttlWeb: int, ttlMobile: int,
    tokens: map<nat, Token>, issues: seq<Issue>, procs: map<nat, Process>)
  {
    predicate IsLive(t: nat) {
      t in tokens && !tokens[t].revoked
    }

    function Ttl(client: Client): int {
      if client.Mobile? then ttlMobile else ttlWeb
    }

    ghost function LiveOf(user: nat): set<nat> {
      set t | t in tokens && !tokens[t].revoked && tokens[t].user == user
    }
  }

  datatype Action =
    | SignIn(user: nat, client: Client)
    | Arrive(p: nat, token: nat)
    | Read(p: nat)
    | RevokeFamily(p: nat)
    | Rotate(p: nat)
    | Fail(p: nat, error: Error)   // a statement failed or the user is gone: rolled back
    | SignOut(token: nat)
    | SignOutEverywhere(user: nat)
    | Cleanup
    | Tick(now: int)

  const THIRTY_DAYS := 30 * 24 * 3600 * 1_000_000_000

  function Issued(s: State, user: nat, client: Client, parent: Option<nat>, root: nat): State {
    s.(issues := s.issues + [Issue(user, client, parent, root)],
       tokens := s.tokens[|s.issues| := Token(user, client, s.now + s.Ttl(client), false)])
  }

  // UPDATE ... SET revoked_at = now() WHERE id = @id AND revoked_at IS NULL
  function Revoke(s: State, t: nat): State {
    if s.IsLive(t) then s.(tokens := s.tokens[t := s.tokens[t].(revoked := true)]) else s
  }

  function RevokeAll(s: State, user: nat): State {
    s.(tokens := map t | t in s.tokens ::
         if s.tokens[t].user == user then s.tokens[t].(revoked := true) else s.tokens[t])
  }

  function Become(s: State, p: nat, q: Process): State {
    s.(procs := s.procs[p := q])
  }

  predicate Enabled(s: State, a: Action) {
    match a
    case Arrive(p, _) => p !in s.procs
    case Read(p) => p in s.procs && s.procs[p].Presenting?
    case RevokeFamily(p) => p in s.procs && s.procs[p].Replaying?
    case Rotate(p) => p in s.procs && s.procs[p].Rotating? && s.procs[p].token < |s.issues|
    case Fail(p, _) => p in s.procs && (s.procs[p].Presenting? || s.procs[p].Replaying? || s.procs[p].Rotating?)
    case Tick(now) => s.now <= now
    case _ => true
  }

  function Apply(s: State, a: Action): State
    requires Enabled(s, a)
  {
    match a
    case SignIn(user, client) => Issued(s, user, client, None, |s.issues|)
    case Arrive(p, token) => Become(s, p, Presenting(token))
    case Read(p) =>
      var t := s.procs[p].token;
      Become(s, p,
        if t !in s.tokens then Refused(InvalidToken)
        else if s.tokens[t].revoked then Replaying(s.tokens[t].user)
        else if s.now > s.tokens[t].expiresAt then Refused(TokenExpired)
        else Rotating(t, s.tokens[t].user, s.tokens[t].client))
    case RevokeFamily(p) => Become(RevokeAll(s, s.procs[p].user), p, Refused(InvalidToken))
    case Rotate(p) =>
      var q := s.procs[p];
      if s.IsLive(q.token) then
        Become(Issued(Revoke(s, q.token), q.user, q.client, Some(q.token), s.issues[q.token].root), p,
               Rotated(q.token, |s.issues|))
      else Become(s, p, Refused(InvalidToken))
    case Fail(p, error) => Become(s, p, Refused(error))
    case SignOut(token) => Revoke(s, token)
    case SignOutEverywhere(user) => RevokeAll(s, user)
    case Cleanup => s.(tokens := map t | t in s.tokens && s.tokens[t].expiresAt >= s.now - THIRTY_DAYS :: s.tokens[t])
    case Tick(now) => s.(now := now)
  }

  ghost predicate Next(s: State, s': State) {
    exists a :: Enabled(s, a) && s' == Apply(s, a)
  }

  ghost predicate Initial(s: State) {
    s.tokens == map[] && s.issues == [] && s.procs == map[]
  }

  ghost predicate Run(run: seq<State>) {
    run != [] && Initial(run[0]) && forall i | 0 <= i < |run| - 1 :: Next(run[i], run[i + 1])
  }

  // --- the invariant -------------------------------------------------------------------

  /** Issue i continues the chain of its parent. */
  ghost predicate IssueOk(issues: seq<Issue>, i: int)
    requires 0 <= i < |issues|
  {
    var e := issues[i];
    && e.root <= i && issues[e.root].parent.None? && issues[e.root].user == e.user && issues[e.root].client == e.client
    && match e.parent
       case None => e.root == i
       case Some(j) => j < i && issues[j].user == e.user && issues[j].client == e.client && issues[j].root == e.root
  }

  ghost predicate TokensOk(s: State) {
    forall t | t in s.tokens :: t < |s.issues| && s.tokens[t].user == s.issues[t].user
        && s.tokens[t].client == s.issues[t].client
  }

  /** A token that has been exchanged is not live, and has one successor. */
  ghost predicate ExchangesOk(s: State) {
    && (forall i | 0 <= i < |s.issues| && s.issues[i].parent.Some? :: !s.IsLive(s.issues[i].parent.value))
    && (forall i, j | 0 <= i < j < |s.issues| && s.issues[i].parent.Some? :: s.issues[i].parent != s.issues[j].parent)
  }

  ghost predicate ProcessOk(issues: seq<Issue>, q: Process) {
    match q
    case Rotating(t, u, c) => t < |issues| && issues[t].user == u && issues[t].client == c
    case Rotated(t, n) => n < |issues| && issues[n].parent == Some(t)
    case _ => true
  }

  ghost predicate IssuesOk(issues: seq<Issue>) {
    forall i | 0 <= i < |issues| :: IssueOk(issues, i)
  }

  ghost predicate ProcessesOk(s: State) {
    && (forall p | p in s.procs :: ProcessOk(s.issues, s.procs[p]))
    && (forall p, q | p in s.procs && q in s.procs && p != q && s.procs[p].Rotated? && s.procs[q].Rotated? ::
          s.procs[p].successor != s.procs[q].successor)
  }

  ghost predicate Inv(s: State) {
    IssuesOk(s.issues) && TokensOk(s) && ExchangesOk(s) && ProcessesOk(s)
  }

  /** A sign-in or a rotation appends one issue that continues its parent's chain. */
  lemma IssueKeepsChains(issues: seq<Issue>, e: Issue)
    requires IssuesOk(issues)
    requires match e.parent
             case None => e.root == |issues|
             case Some(j) =>
               j < |issues| && issues[j].user == e.user && issues[j].client == e.client && issues[j].root == e.root
    ensures IssuesOk(issues + [e])
  {
    var issues' := issues + [e];
    forall i | 0 <= i < |issues'| ensures IssueOk(issues', i) {
      if i < |issues| {
        assert IssueOk(issues, i);
      } else if e.parent.Some? {
        assert IssueOk(issues, e.parent.value);
      }
    }
  }

  lemma IssueKeepsExchanges(s: State, s': State, e: Issue)
    requires IssuesOk(s.issues) && TokensOk(s) && ExchangesOk(s)
    requires s'.issues == s.issues + [e]
    requires forall t: nat | t < |s.issues| :: s'.IsLive(t) ==> s.IsLive(t)
    requires e.parent.Some? ==> s.IsLive(e.parent.value) && !s'.IsLive(e.parent.value)
    ensures ExchangesOk(s')
  {
    forall i | 0 <= i < |s'.issues| && s'.issues[i].parent.Some? ensures !s'.IsLive(s'.issues[i].parent.value) {
      if i < |s.issues| {
        assert !s.IsLive(s.issues[i].parent.value) && IssueOk(s.issues, i);
      }
    }
  }

  lemma IssueKeepsProcesses(s: State, s': State, e: Issue)
    requires ProcessesOk(s) && s'.issues == s.issues + [e]
    requires forall p | p in s'.procs && (p !in s.procs || s'.procs[p] != s.procs[p]) ::
               ProcessOk(s'.issues, s'.procs[p]) && s'.procs[p].Rotated? && s'.procs[p].successor == |s.issues|
    requires forall p, q | p in s'.procs && q in s'.procs && p != q ::
               (p in s.procs && s'.procs[p] == s.procs[p]) || (q in s.procs && s'.procs[q] == s.procs[q])
    ensures ProcessesOk(s')
  {
    forall p | p in s'.procs ensures ProcessOk(s'.issues, s'.procs[p]) {
      if p in s.procs { assert ProcessOk(s.issues, s.procs[p]); }
    }
    forall p, q | p in s'.procs && q in s'.procs && p != q && s'.procs[p].Rotated? && s'.procs[q].Rotated?
      ensures s'.procs[p].successor != s'.procs[q].successor
    {
      if p in s.procs { assert ProcessOk(s.issues, s.procs[p]); }
      if q in s.procs { assert ProcessOk(s.issues, s.procs[q]); }
    }
  }

  lemma RotateOk(s: State, p: nat)
    requires Inv(s) && Enabled(s, Rotate(p)) && s.IsLive(s.procs[p].token)
    ensures Inv(Apply(s, Rotate(p)))
  {
    var q, s' := s.procs[p], Apply(s, Rotate(p));
    var e := Issue(q.user, q.client, Some(q.token), s.issues[q.token].root);
    assert ProcessOk(s.issues, q);
    IssueKeepsChains(s.issues, e);
    IssueKeepsExchanges(s, s', e);
    IssueKeepsProcesses(s, s', e);
  }

  lemma SignInOk(s: State, user: nat, client: Client)
    requires Inv(s)
    ensures Inv(Apply(s, SignIn(user, client)))
  {
    var e := Issue(user, client, None, |s.issues|);
    IssueKeepsChains(s.issues, e);
    IssueKeepsExchanges(s, Apply(s, SignIn(user, client)), e);
    IssueKeepsProcesses(s, Apply(s, SignIn(user, client)), e);
  }

  /** Revoking and deleting rows keeps the invariant. */
  lemma FewerLiveOk(s: State, s': State)
    requires Inv(s) && s'.issues == s.issues && s'.procs == s.procs
    requires forall t | t in s'.tokens :: t in s.tokens && s'.tokens[t].user == s.tokens[t].user
                                         && s'.tokens[t].client == s.tokens[t].client && (s'.IsLive(t) ==> s.IsLive(t))
    ensures Inv(s')
  {
  }

  /** So does moving one process other than by a rotation. */
  lemma BecomeOk(s: State, p: nat, q: Process)
    requires Inv(s) && ProcessOk(s.issues, q) && !q.Rotated?
    ensures Inv(Become(s, p, q))
  {
  }

  lemma StepOk(s: State, a: Action)
    requires Inv(s) && Enabled(s, a)
    ensures Inv(Apply(s, a))
  {
    match a
    case SignIn(user, client) => SignInOk(s, user, client);
    case Rotate(p) =>
      if s.IsLive(s.procs[p].token) { RotateOk(s, p); } else { BecomeOk(s, p, Refused(InvalidToken)); }
    case Arrive(p, token) => BecomeOk(s, p, Presenting(token));
    case Read(p) => BecomeOk(s, p, Apply(s, a).procs[p]);
    case Fail(p, error) => BecomeOk(s, p, Refused(error));
    case RevokeFamily(p) =>
      FewerLiveOk(s, RevokeAll(s, s.procs[p].user));
      BecomeOk(RevokeAll(s, s.procs[p].user), p, Refused(InvalidToken));
    case _ => FewerLiveOk(s, Apply(s, a));
  }

  lemma {:induction false} RunOk(run: seq<State>, i: nat)
    requires Run(run) && i < |run|
    ensures Inv(run[i])
  {
    if i > 0 {
      RunOk(run, i - 1);
      assert Next(run[i - 1], run[i - 1 + 1]);
      var a :| Enabled(run[i - 1], a) && run[i] == Apply(run[i - 1], a);
      StepOk(run[i - 1], a);
    }
  }

  // --- what holds of every run -----------------------------------------------------------

  /** No token is ever exchanged for two successors, whoever races to exchange it. */
  lemma ExchangedAtMostOnce(run: seq<State>, i: nat)
    requires Run(run) && i < |run|
    ensures forall a, b | 0 <= a < b < |run[i].issues| && run[i].issues[a].parent.Some? ::
              run[i].issues[a].parent != run[i].issues[b].parent
    ensures forall p, q | p in run[i].procs && q in run[i].procs && p != q && run[i].procs[p].Rotated?
        && run[i].procs[q].Rotated? ::
              run[i].procs[p].token != run[i].procs[q].token
  {
    RunOk(run, i);
    var s := run[i];
    forall p, q | p in s.procs && q in s.procs && p != q && s.procs[p].Rotated? && s.procs[q].Rotated?
      ensures s.procs[p].token != s.procs[q].token
    {
      assert ProcessOk(s.issues, s.procs[p]) && ProcessOk(s.issues, s.procs[q]);
      var a, b := s.procs[p].successor, s.procs[q].successor;
      assert if a < b then s.issues[a].parent != s.issues[b].parent else s.issues[b].parent != s.issues[a].parent;
    }
  }

  /** A rotation chain keeps the user and the client type of the sign-in it began with, so a
      mobile session never shortens itself to the web lifetime. */
  lemma ChainsKeepTheirClient(run: seq<State>, i: nat, t: nat)
    requires Run(run) && i < |run| && t in run[i].tokens
    ensures t < |run[i].issues| && run[i].issues[t].root <= t
    ensures var root := run[i].issues[run[i].issues[t].root];
            root.parent.None? && root.client == run[i].tokens[t].client && root.user == run[i].tokens[t].user
  {
    RunOk(run, i);
    assert IssueOk(run[i].issues, t);
  }

  lemma RotateSwapsOne(s: State, p: nat, user: nat)
    requires Inv(s) && Enabled(s, Rotate(p)) && s.IsLive(s.procs[p].token)
    ensures var s' := Apply(s, Rotate(p)); var t := s.procs[p].token;
            s'.LiveOf(user) == if s.tokens[t].user == user then s.LiveOf(user) - {t} + {|s.issues|} else s.LiveOf(user)
  {
    var q := s.procs[p];
    assert ProcessOk(s.issues, q);
    assert |s.issues| !in s.tokens && s.tokens[q.token].user == q.user;
  }

  /** A committed refresh swaps one live token for another; a refused one changes no token. */
  lemma RefreshKeepsLiveCount(s: State, p: nat, user: nat)
    requires Inv(s) && Enabled(s, Rotate(p))
    ensures |Apply(s, Rotate(p)).LiveOf(user)| == |s.LiveOf(user)|
    ensures !s.IsLive(s.procs[p].token) ==> Apply(s, Rotate(p)).tokens == s.tokens
  {
    var t := s.procs[p].token;
    if s.IsLive(t) {
      RotateSwapsOne(s, p, user);
      assert |s.issues| !in s.LiveOf(user);
      assert s.tokens[t].user == user ==> t in s.LiveOf(user);
    }
  }

  /** Every live token of the user descends from a sign-in numbered n or later. */
  ghost predicate LiveSince(s: State, user: nat, n: nat) {
    forall t | t in s.tokens && s.IsLive(t) && s.tokens[t].user == user :: t < |s.issues| && n <= s.issues[t].root
  }

  lemma StepKeepsLiveSince(s: State, a: Action, user: nat, n: nat)
    requires Inv(s) && Enabled(s, a) && LiveSince(s, user, n) && n <= |s.issues|
    ensures LiveSince(Apply(s, a), user, n) && |s.issues| <= |Apply(s, a).issues|
  {
    if a.Rotate? { assert ProcessOk(s.issues, s.procs[a.p]); }
  }

  lemma NextKeepsLiveSince(s: State, s': State, user: nat, n: nat)
    requires Inv(s) && Next(s, s') && LiveSince(s, user, n) && n <= |s.issues|
    ensures LiveSince(s', user, n) && n <= |s'.issues|
  {
    var a :| Enabled(s, a) && s' == Apply(s, a);
    StepKeepsLiveSince(s, a, user, n);
  }

  lemma {:induction false} StaysSince(run: seq<State>, i: nat, j: nat, user: nat, n: nat)
    requires Run(run) && i <= j < |run| && LiveSince(run[i], user, n) && n <= |run[i].issues|
    ensures LiveSince(run[j], user, n) && n <= |run[j].issues|
  {
    if i < j {
      StaysSince(run, i, j - 1, user, n);
      RunOk(run, j - 1);
      assert Next(run[j - 1], run[j - 1 + 1]);
      NextKeepsLiveSince(run[j - 1], run[j], user, n);
    }
  }

  lemma FamilyIsRevoked(s: State, p: nat)
    requires Enabled(s, RevokeFamily(p))
    ensures LiveSince(Apply(s, RevokeFamily(p)), s.procs[p].user, |s.issues|)
    ensures Apply(s, RevokeFamily(p)).issues == s.issues
  {
  }

  /** After a replay of a revoked token has revoked the family, every token of that user that is
      live later descends from a later sign-in: nothing the thief or the victim held before
      survives, directly or through rotation. */
  lemma ReplayEndsTheFamily(run: seq<State>, i: nat, j: nat, p: nat, user: nat)
    requires Run(run) && i + 1 <= j < |run|
    requires Enabled(run[i], RevokeFamily(p)) && run[i + 1] == Apply(run[i], RevokeFamily(p))
    requires user == run[i].procs[p].user
    ensures |run[i].issues| <= |run[j].issues|
    ensures LiveSince(run[j], user, |run[i].issues|)
  {
    FamilyIsRevoked(run[i], p);
    StaysSince(run, i + 1, j, user, |run[i].issues|);
  }

  /** Presenting a token that has already been exchanged is always recognized as a replay, as
      long as its row has not been cleaned up. */
  lemma ReplayIsRecognized(run: seq<State>, i: nat, p: nat, child: nat)
    requires Run(run) && i < |run| && Enabled(run[i], Read(p))
    requires child < |run[i].issues| && run[i].issues[child].parent == Some(run[i].procs[p].token)
    ensures var t := run[i].procs[p].token;
            Apply(run[i], Read(p)).procs[p] ==
            if t in run[i].tokens then Replaying(run[i].tokens[t].user) else Refused(InvalidToken)
  {
    RunOk(run, i);
    assert !run[i].IsLive(run[i].procs[p].token);
  }

  /** Of two requests that both read the token while it was live, the loser is turned away, but
      unlike a replay it leaves the winner's family alone: the successor stays live. */
  lemma RaceLoserSparesTheFamily(s: State, p: nat, q: nat)
    requires Inv(s) && p != q && Enabled(s, Rotate(p)) && Enabled(s, Rotate(q))
    requires s.procs[p].token == s.procs[q].token && s.IsLive(s.procs[p].token)
    ensures var s1 := Apply(s, Rotate(p)); Enabled(s1, Rotate(q))
    ensures var s2 := Apply(Apply(s, Rotate(p)), Rotate(q));
            s2.procs[q] == Refused(InvalidToken) && s2.procs[p].Rotated? && s2.IsLive(s2.procs[p].successor)
  {
  }

  // --- what a request is answered --------------------------------------------------------

  /** Process p read the unrevoked token t, no later than its expiry, in the step from s to s'. */
  ghost predicate ReadInTime(s: State, s': State, p: nat, t: nat) {
    && p in s.procs && s.procs[p] == Presenting(t) && t in s.tokens
    && !s.tokens[t].revoked && s.now <= s.tokens[t].expiresAt
    && s' == Apply(s, Read(p))
  }

  ghost predicate WasReadInTime(run: seq<State>, i: int, p: nat, t: nat) {
    exists j :: 0 <= j < i && j < |run| - 1 && ReadInTime(run[j], run[j + 1], p, t)
  }

  ghost predicate Holds(q: Process, t: nat) {
    (q.Rotating? || q.Rotated?) && q.token == t
  }

  lemma NextReads(s: State, s': State, p: nat, t: nat)
    requires Next(s, s') && p in s'.procs && Holds(s'.procs[p], t)
    ensures (p in s.procs && Holds(s.procs[p], t)) || ReadInTime(s, s', p, t)
  {
    var a :| Enabled(s, a) && s' == Apply(s, a);
  }

  /** In every run, a process that exchanged a token, or is about to, read it unrevoked and no later
      than its expiry. */
  lemma {:induction false} ExchangedInTime(run: seq<State>, i: nat, p: nat, t: nat)
    requires Run(run) && i < |run| && p in run[i].procs && Holds(run[i].procs[p], t)
    ensures WasReadInTime(run, i, p, t)
  {
    if i > 0 {
      assert Next(run[i - 1], run[i - 1 + 1]);
      NextReads(run[i - 1], run[i], p, t);
      if !ReadInTime(run[i - 1], run[i - 1 + 1], p, t) {
        ExchangedInTime(run, i - 1, p, t);
      }
    }
  }

  /** An unknown token is answered INVALID_TOKEN, an unrevoked expired one TOKEN_EXPIRED and only
      that, and neither changes a row. */
  lemma ExpiryIsAnswered(s: State, p: nat)
    requires Enabled(s, Read(p))
    ensures var s', t := Apply(s, Read(p)), s.procs[p].token;
            && s'.tokens == s.tokens && s'.issues == s.issues
            && (t !in s.tokens ==> s'.procs[p] == Refused(InvalidToken))
            && (s'.procs[p] == Refused(TokenExpired) <==>
                (t in s.tokens && !s.tokens[t].revoked && s.tokens[t].expiresAt < s.now))
  {
  }

  /** The lifetime of a client type. */
  function Lifetime(s: State, client: Client): int {
    match client
    case Web => s.ttlWeb
    case Mobile => s.ttlMobile
  }

  /** A live token that has not expired, presented and exchanged without interruption, is revoked,
      and its one successor is live and lasts from now for the lifetime of the same client type. */
  lemma RefreshSucceeds(s: State, p: nat, t: nat) returns (end: State)
    requires Inv(s) && p !in s.procs && t in s.tokens && !s.tokens[t].revoked && s.now <= s.tokens[t].expiresAt
    ensures var s1 := Apply(s, Arrive(p, t));
            && Enabled(s1, Read(p)) && Enabled(Apply(s1, Read(p)), Rotate(p))
            && end == Apply(Apply(s1, Read(p)), Rotate(p))
    ensures var n, row := |s.issues|, s.tokens[t];
            && end.procs[p] == Rotated(t, n) && t < n
            && end.issues == s.issues + [Issue(row.user, row.client, Some(t), s.issues[t].root)]
            && end.tokens == s.tokens[t := row.(revoked := true)]
                             [n := Token(row.user, row.client, s.now + Lifetime(s, row.client), false)]
  {
    var s1 := Apply(s, Arrive(p, t));
    var s2 := Apply(s1, Read(p));
    assert s2.procs[p] == Rotating(t, s.tokens[t].user, s.tokens[t].client);
    end := Apply(s2, Rotate(p));
  }

  /** A replay, presented without interruption, leaves its user without a live token and every other
      row as it was. */
  lemma ReplayRevokesTheFamily(s: State, p: nat, t: nat) returns (end: State)
    requires p !in s.procs && t in s.tokens && s.tokens[t].revoked
    ensures var s1 := Apply(s, Arrive(p, t));
            && Enabled(s1, Read(p)) && Enabled(Apply(s1, Read(p)), RevokeFamily(p))
            && end == Apply(Apply(s1, Read(p)), RevokeFamily(p))
    ensures end.procs[p] == Refused(InvalidToken)
    ensures OnlyRevokes(s, end, s.tokens[t].user)
  {
    var s1 := Apply(s, Arrive(p, t));
    var s2 := Apply(s1, Read(p));
    assert s2.procs[p] == Replaying(s.tokens[t].user);
    end := Apply(s2, RevokeFamily(p));
  }

  /** The tokens of one user are revoked, and nothing else about any token changes. */
  ghost predicate OnlyRevokes(s: State, s': State, user: nat) {
    && s'.tokens.Keys == s.tokens.Keys
    && forall t | t in s.tokens ::
         s'.tokens[t] == if s.tokens[t].user == user then s.tokens[t].(revoked := true) else s.tokens[t]
  }

  /** Signing out leaves the named token not live and touches no other; signing out everywhere
      leaves the user without a live token and touches no other user's. */
  lemma SignOutEndsTheSession(s: State, t: nat, user: nat)
    ensures var s' := Apply(s, SignOut(t));
            && !s'.IsLive(t) && s'.tokens.Keys == s.tokens.Keys && s'.issues == s.issues
            && (forall u | u in s.tokens && u != t :: s'.tokens[u] == s.tokens[u])
            && (t in s.tokens ==> s'.tokens[t] == s.tokens[t].(revoked := true))
    ensures OnlyRevokes(s, Apply(s, SignOutEverywhere(user)), user)
  {
  }

  /** Signing in issues one live token, for the lifetime of its client type, as the beginning of a
      chain. */
  lemma SignInIssues(s: State, user: nat, client: Client)
    ensures var s', n := Apply(s, SignIn(user, client)), |s.issues|;
            && s'.tokens == s.tokens[n := Token(user, client, s.now + Lifetime(s, client), false)]
            && s'.issues == s.issues + [Issue(user, client, None, n)] && s'.procs == s.procs
  {
  }

  /** The clean-up deletes exactly the tokens that expired more than thirty days ago. */
  lemma CleanupDeletesTheOld(s: State, t: nat)
    ensures var s' := Apply(s, Cleanup);
            && (t in s'.tokens <==> t in s.tokens && s.now - 2_592_000_000_000_000 <= s.tokens[t].expiresAt)
            && (t in s'.tokens ==> s'.tokens[t] == s.tokens[t])
  {
  }

  /** A failed request changes no token: what it did is rolled back. */
  lemma FailureChangesNothing(s: State, p: nat, error: Error)
    requires Enabled(s, Fail(p, error))
    ensures Apply(s, Fail(p, error)) == s.(procs := s.procs[p := Refused(error)])
  {
  }
}
