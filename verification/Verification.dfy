/** internal/auth/verification.go and internal/db/query/verification_codes.sql: one-time codes
    for an email address, under concurrent submissions, resends and crashes.

    Each SQL statement is one atomic step. Rows are numbered in the order they are created and
    are never deleted. Hashes are injective, so a row holds the code itself. */
module Verification {
  import opened Wrappers
  import opened Counting

  const MAX_ATTEMPTS := 5
  const TTL := 15 * 60 * 1_000_000_000

  /** What set consumed_at: a resend, the attempt limit, or a matching comparison. */
  datatype Consumer = Resend | Limit | Match(comparison: nat)

  datatype Code = Code(user: nat, email: string, secret: string, attempts: nat, expiresAt: int,
                       consumer: Option<Consumer>)

  /** A submitted code compared against a row, kept for ever; the ticket is the attempt count
      that IncrementVerificationAttempts returned. */
  datatype Comparison = Comparison(process: nat, row: nat, ticket: nat, email: string, submitted: string, readAt: int)

  datatype Error = ValidationFailed | InvalidCode | TooManyAttempts | Internal

  datatype Process =
    | Retiring(user: nat, email: string, secret: string)
    | Creating(user: nat, email: string, secret: string)
    | Issued
    | Submitted(email: string, code: string)
    | Attempting(row: nat, email: string, code: string, readAt: int)                // read a live row
    | Comparing(row: nat, email: string, code: string, readAt: int, ticket: nat)  // attempt counted
    | Burning(row: nat)                                                           // over the limit
    | Matched(comparison: nat)
    | Won(comparison: nat)                                                        // consumed the row
    | Verified(comparison: nat)
    | Refused(error: Error)
  {
    predicate IsDone() {
      Issued? || Verified? || Refused?
    }
  }

  datatype State = State(now: int, codes: seq<Code>, verified: set<nat>, procs: map<nat, Process>, log: seq<Comparison>)

  datatype Action =
    | StartIssue(p: nat, user: nat, email: string, secret: string)
    | Retire(p: nat)
    | Create(p: nat)
    | StartVerify(p: nat, email: string, code: string)
    | Lookup(p: nat)
    | CountAttempt(p: nat)
    | Compare(p: nat)
    | Burn(p: nat)
    | Consume(p: nat)
    | MarkVerified(p: nat)
    | Fail(p: nat)           // a statement failed, or the server stopped
    | Tick(now: int)

  function Become(s: State, p: nat, q: Process): State {
    s.(procs := s.procs[p := q])
  }

  /** ORDER BY created_at DESC LIMIT 1 over the rows of the address that are not consumed. */
  function NewestLive(codes: seq<Code>, email: string): (r: Option<nat>)
    ensures r.Some? ==> r.value < |codes| && codes[r.value].email == email && codes[r.value].consumer.None?
    ensures forall i | 0 <= i < |codes| && codes[i].email == email && codes[i].consumer.None? :: r.Some? && i <= r.value
  {
    if codes == [] then None
    else
      var n := |codes| - 1;
      if codes[n].email == email && codes[n].consumer.None? then Some(n) else NewestLive(codes[..n], email)
  }

  function ConsumeRow(codes: seq<Code>, row: nat, c: Consumer): seq<Code>
    requires row < |codes|
  {
    if codes[row].consumer.None? then codes[row := codes[row].(consumer := Some(c))] else codes
  }

  function RetireAll(codes: seq<Code>, email: string): seq<Code> {
    seq(|codes|, i requires 0 <= i < |codes| =>
      if codes[i].email == email && codes[i].consumer.None? then codes[i].(consumer := Some(Resend)) else codes[i])
  }

  predicate Enabled(s: State, a: Action) {
    match a
    case StartIssue(p, _, _, _) => p !in s.procs
    case Retire(p) => p in s.procs && s.procs[p].Retiring?
    case Create(p) => p in s.procs && s.procs[p].Creating?
    case StartVerify(p, _, _) => p !in s.procs
    case Lookup(p) => p in s.procs && s.procs[p].Submitted?
    case CountAttempt(p) => p in s.procs && s.procs[p].Attempting? && s.procs[p].row < |s.codes|
    case Compare(p) => p in s.procs && s.procs[p].Comparing? && s.procs[p].row < |s.codes|
    case Burn(p) => p in s.procs && s.procs[p].Burning? && s.procs[p].row < |s.codes|
    case Consume(p) => p in s.procs && s.procs[p].Matched? && s.procs[p].comparison < |s.log|
        && s.log[s.procs[p].comparison].row < |s.codes|
    case MarkVerified(p) => p in s.procs && s.procs[p].Won? && s.procs[p].comparison < |s.log|
        && s.log[s.procs[p].comparison].row < |s.codes|
    case Fail(p) => p in s.procs && !s.procs[p].IsDone()
    case Tick(now) => s.now <= now
  }

  function Apply(s: State, a: Action): State
    requires Enabled(s, a)
  {
    match a
    case StartIssue(p, user, email, secret) => Become(s, p, Retiring(user, email, secret))
    case Retire(p) =>
      var q := s.procs[p];
      Become(s.(codes := RetireAll(s.codes, q.email)), p, Creating(q.user, q.email, q.secret))
    case Create(p) =>
      var q := s.procs[p];
      Become(s.(codes := s.codes + [Code(q.user, q.email, q.secret, 0, s.now + TTL, None)]), p, Issued)
    case StartVerify(p, email, code) =>
      Become(s, p, if email == "" || code == "" then Refused(ValidationFailed) else Submitted(email, code))
    case Lookup(p) =>
      var q := s.procs[p];
      var row := NewestLive(s.codes, q.email);
      Become(s, p,
        if row.None? || s.now > s.codes[row.value].expiresAt then Refused(InvalidCode)
        else Attempting(row.value, q.email, q.code, s.now))
    case CountAttempt(p) =>
      var q := s.procs[p];
      var ticket := s.codes[q.row].attempts + 1;
      Become(s.(codes := s.codes[q.row := s.codes[q.row].(attempts := ticket)]), p,
        if ticket > MAX_ATTEMPTS then Burning(q.row) else Comparing(q.row, q.email, q.code, q.readAt, ticket))
    case Compare(p) =>
      var q := s.procs[p];
      Become(s.(log := s.log + [Comparison(p, q.row, q.ticket, q.email, q.code, q.readAt)]), p,
        if q.code == s.codes[q.row].secret then Matched(|s.log|) else Refused(InvalidCode))
    case Burn(p) =>
      Become(s.(codes := ConsumeRow(s.codes, s.procs[p].row, Limit)), p, Refused(TooManyAttempts))
    case Consume(p) =>
      var k := s.procs[p].comparison;
      var row := s.log[k].row;
      Become(s.(codes := ConsumeRow(s.codes, row, Match(k))), p,
        if s.codes[row].consumer.None? then Won(k) else Refused(InvalidCode))
    case MarkVerified(p) =>
      var k := s.procs[p].comparison;
      Become(s.(verified := s.verified + {s.codes[s.log[k].row].user}), p, Verified(k))
    case Fail(p) => Become(s, p, Refused(Internal))
    case Tick(now) => s.(now := now)
  }

  ghost predicate Next(s: State, s': State) {
    exists a :: Enabled(s, a) && s' == Apply(s, a)
  }

  ghost predicate Initial(s: State) {
    s.codes == [] && s.verified == {} && s.procs == map[] && s.log == []
  }

  ghost predicate Run(run: seq<State>) {
    run != [] && Initial(run[0]) && forall i | 0 <= i < |run| - 1 :: Next(run[i], run[i + 1])
  }

  // --- what only grows -------------------------------------------------------------------

  /** A row keeps what it was issued with, its attempts never fall, and once consumed it stays
      consumed by the same consumer. */
  ghost predicate RowGrows(c: Code, c': Code) {
    && c' == c.(attempts := c'.attempts, consumer := c'.consumer)
    && c.attempts <= c'.attempts
    && (c.consumer.Some? ==> c'.consumer == c.consumer)
  }

  ghost predicate RowsGrow(codes: seq<Code>, codes': seq<Code>) {
    |codes| <= |codes'| && forall r | 0 <= r < |codes| :: RowGrows(codes[r], codes'[r])
  }

  ghost predicate Grows(s: State, s': State) {
    RowsGrow(s.codes, s'.codes) && s.log <= s'.log && s.verified <= s'.verified
  }

  lemma StepGrows(s: State, a: Action)
    requires Enabled(s, a)
    ensures Grows(s, Apply(s, a))
  {
  }

  lemma NextGrows(s: State, s': State)
    requires Next(s, s')
    ensures Grows(s, s')
  {
    var a :| Enabled(s, a) && s' == Apply(s, a);
    StepGrows(s, a);
  }

  lemma {:induction false} RunGrows(run: seq<State>, i: nat, j: nat)
    requires Run(run) && i <= j < |run|
    ensures Grows(run[i], run[j])
  {
    if i < j {
      RunGrows(run, i, j - 1);
      assert Next(run[j - 1], run[j - 1 + 1]);
      NextGrows(run[j - 1], run[j]);
    }
  }

  // --- the invariant -----------------------------------------------------------------------

  ghost predicate AttemptOk(codes: seq<Code>, row: nat, ticket: nat) {
    row < |codes| && 1 <= ticket <= MAX_ATTEMPTS && ticket <= codes[row].attempts
  }

  /** A comparison was against a row of the submitted address that had not expired when read. */
  ghost predicate ComparisonOk(codes: seq<Code>, c: Comparison) {
    AttemptOk(codes, c.row, c.ticket) && codes[c.row].email == c.email && c.readAt <= codes[c.row].expiresAt
  }

  ghost predicate Matches(codes: seq<Code>, log: seq<Comparison>, k: nat) {
    k < |log| && log[k].row < |codes| && log[k].submitted == codes[log[k].row].secret
  }

  ghost predicate ProcessOk(codes: seq<Code>, log: seq<Comparison>, p: nat, q: Process) {
    match q
    case Attempting(row, email, _, readAt) => row < |codes| && codes[row].email == email
        && readAt <= codes[row].expiresAt
    case Comparing(row, email, code, readAt, ticket) =>
      ComparisonOk(codes, Comparison(p, row, ticket, email, code, readAt))
    case Burning(row) => row < |codes|
    case Matched(k) => Matches(codes, log, k) && log[k].process == p
    case Won(k) => Matches(codes, log, k) && log[k].process == p && codes[log[k].row].consumer == Some(Match(k))
    case Verified(k) => Matches(codes, log, k) && log[k].process == p && codes[log[k].row].consumer == Some(Match(k))
    case _ => true
  }

  ghost predicate SameTicket(row: nat, ticket: nat, c: Comparison) {
    row == c.row && ticket == c.ticket
  }

  /** A ticket is held by one process or has been spent on one comparison. */
  ghost predicate TicketsOk(procs: map<nat, Process>, log: seq<Comparison>) {
    && (forall a, b | 0 <= a < b < |log| :: !SameTicket(log[a].row, log[a].ticket, log[b]))
    && (forall p, a | p in procs && procs[p].Comparing? && 0 <= a < |log| ::
          !SameTicket(procs[p].row, procs[p].ticket, log[a]))
    && (forall p, q | p in procs && q in procs && p != q && procs[p].Comparing? && procs[q].Comparing? ::
          procs[p].row != procs[q].row || procs[p].ticket != procs[q].ticket)
  }

  ghost predicate ProcessesOk(s: State) {
    forall p | p in s.procs :: ProcessOk(s.codes, s.log, p, s.procs[p])
  }

  ghost predicate LogOk(codes: seq<Code>, log: seq<Comparison>) {
    forall k | 0 <= k < |log| :: ComparisonOk(codes, log[k])
  }

  /** A row consumed by a match was consumed by a comparison against it that matched. */
  ghost predicate ConsumersOk(codes: seq<Code>, log: seq<Comparison>) {
    forall r | 0 <= r < |codes| && codes[r].consumer.Some? && codes[r].consumer.value.Match? ::
      Matches(codes, log, codes[r].consumer.value.comparison) && log[codes[r].consumer.value.comparison].row == r
  }

  ghost predicate Owns(codes: seq<Code>, r: int, user: nat) {
    0 <= r < |codes| && codes[r].user == user && codes[r].consumer.Some? && codes[r].consumer.value.Match?
  }

  ghost predicate VerifiedOk(s: State) {
    forall u | u in s.verified :: exists r :: Owns(s.codes, r, u)
  }

  ghost predicate Inv(s: State) {
    LogOk(s.codes, s.log) && ConsumersOk(s.codes, s.log) && VerifiedOk(s) && ProcessesOk(s) && TicketsOk(s.procs, s.log)
  }

  lemma ProcessStaysOk(codes: seq<Code>, codes': seq<Code>, log: seq<Comparison>, log': seq<Comparison>, p: nat,
                       q: Process)
    requires RowsGrow(codes, codes') && log <= log' && ProcessOk(codes, log, p, q)
    ensures ProcessOk(codes', log', p, q)
  {
  }

  /** A step that changes at most the rows keeps all but the tickets, if the processes other
      than p stay put and new consumers by match are well founded. */
  lemma RowsOk(s: State, s': State, p: nat)
    requires Inv(s) && Grows(s, s') && s'.verified == s.verified
    requires forall r | r in s'.procs && r != p :: r in s.procs && s'.procs[r] == s.procs[r]
    requires p in s'.procs ==> ProcessOk(s'.codes, s'.log, p, s'.procs[p])
    requires ConsumersOk(s'.codes, s'.log) && LogOk(s'.codes, s'.log)
    ensures ProcessesOk(s') && VerifiedOk(s')
  {
    forall r | r in s'.procs ensures ProcessOk(s'.codes, s'.log, r, s'.procs[r]) {
      if r != p { ProcessStaysOk(s.codes, s'.codes, s.log, s'.log, r, s.procs[r]); }
    }
    forall u | u in s'.verified ensures exists r :: Owns(s'.codes, r, u) {
      var r :| Owns(s.codes, r, u);
      assert Owns(s'.codes, r, u);
    }
  }

  lemma LogStaysOk(codes: seq<Code>, codes': seq<Code>, log: seq<Comparison>)
    requires LogOk(codes, log) && RowsGrow(codes, codes')
    ensures LogOk(codes', log)
  {
  }

  /** Rows grow and no row is newly consumed by a match. */
  lemma ConsumersStayOk(codes: seq<Code>, codes': seq<Code>, log: seq<Comparison>, log': seq<Comparison>)
    requires ConsumersOk(codes, log) && RowsGrow(codes, codes') && log <= log'
    requires forall r | 0 <= r < |codes'| && codes'[r].consumer.Some? && codes'[r].consumer.value.Match? ::
               r < |codes| && codes[r].consumer == codes'[r].consumer
    ensures ConsumersOk(codes', log')
  {
  }

  /** A process that leaves its ticket unspent, or never had one, keeps tickets apart. */
  lemma TicketsStayOk(procs: map<nat, Process>, log: seq<Comparison>, p: nat, q: Process)
    requires TicketsOk(procs, log) && !q.Comparing?
    ensures TicketsOk(procs[p := q], log)
  {
  }

  lemma CountAttemptOk(s: State, p: nat)
    requires Inv(s) && Enabled(s, CountAttempt(p))
    ensures Inv(Apply(s, CountAttempt(p)))
  {
    var s' := Apply(s, CountAttempt(p));
    var q := s.procs[p];
    assert ProcessOk(s.codes, s.log, p, q);
    LogStaysOk(s.codes, s'.codes, s.log);
    ConsumersStayOk(s.codes, s'.codes, s.log, s.log);
    RowsOk(s, s', p);
    if s'.procs[p].Comparing? {
      FreshTicket(s, p, s'.procs[p]);
    } else {
      TicketsStayOk(s.procs, s.log, p, s'.procs[p]);
    }
  }

  lemma FreshTicket(s: State, p: nat, q: Process)
    requires Inv(s) && q.Comparing? && q.row < |s.codes| && q.ticket == s.codes[q.row].attempts + 1
    ensures TicketsOk(s.procs[p := q], s.log)
  {
    forall a | 0 <= a < |s.log| ensures !SameTicket(q.row, q.ticket, s.log[a]) {
      assert ComparisonOk(s.codes, s.log[a]);
    }
    forall r | r in s.procs && s.procs[r].Comparing? ensures s.procs[r].row != q.row || s.procs[r].ticket != q.ticket {
      assert ProcessOk(s.codes, s.log, r, s.procs[r]);
    }
  }

  lemma CompareOk(s: State, p: nat)
    requires Inv(s) && Enabled(s, Compare(p))
    ensures Inv(Apply(s, Compare(p)))
  {
    var s' := Apply(s, Compare(p));
    assert ProcessOk(s.codes, s.log, p, s.procs[p]);
    ConsumersStayOk(s.codes, s.codes, s.log, s'.log);
    RowsOk(s, s', p);
    TicketSpent(s.procs, s.log, p, s'.procs[p], s'.log[|s.log|]);
  }

  lemma TicketSpent(procs: map<nat, Process>, log: seq<Comparison>, p: nat, q: Process, c: Comparison)
    requires TicketsOk(procs, log) && p in procs && procs[p].Comparing? && SameTicket(procs[p].row, procs[p].ticket, c)
    requires !q.Comparing?
    ensures TicketsOk(procs[p := q], log + [c])
  {
  }

  lemma ConsumeOk(s: State, p: nat)
    requires Inv(s) && Enabled(s, Consume(p))
    ensures Inv(Apply(s, Consume(p)))
  {
    var s' := Apply(s, Consume(p));
    assert ProcessOk(s.codes, s.log, p, s.procs[p]);
    StepGrows(s, Consume(p));
    LogStaysOk(s.codes, s'.codes, s.log);
    RowsOk(s, s', p);
    TicketsStayOk(s.procs, s.log, p, s'.procs[p]);
  }

  lemma MarkVerifiedOk(s: State, p: nat)
    requires Inv(s) && Enabled(s, MarkVerified(p))
    ensures Inv(Apply(s, MarkVerified(p)))
  {
    var s' := Apply(s, MarkVerified(p));
    assert ProcessOk(s.codes, s.log, p, s.procs[p]);
    RowsOk(s, s'.(verified := s.verified), p);
    TicketsStayOk(s.procs, s.log, p, s'.procs[p]);
    var row := s.log[s.procs[p].comparison].row;
    assert Owns(s.codes, row, s.codes[row].user);
  }

  /** The steps that neither touch tickets nor consume by a match. */
  lemma QuietOk(s: State, a: Action, p: nat)
    requires Inv(s) && Enabled(s, a) && Grows(s, Apply(s, a))
    requires a.StartIssue? || a.Retire? || a.Create? || a.StartVerify? || a.Lookup? || a.Burn? || a.Fail?
    requires p == a.p
    ensures Inv(Apply(s, a))
  {
    var s' := Apply(s, a);
    LogStaysOk(s.codes, s'.codes, s.log);
    ConsumersStayOk(s.codes, s'.codes, s.log, s.log);
    RowsOk(s, s', p);
    TicketsStayOk(s.procs, s.log, p, s'.procs[p]);
  }

  lemma StepOk(s: State, a: Action)
    requires Inv(s) && Enabled(s, a)
    ensures Inv(Apply(s, a))
  {
    match a
    case CountAttempt(p) => CountAttemptOk(s, p);
    case Compare(p) => CompareOk(s, p);
    case Consume(p) => ConsumeOk(s, p);
    case MarkVerified(p) => MarkVerifiedOk(s, p);
    case Tick(_) =>
    case _ =>
      StepGrows(s, a);
      QuietOk(s, a, a.p);
  }

  lemma {:induction false} RunOk(run: seq<State>, i: nat)
    requires Run(run) && i < |run|
    ensures Inv(run[i])
  {
    if i > 0 {
      RunOk(run, i - 1);
      assert Next(run[i - 1], run[i - 1 + 1]);
      var a :| Enabled(run[i - 1], a) && run[i] == Apply(run[i - 1], a);
      StepOk(run[i - 1], a);
    }
  }

  // --- what holds of every run ---------------------------------------------------------------

  ghost function ComparisonsWith(s: State, row: nat): set<nat> {
    set k | 0 <= k < |s.log| && s.log[k].row == row
  }

  /** However submissions race or crash, at most five are ever compared against one code. */
  lemma AtMostFiveGuesses(run: seq<State>, i: nat, row: nat)
    requires Run(run) && i < |run|
    ensures |ComparisonsWith(run[i], row)| <= 5
  {
    RunOk(run, i);
    var s := run[i];
    var tickets := map k | k in ComparisonsWith(s, row) :: s.log[k].ticket;
    var allowed := {1, 2, 3, 4, 5};
    forall k | k in tickets ensures tickets[k] in allowed {
      assert ComparisonOk(s.codes, s.log[k]);
    }
    forall a, b | a in tickets && b in tickets && a != b ensures tickets[a] != tickets[b] {
      assert if a < b then !SameTicket(s.log[a].row, s.log[a].ticket, s.log[b])
          else !SameTicket(s.log[b].row, s.log[b].ticket, s.log[a]);
    }
    InjectionBound(tickets, allowed);
    assert tickets.Keys == ComparisonsWith(s, row);
  }

  /** A code is consumed at most once, and by one consumer for good: a process that won it is the
      only one to win it, and a retired or burned code is never won. */
  lemma ConsumedOnce(run: seq<State>, i: nat, j: nat, p: nat, q: nat)
    requires Run(run) && i <= j < |run|
    requires p in run[i].procs && (run[i].procs[p].Won? || run[i].procs[p].Verified?)
    requires q in run[j].procs && (run[j].procs[q].Won? || run[j].procs[q].Verified?)
    ensures run[i].procs[p].comparison < |run[i].log| && run[j].procs[q].comparison < |run[j].log|
    ensures run[i].log[run[i].procs[p].comparison].row == run[j].log[run[j].procs[q].comparison].row ==> p == q
  {
    RunOk(run, i);
    RunOk(run, j);
    RunGrows(run, i, j);
    assert ProcessOk(run[i].codes, run[i].log, p, run[i].procs[p]);
    assert ProcessOk(run[j].codes, run[j].log, q, run[j].procs[q]);
  }

  /** A code retired by a resend or burned by the limit verifies nobody afterwards. */
  lemma RetiredCodeIsNeverWon(run: seq<State>, i: nat, j: nat, row: nat, q: nat)
    requires Run(run) && i <= j < |run|
    requires row < |run[i].codes| && run[i].codes[row].consumer.Some? && !run[i].codes[row].consumer.value.Match?
    requires q in run[j].procs && (run[j].procs[q].Won? || run[j].procs[q].Verified?)
    ensures run[j].procs[q].comparison < |run[j].log| && run[j].log[run[j].procs[q].comparison].row != row
  {
    RunOk(run, j);
    RunGrows(run, i, j);
    assert ProcessOk(run[j].codes, run[j].log, q, run[j].procs[q]);
    assert RowGrows(run[i].codes[row], run[j].codes[row]);
  }

  /** The comparison that verified the user: it matched a code sent to that user's address, read
      before it expired, within the first five attempts, and it consumed the code. */
  ghost predicate Proves(s: State, k: int, user: nat) {
    && 0 <= k < |s.log| && s.log[k].row < |s.codes|
    && var code := s.codes[s.log[k].row];
       && code.user == user && code.email == s.log[k].email && code.secret == s.log[k].submitted
       && s.log[k].readAt <= code.expiresAt && 1 <= s.log[k].ticket <= MAX_ATTEMPTS
       && code.consumer == Some(Match(k))
  }

  /** An address becomes verified only through a comparison that matched and won the code. */
  lemma VerifiedOnlyByAWinningMatch(run: seq<State>, i: nat, user: nat)
    requires Run(run) && i < |run| && user in run[i].verified
    ensures exists k :: Proves(run[i], k, user)
  {
    RunOk(run, i);
    var s := run[i];
    var r :| Owns(s.codes, r, user);
    var k := s.codes[r].consumer.value.comparison;
    assert Matches(s.codes, s.log, k) && ComparisonOk(s.codes, s.log[k]);
    assert Proves(s, k, user);
  }

  /** Once five attempts are counted and no counted one is still to be compared, the code is dead:
      whatever happens later, it is never compared with anything again. */
  ghost predicate Exhausted(s: State, row: nat) {
    && row < |s.codes| && MAX_ATTEMPTS <= s.codes[row].attempts
    && forall p | p in s.procs && s.procs[p].Comparing? :: s.procs[p].row != row
  }

  lemma StepKeepsExhausted(s: State, a: Action, row: nat)
    requires Enabled(s, a) && Exhausted(s, row)
    ensures Exhausted(Apply(s, a), row)
    ensures forall k | |s.log| <= k < |Apply(s, a).log| :: Apply(s, a).log[k].row != row
  {
    StepGrows(s, a);
    assert RowGrows(s.codes[row], Apply(s, a).codes[row]);
  }

  /** No comparison after the first n is with the row. */
  ghost predicate Dead(s: State, row: nat, n: nat) {
    Exhausted(s, row) && n <= |s.log| && forall k | n <= k < |s.log| :: s.log[k].row != row
  }

  lemma NextKeepsDead(s: State, s': State, row: nat, n: nat)
    requires Next(s, s') && Dead(s, row, n)
    ensures Dead(s', row, n)
  {
    var a :| Enabled(s, a) && s' == Apply(s, a);
    StepKeepsExhausted(s, a, row);
  }

  lemma {:induction false} StaysDead(run: seq<State>, i: nat, j: nat, row: nat, n: nat)
    requires Run(run) && i <= j < |run| && Dead(run[i], row, n)
    ensures Dead(run[j], row, n)
  {
    if i < j {
      StaysDead(run, i, j - 1, row, n);
      assert Next(run[j - 1], run[j - 1 + 1]);
      NextKeepsDead(run[j - 1], run[j], row, n);
    }
  }

  lemma ExhaustedCodeIsDead(run: seq<State>, i: nat, j: nat, row: nat)
    requires Run(run) && i <= j < |run| && Exhausted(run[i], row)
    ensures Exhausted(run[j], row) && ComparisonsWith(run[j], row) == ComparisonsWith(run[i], row)
  {
    StaysDead(run, i, j, row, |run[i].log|);
    RunGrows(run, i, j);
    SameComparisons(run[i], run[j], row);
  }

  lemma SameComparisons(s: State, s': State, row: nat)
    requires s.log <= s'.log && Dead(s', row, |s.log|)
    ensures ComparisonsWith(s', row) == ComparisonsWith(s, row)
  {
  }

  // --- what a request is answered ------------------------------------------------------------

  /** The actions take s to end, one after the other. */
  ghost predicate Does(s: State, actions: seq<Action>, end: State)
    decreases |actions|
  {
    if actions == [] then s == end
    else Enabled(s, actions[0]) && Does(Apply(s, actions[0]), actions[1..], end)
  }

  lemma Then(s: State, a: Action, rest: seq<Action>, end: State)
    requires Enabled(s, a) && Does(Apply(s, a), rest, end)
    ensures Does(s, [a] + rest, end)
  {
    assert ([a] + rest)[1..] == rest;
  }

  /** A step of process p after its first, other than a failure. */
  predicate Own(a: Action, p: nat) {
    match a
    case Retire(q) => q == p
    case Create(q) => q == p
    case Lookup(q) => q == p
    case CountAttempt(q) => q == p
    case Compare(q) => q == p
    case Burn(q) => q == p
    case Consume(q) => q == p
    case MarkVerified(q) => q == p
    case _ => false
  }

  /** An uninterrupted run of process p that takes s to end, where p is done. */
  ghost predicate Completes(s: State, p: nat, actions: seq<Action>, end: State) {
    Does(s, actions, end) && (forall a | a in actions :: Own(a, p)) && p in end.procs && end.procs[p].IsDone()
  }

  lemma DoneIsDone(s: State, p: nat, actions: seq<Action>, end: State)
    requires Completes(s, p, actions, end) && p in s.procs && s.procs[p].IsDone()
    ensures end == s
  {
    if actions != [] { NothingLeft(s, p, actions[0]); }
  }

  lemma NothingLeft(s: State, p: nat, a: Action)
    requires p in s.procs && s.procs[p].IsDone() && Own(a, p)
    ensures !Enabled(s, a)
  {
  }

  /** There is only one. */
  lemma {:induction false} OneCompletion(s: State, p: nat, a1: seq<Action>, e1: State, a2: seq<Action>, e2: State)
    requires Completes(s, p, a1, e1) && Completes(s, p, a2, e2)
    ensures e1 == e2
    decreases |a1|
  {
    if a1 == [] {
      DoneIsDone(s, p, a2, e2);
    } else if a2 == [] {
      DoneIsDone(s, p, a1, e1);
    } else {
      assert Own(a1[0], p) && Own(a2[0], p);
      OneCompletion(Apply(s, a1[0]), p, a1[1..], e1, a2[1..], e2);
    }
  }

  /** Only row `row` changed. */
  ghost predicate OnlyRow(codes: seq<Code>, codes': seq<Code>, row: nat) {
    row < |codes| && |codes'| == |codes| && forall r | 0 <= r < |codes| && r != row :: codes'[r] == codes[r]
  }

  /** No usable code: a submission is turned away and nothing is counted. */
  lemma NoCodeIsInvalid(s: State, p: nat, email: string, code: string) returns (end: State)
    requires p !in s.procs && email != "" && code != ""
    requires forall r | 0 <= r < |s.codes| && s.codes[r].email == email && s.codes[r].consumer.None? ::
               s.codes[r].expiresAt < s.now
    ensures Does(s, [StartVerify(p, email, code), Lookup(p)], end)
    ensures p in end.procs && end.procs[p] == Refused(InvalidCode) && end.codes == s.codes && end.verified == s.verified
  {
    var s1 := Apply(s, StartVerify(p, email, code));
    end := Apply(s1, Lookup(p));
    Then(s1, Lookup(p), [], end);
    Then(s, StartVerify(p, email, code), [Lookup(p)], end);
  }

  /** The usable code for an address: its newest row that is not consumed, not yet expired. */
  ghost predicate Usable(s: State, email: string, row: nat) {
    && row < |s.codes| && s.codes[row].email == email && s.codes[row].consumer.None?
    && s.now <= s.codes[row].expiresAt
    && forall r | row < r < |s.codes| :: s.codes[r].email != email || s.codes[r].consumer.Some?
  }

  /** The first two steps of a submission, up to the counted attempt. */
  lemma Counted(s: State, p: nat, email: string, code: string, row: nat) returns (mid: State)
    requires p !in s.procs && email != "" && code != "" && Usable(s, email, row)
    ensures mid.log == s.log && mid.verified == s.verified && mid.now == s.now && p in mid.procs
    ensures OnlyRow(s.codes, mid.codes, row)
    ensures mid.codes[row] == s.codes[row].(attempts := s.codes[row].attempts + 1)
    ensures mid.procs[p] == if s.codes[row].attempts < 5
                            then Comparing(row, email, code, s.now, s.codes[row].attempts + 1)
                            else Burning(row)
    ensures forall rest, end | Does(mid, rest, end) ::
              Does(s, [StartVerify(p, email, code), Lookup(p), CountAttempt(p)] + rest, end)
  {
    var s1 := Apply(s, StartVerify(p, email, code));
    var s2 := Apply(s1, Lookup(p));
    assert NewestLive(s.codes, email) == Some(row);
    mid := Apply(s2, CountAttempt(p));
    forall rest, end | Does(mid, rest, end)
      ensures Does(s, [StartVerify(p, email, code), Lookup(p), CountAttempt(p)] + rest, end)
    {
      Then(s2, CountAttempt(p), rest, end);
      Then(s1, Lookup(p), [CountAttempt(p)] + rest, end);
      Then(s, StartVerify(p, email, code), [Lookup(p)] + ([CountAttempt(p)] + rest), end);
      assert [StartVerify(p, email, code)] + ([Lookup(p)] + ([CountAttempt(p)] + rest))
          == [StartVerify(p, email, code), Lookup(p), CountAttempt(p)] + rest;
    }
  }

  /** The right code, submitted without interruption while it is usable and fewer than five attempts
      are counted, verifies its user and is consumed. */
  lemma RightCodeVerifies(s: State, p: nat, email: string, row: nat) returns (end: State)
    requires p !in s.procs && email != "" && Usable(s, email, row) && s.codes[row].secret != ""
    requires s.codes[row].attempts < 5
    ensures Does(s, [StartVerify(p, email, s.codes[row].secret), Lookup(p), CountAttempt(p)]
                    + [Compare(p), Consume(p), MarkVerified(p)], end)
    ensures p in end.procs && end.procs[p].Verified? && end.verified == s.verified + {s.codes[row].user}
    ensures OnlyRow(s.codes, end.codes, row)
    ensures end.codes[row] == s.codes[row].(attempts := s.codes[row].attempts + 1, consumer := Some(Match(|s.log|)))
  {
    var mid := Counted(s, p, email, s.codes[row].secret, row);
    var s1 := Apply(mid, Compare(p));
    var s2 := Apply(s1, Consume(p));
    end := Apply(s2, MarkVerified(p));
    Then(s2, MarkVerified(p), [], end);
    Then(s1, Consume(p), [MarkVerified(p)], end);
    Then(mid, Compare(p), [Consume(p), MarkVerified(p)], end);
    assert [Compare(p)] + [Consume(p), MarkVerified(p)] == [Compare(p), Consume(p), MarkVerified(p)];
    assert [Consume(p)] + [MarkVerified(p)] == [Consume(p), MarkVerified(p)];
  }

  /** A wrong code is refused and costs one attempt. */
  lemma WrongCodeIsInvalid(s: State, p: nat, email: string, code: string, row: nat) returns (end: State)
    requires p !in s.procs && email != "" && code != "" && Usable(s, email, row) && code != s.codes[row].secret
    requires s.codes[row].attempts < 5
    ensures Does(s, [StartVerify(p, email, code), Lookup(p), CountAttempt(p)] + [Compare(p)], end)
    ensures p in end.procs && end.procs[p] == Refused(InvalidCode) && end.verified == s.verified
    ensures OnlyRow(s.codes, end.codes, row)
    ensures end.codes[row] == s.codes[row].(attempts := s.codes[row].attempts + 1)
  {
    var mid := Counted(s, p, email, code, row);
    end := Apply(mid, Compare(p));
    Then(mid, Compare(p), [], end);
    assert [Compare(p)] + [] == [Compare(p)];
  }

  /** After five attempts even the right code is refused, and the code is burned. */
  lemma SixthAttemptBurns(s: State, p: nat, email: string, code: string, row: nat) returns (end: State)
    requires p !in s.procs && email != "" && code != "" && Usable(s, email, row)
    requires s.codes[row].attempts >= 5
    ensures Does(s, [StartVerify(p, email, code), Lookup(p), CountAttempt(p)] + [Burn(p)], end)
    ensures p in end.procs && end.procs[p] == Refused(TooManyAttempts) && end.verified == s.verified
    ensures OnlyRow(s.codes, end.codes, row)
    ensures end.codes[row] == s.codes[row].(attempts := s.codes[row].attempts + 1, consumer := Some(Limit))
  {
    var mid := Counted(s, p, email, code, row);
    end := Apply(mid, Burn(p));
    Then(mid, Burn(p), [], end);
    assert [Burn(p)] + [] == [Burn(p)];
  }

  /** Issuing without interruption consumes every earlier code of the address, leaves the codes of
      other addresses alone, and adds one code, good for fifteen minutes and without attempts. */
  lemma IssueLeavesOneCode(s: State, p: nat, user: nat, email: string, secret: string) returns (end: State)
    requires p !in s.procs
    ensures Does(s, [StartIssue(p, user, email, secret), Retire(p), Create(p)], end)
    ensures p in end.procs && end.procs[p] == Issued && end.verified == s.verified && |end.codes| == |s.codes| + 1
    ensures end.codes[|s.codes|] == Code(user, email, secret, 0, s.now + 900_000_000_000, None)
    ensures forall r | 0 <= r < |s.codes| ::
              end.codes[r] == if s.codes[r].email == email && s.codes[r].consumer.None?
                              then s.codes[r].(consumer := Some(Resend)) else s.codes[r]
    ensures Usable(end, email, |s.codes|)
  {
    var s1 := Apply(s, StartIssue(p, user, email, secret));
    var s2 := Apply(s1, Retire(p));
    end := Apply(s2, Create(p));
    Then(s2, Create(p), [], end);
    Then(s1, Retire(p), [Create(p)], end);
    Then(s, StartIssue(p, user, email, secret), [Retire(p), Create(p)], end);
    assert [Retire(p)] + [Create(p)] == [Retire(p), Create(p)];
    assert [StartIssue(p, user, email, secret)] + [Retire(p), Create(p)]
        == [StartIssue(p, user, email, secret), Retire(p), Create(p)];
  }

  /** A submission without an address or a code is refused before anything is read. */
  lemma EmptyIsRefused(s: State, p: nat, email: string, code: string)
    requires p !in s.procs
    ensures var end := Apply(s, StartVerify(p, email, code));
            && (end.procs[p] == Refused(ValidationFailed) <==> email == "" || code == "")
            && end.codes == s.codes && end.verified == s.verified
  {
  }

  /** The exact outcome of a submission that runs without interruption, from any state with a usable
      code: verified if and only if fewer than five attempts were counted and the code is right. */
  lemma SubmissionOutcome(s: State, p: nat, email: string, code: string, row: nat, actions: seq<Action>, end: State)
    requires p !in s.procs && email != "" && code != "" && Usable(s, email, row)
    requires Completes(Apply(s, StartVerify(p, email, code)), p, actions, end)
    ensures OnlyRow(s.codes, end.codes, row) && end.codes[row].attempts == s.codes[row].attempts + 1
    ensures end.procs[p].Verified? <==> s.codes[row].attempts < 5 && code == s.codes[row].secret
    ensures end.verified == if end.procs[p].Verified? then s.verified + {s.codes[row].user} else s.verified
    ensures end.procs[p] == Refused(TooManyAttempts) <==> s.codes[row].attempts >= 5
    ensures end.procs[p] == Refused(InvalidCode) <==> s.codes[row].attempts < 5 && code != s.codes[row].secret
    ensures end.codes[row].consumer.None? <==> end.procs[p] == Refused(InvalidCode)
  {
    var s1 := Apply(s, StartVerify(p, email, code));
    var first := [StartVerify(p, email, code), Lookup(p), CountAttempt(p)];
    var last: seq<Action>;
    var e2: State;
    if s.codes[row].attempts >= 5 {
      last := [Burn(p)];
      e2 := SixthAttemptBurns(s, p, email, code, row);
    } else if code == s.codes[row].secret {
      last := [Compare(p), Consume(p), MarkVerified(p)];
      e2 := RightCodeVerifies(s, p, email, row);
    } else {
      last := [Compare(p)];
      e2 := WrongCodeIsInvalid(s, p, email, code, row);
    }
    assert (first + last)[1..] == [Lookup(p), CountAttempt(p)] + last;
    OneCompletion(s1, p, actions, end, (first + last)[1..], e2);
  }

  /** Whoever matches a code that is already consumed is refused, and nothing changes. */
  lemma LateMatchIsInvalid(s: State, p: nat)
    requires Enabled(s, Consume(p)) && s.codes[s.log[s.procs[p].comparison].row].consumer.Some?
    ensures var s' := Apply(s, Consume(p));
            s'.procs[p] == Refused(InvalidCode) && s'.codes == s.codes && s'.verified == s.verified
  {
  }

  /** A failure counts nothing, consumes nothing and verifies nobody. */
  lemma FailureChangesNothing(s: State, p: nat)
    requires Enabled(s, Fail(p))
    ensures Apply(s, Fail(p)) == s.(procs := s.procs[p := Refused(Internal)])
  {
  }
}
