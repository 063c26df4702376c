/**
  Password reset links: two columns of the users table, and four statements over them.

  Times are milliseconds on one clock. A stored hash is modelled as the token under an
  injective `Hashed`, and a new token as one never issued before.
 */
module PasswordReset {
  import opened Wrappers

  type UserId = nat
  type Token = nat
  type Time = int

  const COOLDOWN_MS: nat := 60_000

  datatype Hash = Hashed(token: Token)
  datatype Status = Active | Invited | Disabled
  datatype Row = Row(
    email: string,
    name: string,
    status: Status,
    deleted: bool,
    passwordHash: Option<string>,
    tokenHash: Option<Hash>,
    expiresAt: Option<Time>)

  datatype PendingReset = PendingReset(user: UserId, email: string, name: string, expiresAt: Time)
  type Users = map<UserId, Row>

  // --- The statements --------------------------------------------------------------------------

  predicate MayReset(r: Row) { r.status == Active && !r.deleted }

  predicate Issuable(r: Row, now: Time, ttl: nat, cooldown: nat) {
    MayReset(r) && (cooldown > 0 && r.expiresAt.Some? ==> r.expiresAt.value < now + ttl - cooldown)
  }

  function Given(r: Row, token: Token, expiresAt: Time): Row {
    r.(tokenHash := Some(Hashed(token)), expiresAt := Some(expiresAt))
  }

  function Cleared(r: Row): Row { r.(tokenHash := None, expiresAt := None) }

  predicate Usable(r: Row, token: Token, now: Time) {
    r.tokenHash == Some(Hashed(token)) && MayReset(r) && r.expiresAt.Some? && now < r.expiresAt.value
  }

  /** What the page behind a link says of its account. */
  predicate Shows(p: PendingReset, users: Users, token: Token, now: Time) {
    && p.user in users && Usable(users[p.user], token, now)
    && p == PendingReset(p.user, users[p.user].email, users[p.user].name, users[p.user].expiresAt.value)
  }

  function Consumed(users: Users, token: Token, password: string, now: Time): Users {
    map u | u in users ::
      if Usable(users[u], token, now) then Cleared(users[u]).(passwordHash := Some(password)) else users[u]
  }

  predicate TimedOut(r: Row, now: Time) {
    r.tokenHash.Some? && r.expiresAt.Some? && r.expiresAt.value < now
  }

  function Purged(users: Users, now: Time): Users {
    map u | u in users :: if TimedOut(users[u], now) then Cleared(users[u]) else users[u]
  }

  class UserTable {
    const ttl: nat
    var users: Users

    constructor (ttl: nat, users: Users)
      ensures this.ttl == ttl && this.users == users
    {
      this.ttl, this.users := ttl, users;
    }

    method IssueReset(u: UserId, token: Token, now: Time, cooldown: nat) returns (issued: Option<Time>)
      modifies this
      ensures issued.Some? <==> u in old(users) && Issuable(old(users)[u], now, ttl, cooldown)
      ensures issued.Some? ==>
        issued.value == now + ttl && users == old(users)[u := Given(old(users)[u], token, now + ttl)]
      ensures issued.None? ==> users == old(users)
      // An active account that is not deleted, and no link of it that is too young.
      ensures issued.Some? <==>
        && u in old(users) && old(users)[u].status == Active && !old(users)[u].deleted
        && (cooldown == 0 || old(users)[u].expiresAt == None || old(users)[u].expiresAt.value + cooldown < now + ttl)
      ensures issued.Some? ==> users == old(users)[u :=
        old(users)[u].(tokenHash := Some(Hashed(token)), expiresAt := Some(now + ttl))]
    {
      var expiresAt := now + ttl;
      var cooldownFloor := expiresAt - cooldown;
      if u !in users || users[u].status != Active || users[u].deleted { return None; }
      if cooldown > 0 && users[u].expiresAt.Some? && users[u].expiresAt.value >= cooldownFloor { return None; }
      users := users[u := users[u].(tokenHash := Some(Hashed(token)), expiresAt := Some(expiresAt))];
      return Some(expiresAt);
    }

    /** Somebody is shown the form exactly when submitting it at that moment would succeed. */
    method FindPendingReset(token: Token, now: Time) returns (pending: Option<PendingReset>)
      ensures pending.Some? ==> Shows(pending.value, users, token, now)
      ensures pending.None? <==> forall u <- users :: !Usable(users[u], token, now)
      ensures pending.None? <==> forall password :: Consumed(users, token, password, now) == users
      ensures pending.Some? ==>
        && pending.value.user in users && users[pending.value.user].tokenHash == Some(Hashed(token))
        && users[pending.value.user].status == Active && !users[pending.value.user].deleted
        && users[pending.value.user].expiresAt == Some(pending.value.expiresAt) && now < pending.value.expiresAt
    {
      var left := users.Keys;
      while left != {}
        invariant left <= users.Keys
        invariant forall u | u in users && u !in left :: !Usable(users[u], token, now)
        decreases |left|
      {
        var u :| u in left;
        if Usable(users[u], token, now) {
          assert Consumed(users, token, "", now)[u] != users[u];
          return Some(PendingReset(u, users[u].email, users[u].name, users[u].expiresAt.value));
        }
        left := left - {u};
      }
      return None;
    }

    /** The new password and the end of the link are one statement. */
    method ConsumeReset(token: Token, password: string, now: Time) returns (taker: Option<UserId>)
      modifies this
      ensures users == Consumed(old(users), token, password, now)
      ensures taker.Some? ==>
        && taker.value in old(users) && Usable(old(users)[taker.value], token, now)
        && users[taker.value].passwordHash == Some(password) && users[taker.value].tokenHash == None
      ensures taker.None? ==> users == old(users)
      // Whoever holds the link gets the new password and loses the link; nobody else changes.
      ensures users.Keys == old(users).Keys
      ensures forall u <- users ::
        var r := old(users)[u];
        var usable := r.tokenHash == Some(Hashed(token)) && r.status == Active && !r.deleted && r.expiresAt.Some?
          && now < r.expiresAt.value;
        users[u] == if usable then r.(tokenHash := None, expiresAt := None, passwordHash := Some(password)) else r
    {
      var pending := FindPendingReset(token, now);
      if pending.None? { return None; }
      users := Consumed(users, token, password, now);
      return Some(pending.value.user);
    }

    method PurgeExpiredResets(now: Time) returns (cleared: nat)
      modifies this
      ensures users == Purged(old(users), now)
      ensures cleared == |set u | u in old(users) && users[u] != old(users)[u]|
      ensures users.Keys == old(users).Keys
      ensures forall u <- users ::
        var r := old(users)[u];
        var over := r.tokenHash.Some? && r.expiresAt.Some? && r.expiresAt.value < now;
        users[u] == if over then r.(tokenHash := None, expiresAt := None) else r
    {
      var gone := set u | u in users && TimedOut(users[u], now);
      cleared := |gone|;
      users := Purged(users, now);
      assert gone == set u | u in old(users) && users[u] != old(users)[u];
    }
  }

  // --- Runs ------------------------------------------------------------------------------------

  /** What really happened, in order: links handed out and links accepted. */
  datatype Act =
    | Issued(user: UserId, token: Token, at: Time, selfService: bool)
    | Accepted(user: UserId, token: Token, at: Time, password: string)

  datatype State = State(now: Time, users: Users, history: seq<Act>)

  datatype Event =
    | Issue(user: UserId, token: Token, selfService: bool)
    | Consume(token: Token, password: string)
    | Purge
    | Join(user: UserId, row: Row)
    | Switch(user: UserId, status: Status, deleted: bool)
    | Tick(to: Time)

  function Tokens(h: seq<Act>): set<Token> {
    set i | 0 <= i < |h| && h[i].Issued? :: h[i].token
  }

  function Cooldown(selfService: bool): nat { if selfService then COOLDOWN_MS else 0 }

  ghost predicate Enabled(s: State, e: Event) {
    match e
    case Issue(_, token, _) => token !in Tokens(s.history)
    case Join(u, row) => u !in s.users && row.tokenHash == None && row.expiresAt == None
    case Switch(u, _, _) => u in s.users
    case Tick(to) => s.now <= to
    case _ => true
  }

  predicate Takes(s: State, token: Token, u: UserId) {
    u in s.users && Usable(s.users[u], token, s.now)
  }

  ghost function Next(s: State, e: Event, ttl: nat): State {
    match e
    case Issue(u, token, selfService) =>
      if u in s.users && Issuable(s.users[u], s.now, ttl, Cooldown(selfService)) then
        s.(users := s.users[u := Given(s.users[u], token, s.now + ttl)],
           history := s.history + [Issued(u, token, s.now, selfService)])
      else s
    case Consume(token, password) =>
      if exists u :: Takes(s, token, u) then
        var u :| Takes(s, token, u);
        s.(users := Consumed(s.users, token, password, s.now),
           history := s.history + [Accepted(u, token, s.now, password)])
      else s
    case Purge => s.(users := Purged(s.users, s.now))
    case Join(u, row) => s.(users := s.users[u := row])
    case Switch(u, status, deleted) =>
      if u in s.users then s.(users := s.users[u := s.users[u].(status := status, deleted := deleted)]) else s
    case Tick(to) => s.(now := to)
  }

  ghost predicate ValidRun(s: State, run: seq<Event>, ttl: nat)
    decreases |run|
  {
    run != [] ==> Enabled(s, run[0]) && ValidRun(Next(s, run[0], ttl), run[1..], ttl)
  }

  ghost function Run(s: State, run: seq<Event>, ttl: nat): State
    decreases |run|
  {
    if run == [] then s else Run(Next(s, run[0], ttl), run[1..], ttl)
  }

  ghost predicate Fresh(s: State) {
    s.history == [] && forall u <- s.users :: s.users[u].tokenHash == None && s.users[u].expiresAt == None
  }

  // --- What the columns say about the history --------------------------------------------------

  /** The last thing that happened to a user's links. */
  function Last(h: seq<Act>, u: UserId): Option<Act> {
    if h == [] then None
    else if h[|h| - 1].user == u then Some(h[|h| - 1])
    else Last(h[..|h| - 1], u)
  }

  ghost predicate Explained(r: Row, last: Option<Act>, now: Time, ttl: nat) {
    || (r.tokenHash == None && r.expiresAt == None && (last.Some? && last.value.Issued? ==> last.value.at + ttl < now))
    || (&& last.Some? && last.value.Issued?
        && r.tokenHash == Some(Hashed(last.value.token)) && r.expiresAt == Some(last.value.at + ttl))
  }

  ghost predicate Tabulated(s: State, ttl: nat) {
    forall u ::
      if u in s.users then Explained(s.users[u], Last(s.history, u), s.now, ttl) else Last(s.history, u) == None
  }

  predicate IsLatest(h: seq<Act>, u: UserId, token: Token) {
    Last(h, u).Some? && Last(h, u).value.Issued? && Last(h, u).value.token == token
  }

  /** The latest link, not used since, and not expired. */
  predicate IsFresh(s: State, token: Token, u: UserId, ttl: nat) {
    IsLatest(s.history, u, token) && s.now < Last(s.history, u).value.at + ttl
  }

  /** What may follow a history: a new link, outside the wait, or the latest link, in time. */
  ghost predicate MayFollow(h: seq<Act>, a: Act, ttl: nat, wait: nat) {
    && (h != [] ==> h[|h| - 1].at <= a.at)
    && match a
       case Issued(u, token, at, selfService) =>
         && token !in Tokens(h)
         && (selfService && Last(h, u).Some? && Last(h, u).value.Issued? ==> Last(h, u).value.at + wait < at)
       case Accepted(u, token, at, _) => IsLatest(h, u, token) && at < Last(h, u).value.at + ttl
  }

  ghost predicate Orderly(h: seq<Act>, ttl: nat, wait: nat) {
    h != [] ==> Orderly(h[..|h| - 1], ttl, wait) && MayFollow(h[..|h| - 1], h[|h| - 1], ttl, wait)
  }

  function Wait(ttl: nat): nat { if ttl < COOLDOWN_MS then ttl else COOLDOWN_MS }

  ghost predicate Inv(s: State, ttl: nat) {
    && Tabulated(s, ttl)
    && Orderly(s.history, ttl, Wait(ttl))
    && (s.history != [] ==> s.history[|s.history| - 1].at <= s.now)
  }

  lemma {:induction false} LatestIsListed(h: seq<Act>, u: UserId, token: Token)
    requires IsLatest(h, u, token)
    ensures token in Tokens(h)
    decreases |h|
  {
    var n := |h| - 1;
    if h[n].user != u {
      LatestIsListed(h[..n], u, token);
      var i :| 0 <= i < n && h[..n][i].Issued? && h[..n][i].token == token;
      assert h[i].Issued? && h[i].token == token;
    } else {
      assert h[n].Issued? && h[n].token == token;
    }
  }

  /** No two users' latest links share a token. */
  lemma {:induction false} LatestIsOneUsers(h: seq<Act>, u: UserId, v: UserId, token: Token, ttl: nat, wait: nat)
    requires Orderly(h, ttl, wait) && IsLatest(h, u, token) && IsLatest(h, v, token)
    ensures u == v
    decreases |h|
  {
    if u != v {
      var n := |h| - 1;
      if h[n].user == u {
        LatestIsListed(h[..n], v, token);
      } else if h[n].user == v {
        LatestIsListed(h[..n], u, token);
      } else {
        LatestIsOneUsers(h[..n], u, v, token, ttl, wait);
      }
    }
  }

  lemma LastAfter(h: seq<Act>, a: Act, u: UserId)
    ensures Last(h + [a], u) == if a.user == u then Some(a) else Last(h, u)
  {
    assert (h + [a])[..|h|] == h;
  }

  lemma OrderlyAfter(h: seq<Act>, a: Act, ttl: nat, wait: nat)
    requires Orderly(h, ttl, wait) && MayFollow(h, a, ttl, wait)
    ensures Orderly(h + [a], ttl, wait)
  {
    assert (h + [a])[..|h|] == h;
  }

  lemma TakesLatest(s: State, token: Token, u: UserId, ttl: nat)
    requires Inv(s, ttl)
    ensures Takes(s, token, u)
      <==> u in s.users && MayReset(s.users[u]) && IsFresh(s, token, u, ttl)
  {
    if u in s.users { assert Explained(s.users[u], Last(s.history, u), s.now, ttl); }
  }

  lemma IssueKeeps(s: State, u: UserId, token: Token, selfService: bool, ttl: nat)
    requires Inv(s, ttl) && Enabled(s, Issue(u, token, selfService))
    ensures Inv(Next(s, Issue(u, token, selfService), ttl), ttl)
  {
    if u in s.users && Issuable(s.users[u], s.now, ttl, Cooldown(selfService)) {
      var a := Issued(u, token, s.now, selfService);
      assert Explained(s.users[u], Last(s.history, u), s.now, ttl);
      assert MayFollow(s.history, a, ttl, Wait(ttl));
      OrderlyAfter(s.history, a, ttl, Wait(ttl));
      forall v { LastAfter(s.history, a, v); }
    }
  }

  lemma ConsumeKeeps(s: State, token: Token, password: string, ttl: nat)
    requires Inv(s, ttl)
    ensures Inv(Next(s, Consume(token, password), ttl), ttl)
  {
    if exists u :: Takes(s, token, u) {
      var s' := Next(s, Consume(token, password), ttl);
      var a := s'.history[|s.history|];
      TakesLatest(s, token, a.user, ttl);
      OrderlyAfter(s.history, a, ttl, Wait(ttl));
      forall v
        ensures v in s'.users ==> Explained(s'.users[v], Last(s'.history, v), s.now, ttl)
        ensures v !in s'.users ==> Last(s'.history, v) == None
      {
        LastAfter(s.history, a, v);
        if Takes(s, token, v) {
          TakesLatest(s, token, v, ttl);
          LatestIsOneUsers(s.history, a.user, v, token, ttl, Wait(ttl));
        }
      }
    }
  }

  lemma StepKeeps(s: State, e: Event, ttl: nat)
    requires Inv(s, ttl) && Enabled(s, e)
    ensures Inv(Next(s, e, ttl), ttl)
  {
    match e
    case Issue(u, token, selfService) => IssueKeeps(s, u, token, selfService, ttl);
    case Consume(token, password) => ConsumeKeeps(s, token, password, ttl);
    case _ =>
  }

  lemma {:induction false} RunKeeps(s: State, run: seq<Event>, ttl: nat)
    requires Inv(s, ttl) && ValidRun(s, run, ttl)
    ensures Inv(Run(s, run, ttl), ttl)
    decreases |run|
  {
    if run == [] {
    } else {
      StepKeeps(s, run[0], ttl);
      RunKeeps(Next(s, run[0], ttl), run[1..], ttl);
    }
  }

  // --- The promises ----------------------------------------------------------------------------

  /** After any run, a token works for a user exactly when it is the latest link issued to
      them, not used since, not expired, and the account may reset. Purging is invisible. */
  lemma TokenWorksIff(s0: State, run: seq<Event>, ttl: nat, token: Token, u: UserId)
    requires Fresh(s0) && ValidRun(s0, run, ttl)
    ensures var s := Run(s0, run, ttl);
      Takes(s, token, u)
      <==> u in s.users && s.users[u].status == Active && !s.users[u].deleted && IsFresh(s, token, u, ttl)
  {
    RunKeeps(s0, run, ttl);
    TakesLatest(Run(s0, run, ttl), token, u, ttl);
  }

  /** The password the last accepted link of a user set, if any did. */
  function LastPassword(h: seq<Act>, u: UserId): Option<string> {
    if h == [] then None
    else if h[|h| - 1].Accepted? && h[|h| - 1].user == u then Some(h[|h| - 1].password)
    else LastPassword(h[..|h| - 1], u)
  }

  function PasswordNow(row: Row, h: seq<Act>, u: UserId): Option<string> {
    if LastPassword(h, u).Some? then LastPassword(h, u) else row.passwordHash
  }

  /** The rows the accounts began with, those that joined later included. */
  function Beginnings(first: Users, run: seq<Event>): Users
    decreases |run|
  {
    if run == [] then first else Beginnings(Begun(first, run[0]), run[1..])
  }

  function Begun(first: Users, e: Event): Users {
    if e.Join? then first[e.user := e.row] else first
  }

  /** Of these statements only an accepted link changes a password, and only its own account's. */
  ghost predicate PasswordsTold(s: State, first: Users) {
    && s.users.Keys == first.Keys
    && forall u :: u in s.users ==> s.users[u].passwordHash == PasswordNow(first[u], s.history, u)
  }

  lemma {:induction false} NothingHappenedYet(h: seq<Act>, u: UserId)
    requires Last(h, u) == None
    ensures LastPassword(h, u) == None
    decreases |h|
  {
    if h == [] {
    } else {
      NothingHappenedYet(h[..|h| - 1], u);
    }
  }

  lemma ConsumeTellsPasswords(s: State, token: Token, password: string, ttl: nat, first: Users)
    requires Inv(s, ttl) && PasswordsTold(s, first)
    ensures PasswordsTold(Next(s, Consume(token, password), ttl), first)
  {
    if exists u :: Takes(s, token, u) {
      var s' := Next(s, Consume(token, password), ttl);
      var a := s'.history[|s.history|];
      assert s'.history[..|s.history|] == s.history;
      TakesLatest(s, token, a.user, ttl);
      forall u | u in s.users && Takes(s, token, u)
        ensures u == a.user
      {
        TakesLatest(s, token, u, ttl);
        LatestIsOneUsers(s.history, a.user, u, token, ttl, Wait(ttl));
      }
    }
  }

  lemma StepTellsPasswords(s: State, e: Event, ttl: nat, first: Users)
    requires Inv(s, ttl) && Enabled(s, e) && PasswordsTold(s, first)
    ensures PasswordsTold(Next(s, e, ttl), Begun(first, e))
  {
    var s' := Next(s, e, ttl);
    match e
    case Consume(token, password) => ConsumeTellsPasswords(s, token, password, ttl, first);
    case Issue(_, _, _) => assert |s'.history| > |s.history| ==> s'.history[..|s.history|] == s.history;
    case Join(u, _) => NothingHappenedYet(s.history, u);
    case _ =>
  }

  lemma {:induction false} RunTellsPasswords(s: State, run: seq<Event>, ttl: nat, first: Users)
    requires Inv(s, ttl) && ValidRun(s, run, ttl) && PasswordsTold(s, first)
    ensures PasswordsTold(Run(s, run, ttl), Beginnings(first, run))
    decreases |run|
  {
    if run == [] {
    } else {
      StepKeeps(s, run[0], ttl);
      StepTellsPasswords(s, run[0], ttl, first);
      RunTellsPasswords(Next(s, run[0], ttl), run[1..], ttl, Begun(first, run[0]));
    }
  }

  /** After any run an account has the password its last accepted link set, or the one it began or
      joined with. */
  lemma PasswordIsLastAccepted(s0: State, run: seq<Event>, ttl: nat)
    requires Fresh(s0) && ValidRun(s0, run, ttl)
    ensures PasswordsTold(Run(s0, run, ttl), Beginnings(s0.users, run))
  {
    RunTellsPasswords(s0, run, ttl, s0.users);
  }

  lemma {:induction false} OrderlyPrefix(h: seq<Act>, n: nat, ttl: nat, wait: nat)
    requires Orderly(h, ttl, wait) && n <= |h|
    ensures Orderly(h[..n], ttl, wait)
    ensures n < |h| ==> MayFollow(h[..n], h[n], ttl, wait)
    decreases |h|
  {
    if n == |h| {
      assert h[..n] == h;
    } else if n < |h| - 1 {
      OrderlyPrefix(h[..|h| - 1], n, ttl, wait);
      assert h[..|h| - 1][..n] == h[..n];
    }
  }

  /** The last thing that happened to a user happened after, or is, anything that did. */
  lemma {:induction false} LastIsLast(h: seq<Act>, i: nat, ttl: nat, wait: nat) returns (k: nat)
    requires Orderly(h, ttl, wait) && i < |h|
    ensures i <= k < |h| && h[k].user == h[i].user && Last(h, h[i].user) == Some(h[k]) && h[i].at <= h[k].at
    decreases |h|
  {
    var n := |h| - 1;
    if h[n].user == h[i].user {
      k := n;
      TimesRise(h, i, n, ttl, wait);
    } else {
      k := LastIsLast(h[..n], i, ttl, wait);
    }
  }

  lemma {:induction false} TimesRise(h: seq<Act>, i: nat, j: nat, ttl: nat, wait: nat)
    requires Orderly(h, ttl, wait) && i <= j < |h|
    ensures h[i].at <= h[j].at
    decreases j
  {
    if i < j {
      OrderlyPrefix(h, j, ttl, wait);
      TimesRise(h, i, j - 1, ttl, wait);
    }
  }

  /** Over any run, a token is accepted at most once, and never after a later link was issued
      to the same account. */
  lemma TokensAreSingleUse(s0: State, run: seq<Event>, ttl: nat, i: nat, j: nat)
    requires Fresh(s0) && ValidRun(s0, run, ttl) && i < j < |Run(s0, run, ttl).history|
    requires Run(s0, run, ttl).history[j].Accepted?
    ensures var h := Run(s0, run, ttl).history;
      && (h[i].Accepted? ==> h[i].token != h[j].token)
      && (h[i].Issued? && h[i].user == h[j].user && h[i].token != h[j].token ==>
        exists k | i < k < j :: h[k].Issued? && h[k].token == h[j].token)
  {
    var h, wait := Run(s0, run, ttl).history, Wait(ttl);
    RunKeeps(s0, run, ttl);
    OrderlyPrefix(h, j, ttl, wait);
    if h[i].user == h[j].user {
      var k := LastIsLast(h[..j], i, ttl, wait);
      assert h[..j][k] == h[k];
      if h[i].Accepted? && h[i].token == h[j].token { AcceptedThenIssued(h, i, k, ttl, wait); }
    } else if h[i].Accepted? && h[i].token == h[j].token {
      AcceptedElsewhere(h, i, j, ttl, wait);
    }
  }

  /** A link issued after another was accepted carries another token. */
  lemma AcceptedThenIssued(h: seq<Act>, i: nat, k: nat, ttl: nat, wait: nat)
    requires Orderly(h, ttl, wait) && i < k < |h| && h[i].Accepted? && h[k].Issued?
    ensures h[i].token != h[k].token
  {
    OrderlyPrefix(h, i, ttl, wait);
    OrderlyPrefix(h, k, ttl, wait);
    LatestIsListed(h[..i], h[i].user, h[i].token);
    var m :| 0 <= m < i && h[..i][m].Issued? && h[..i][m].token == h[i].token;
    assert h[..k][m].Issued? && h[..k][m].token in Tokens(h[..k]);
  }

  lemma IssuedToOne(h: seq<Act>, i: nat, j: nat, ttl: nat, wait: nat)
    requires Orderly(h, ttl, wait) && i < |h| && j < |h| && h[i].Issued? && h[j].Issued? && h[i].token == h[j].token
    ensures i == j
  {
    var a, b := if i < j then i else j, if i < j then j else i;
    assert a < b ==> h[..b][a].Issued? && h[..b][a].token in Tokens(h[..b]);
    OrderlyPrefix(h, b, ttl, wait);
  }

  lemma {:induction false} LatestAt(h: seq<Act>, u: UserId, token: Token) returns (m: nat)
    requires IsLatest(h, u, token)
    ensures m < |h| && h[m].Issued? && h[m].user == u && h[m].token == token
    decreases |h|
  {
    var n := |h| - 1;
    if h[n].user == u { m := n; } else { m := LatestAt(h[..n], u, token); }
  }

  lemma AcceptedElsewhere(h: seq<Act>, i: nat, j: nat, ttl: nat, wait: nat)
    requires Orderly(h, ttl, wait) && i < j < |h| && h[i].Accepted? && h[j].Accepted? && h[i].token == h[j].token
    ensures h[i].user == h[j].user
  {
    OrderlyPrefix(h, i, ttl, wait);
    OrderlyPrefix(h, j, ttl, wait);
    var a := LatestAt(h[..i], h[i].user, h[i].token);
    var b := LatestAt(h[..j], h[j].user, h[j].token);
    IssuedToOne(h, a, b, ttl, wait);
  }

  /** A self-service link comes more than the cooldown after every earlier link of the account,
      unless one was used in between. */
  ghost predicate SpacedOut(h: seq<Act>) {
    forall i, j | 0 <= i < j < |h| && h[i].Issued? && h[j].Issued? && h[j].selfService && h[i].user == h[j].user ::
      h[i].at + COOLDOWN_MS < h[j].at || exists k | i < k < j :: h[k].Accepted? && h[k].user == h[i].user
  }

  lemma IssuesAreSpaced(h: seq<Act>, ttl: nat)
    requires Orderly(h, ttl, COOLDOWN_MS)
    ensures SpacedOut(h)
  {
    forall i, j | 0 <= i < j < |h| && h[i].Issued? && h[j].Issued? && h[j].selfService && h[i].user == h[j].user
      ensures h[i].at + COOLDOWN_MS < h[j].at || exists k | i < k < j :: h[k].Accepted? && h[k].user == h[i].user
    {
      OrderlyPrefix(h, j, ttl, COOLDOWN_MS);
      var k := LastIsLast(h[..j], i, ttl, COOLDOWN_MS);
      assert h[..j][k] == h[k];
    }
  }

  ghost predicate CooldownHolds(ttl: nat) {
    forall s0, run | Fresh(s0) && ValidRun(s0, run, ttl) :: SpacedOut(Run(s0, run, ttl).history)
  }

  lemma TooSoon(h: seq<Act>)
    requires |h| == 2 && h[0].Issued? && h[1].Issued? && h[1].selfService && h[0].user == h[1].user
    requires h[0].at + COOLDOWN_MS >= h[1].at
    ensures !SpacedOut(h)
  {}

  lemma RunCons(s: State, e: Event, es: seq<Event>, ttl: nat)
    requires Enabled(s, e) && ValidRun(Next(s, e, ttl), es, ttl)
    ensures ValidRun(s, [e] + es, ttl) && Run(s, [e] + es, ttl) == Run(Next(s, e, ttl), es, ttl)
  {
    assert ([e] + es)[1..] == es;
  }

  /** A link that is purged before the cooldown is over lets the next one through early. */
  lemma ShortLivedLinksSlipThrough(ttl: nat)
    requires ttl < COOLDOWN_MS
    ensures !CooldownHolds(ttl)
  {
    var row := Row("", "", Active, false, None, None, None);
    var s0 := State(0, map[0 := row], []);
    var e0, e1, e2, e3 := Issue(0, 0, true), Tick(ttl + 1), Purge, Issue(0, 1, true);
    var s1 := Next(s0, e0, ttl);
    var s2 := Next(s1, e1, ttl);
    var s3 := Next(s2, e2, ttl);
    assert s3.users[0] == row;
    var s4 := Next(s3, e3, ttl);
    RunCons(s3, e3, [], ttl);
    RunCons(s2, e2, [e3] + [], ttl);
    RunCons(s1, e1, [e2] + ([e3] + []), ttl);
    RunCons(s0, e0, [e1] + ([e2] + ([e3] + [])), ttl);
    var h := s4.history;
    assert h == [Issued(0, 0, 0, true), Issued(0, 1, ttl + 1, true)];
    assert !SpacedOut(h) by { TooSoon(h); }
  }

  /** The cooldown holds over every run exactly when a link outlives it, as the smallest
      configurable lifetime of five minutes does. */
  lemma CooldownHoldsIff(ttl: nat)
    ensures CooldownHolds(ttl) <==> ttl >= COOLDOWN_MS
  {
    if ttl < COOLDOWN_MS {
      ShortLivedLinksSlipThrough(ttl);
    } else {
      forall s0, run | Fresh(s0) && ValidRun(s0, run, ttl)
        ensures SpacedOut(Run(s0, run, ttl).history)
      {
        RunKeeps(s0, run, ttl);
        IssuesAreSpaced(Run(s0, run, ttl).history, ttl);
      }
    }
  }
}
