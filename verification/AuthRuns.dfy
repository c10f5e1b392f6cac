/**
 Requests of the auth service running at the same time, one clock reading or store access per
 step. A request may fail between any two steps. The results hold in every run.
 */
module AuthRuns {
  import opened Prelude
  import opened Auth

  /** A clock reading, and the number of the step that took it: many steps may happen at one reading. */
  datatype Moment = Moment(time: Time, step: nat)

  /** How far a `ValidateToken` or `RefreshToken` has come, with its blacklist check and user lookup. */
  datatype Stage =
    | Started
    | Checked(at: Moment)
    | Parsed(at: Moment)
    | Found(at: Moment, foundAt: Moment, email: string)

  datatype LogoutStage =
    | LogoutStarted
    | AccessExpiry(accessExpiresAt: Time)
    | BothExpiries(accessExpiresAt: Time, refreshExpiresAt: Time)
    | AccessTtl(ttl: int, refreshExpiresAt: Time)
    | AccessStored(refreshExpiresAt: Time)
    | RefreshTtl(ttl: int)
    | LogoutDone

  datatype Request =
    | UseToken(tok: Token, forRefresh: bool, stage: Stage)
    | SigningIn(user: UserId, email: string, version: int)
    | LoggingOut(access: Token, refresh: Token, logout: LogoutStage)
    | ChangingPassword(user: UserId)

  /** History: a token that was accepted, and the access token it was exchanged for, if any. */
  datatype Use = Use(tok: Token, checkedAt: Moment, foundAt: Moment, doneAt: Moment, minted: Option<Token>)

  /** `steps` counts the steps taken so far. */
  datatype System = System(
    resolution: Resolution,
    now: Time,
    steps: nat,
    users: map<UserId, User>,
    blacklist: Blacklist,
    requests: map<nat, Request>,
    issued: set<Token>,
    uses: seq<Use>)

  datatype UserStep =
    | Tick(elapsed: nat)
    | Abandon(q: nat)
    | SignUp(id: UserId, email: string, password: string)
    | SignInRead(q: nat, id: UserId, password: string)
    | SignInMint(q: nat, accessRead: nat, refreshRead: nat)
    | ChangePasswordRead(q: nat, id: UserId, password: string)
    | ChangePasswordWrite(q: nat, password: string)

  datatype UseStep =
    | UseStart(q: nat, tok: Token, forRefresh: bool)
    | UseCheck(q: nat)
    | UseParse(q: nat)
    | UseFind(q: nat)
    | UseFinish(q: nat, iatRead: nat)

  datatype LogoutStep = LogoutStart(q: nat, access: Token, refresh: Token) | LogoutNext(q: nat)

  datatype Step = ByUser(user: UserStep) | ByUse(use: UseStep) | ByLogout(logout: LogoutStep)

  predicate UserEnabled(s: System, step: UserStep) {
    match step
    case Tick(_) => true
    case Abandon(q) => q in s.requests
    case SignUp(id, email, _) => id !in s.users && forall u | u in s.users :: s.users[u].email != email
    case SignInRead(q, id, password) => q !in s.requests && id in s.users && s.users[id].password == password
    case SignInMint(q, _, _) => q in s.requests && s.requests[q].SigningIn?
    case ChangePasswordRead(q, id, password) => q !in s.requests && id in s.users && s.users[id].password == password
    case ChangePasswordWrite(q, _) =>
      q in s.requests && s.requests[q].ChangingPassword? && s.requests[q].user in s.users
  }

  function ApplyUser(s: System, step: UserStep): System
    requires UserEnabled(s, step)
  {
    match step
    case Tick(elapsed) => s.(now := s.now + elapsed)
    case Abandon(q) => s.(requests := s.requests - {q})
    case SignUp(id, email, password) => s.(users := s.users[id := User(email, password, 1)])
    case SignInRead(q, id, _) => s.(requests := s.requests[q := SigningIn(id, s.users[id].email, s.users[id].version)])
    case SignInMint(q, accessRead, refreshRead) =>
      var r := s.requests[q];
      var later := s.now + accessRead + refreshRead;
      s.(requests := s.requests - {q}, now := later,
         issued := s.issued + {MintAccess(r.user, r.email, s.now, s.now + accessRead),
                               MintRefresh(r.user, r.version, s.now + accessRead, later)})
    case ChangePasswordRead(q, id, _) => s.(requests := s.requests[q := ChangingPassword(id)])
    case ChangePasswordWrite(q, password) =>
      var id := s.requests[q].user;
      s.(requests := s.requests - {q},
         users := s.users[id := User(s.users[id].email, password, s.users[id].version + 1)])
  }

  predicate AtStage(s: System, q: nat) {
    q in s.requests && s.requests[q].UseToken?
  }

  predicate UseEnabled(s: System, step: UseStep) {
    match step
    case UseStart(q, _, _) => q !in s.requests
    case UseCheck(q) => AtStage(s, q) && s.requests[q].stage.Started?
    case UseParse(q) => AtStage(s, q) && s.requests[q].stage.Checked?
    case UseFind(q) => AtStage(s, q) && s.requests[q].stage.Parsed?
    case UseFinish(q, _) => AtStage(s, q) && s.requests[q].stage.Found?
  }

  function WithStage(s: System, q: nat, stage: Stage): System
    requires AtStage(s, q)
  {
    s.(requests := s.requests[q := s.requests[q].(stage := stage)])
  }

  predicate RightType(r: Request)
    requires r.UseToken?
  {
    if r.forRefresh then r.tok.Refresh? else r.tok.Access?
  }

  predicate UserMatches(s: System, tok: Token)
    requires !tok.Malformed?
  {
    tok.user in s.users && (tok.Refresh? ==> s.users[tok.user].version == tok.version)
  }

  function At(s: System): Moment {
    Moment(s.now, s.steps)
  }

  /** A failed check ends the request. */
  function ApplyUse(s: System, step: UseStep): System
    requires UseEnabled(s, step)
  {
    match step
    case UseStart(q, tok, forRefresh) => s.(requests := s.requests[q := UseToken(tok, forRefresh, Started)])
    case UseCheck(q) =>
      if Blacklisted(s.blacklist, s.requests[q].tok, s.now) then s.(requests := s.requests - {q})
      else WithStage(s, q, Checked(At(s)))
    case UseParse(q) =>
      var r := s.requests[q];
      if Alive(r.tok, s.now) && RightType(r) then WithStage(s, q, Parsed(r.stage.at))
      else s.(requests := s.requests - {q})
    case UseFind(q) =>
      var r := s.requests[q];
      if !r.tok.Malformed? && UserMatches(s, r.tok) then
        WithStage(s, q, Found(r.stage.at, At(s), s.users[r.tok.user].email))
      else s.(requests := s.requests - {q})
    case UseFinish(q, iatRead) =>
      var r := s.requests[q];
      var minted := if r.forRefresh && !r.tok.Malformed?
        then Some(MintAccess(r.tok.user, r.stage.email, s.now, s.now + iatRead)) else None;
      s.(requests := s.requests - {q}, now := s.now + iatRead,
         issued := if minted.Some? then s.issued + {minted.value} else s.issued,
         uses := s.uses + [Use(r.tok, r.stage.at, r.stage.foundAt, At(s), minted)])
  }

  predicate LogoutEnabled(s: System, step: LogoutStep) {
    match step
    case LogoutStart(q, _, _) => q !in s.requests
    case LogoutNext(q) => q in s.requests && s.requests[q].LoggingOut? && !s.requests[q].logout.LogoutDone?
  }

  function ApplyLogout(s: System, step: LogoutStep): System
    requires LogoutEnabled(s, step)
  {
    match step
    case LogoutStart(q, access, refresh) => s.(requests := s.requests[q := LoggingOut(access, refresh, LogoutStarted)])
    case LogoutNext(q) =>
      var r := s.requests[q];
      match r.logout
      case LogoutStarted =>
        s.(requests := s.requests[q := r.(logout := AccessExpiry(LogoutExpiry(r.access, ACCESS_TTL, s.now)))])
      case AccessExpiry(a) =>
        s.(requests := s.requests[q := r.(logout := BothExpiries(a, LogoutExpiry(r.refresh, REFRESH_TTL, s.now)))])
      case BothExpiries(a, b) => s.(requests := s.requests[q := r.(logout := AccessTtl(a - s.now, b))])
      case AccessTtl(ttl, b) =>
        s.(requests := s.requests[q := r.(logout := AccessStored(b))],
           blacklist := SetEntry(s.blacklist, r.access, ttl, s.now, s.resolution))
      case AccessStored(b) => s.(requests := s.requests[q := r.(logout := RefreshTtl(b - s.now))])
      case RefreshTtl(ttl) =>
        s.(requests := s.requests[q := r.(logout := LogoutDone)],
           blacklist := SetEntry(s.blacklist, r.refresh, ttl, s.now, s.resolution))
      case LogoutDone => s
  }

  predicate Enabled(s: System, step: Step) {
    match step
    case ByUser(u) => UserEnabled(s, u)
    case ByUse(u) => UseEnabled(s, u)
    case ByLogout(l) => LogoutEnabled(s, l)
  }

  function Apply(s: System, step: Step): System
    requires Enabled(s, step)
  {
    var s' := match step
      case ByUser(u) => ApplyUser(s, u)
      case ByUse(u) => ApplyUse(s, u)
      case ByLogout(l) => ApplyLogout(s, l);
    s'.(steps := s.steps + 1)
  }

  function Exec(s: System, steps: seq<Step>): Option<System>
    decreases |steps|
  {
    if steps == [] then Some(s)
    else if Enabled(s, steps[0]) then Exec(Apply(s, steps[0]), steps[1..])
    else None
  }

  // ---------------------------------------------------------------- logout

  /** An expiry that a Logout has computed covers the rest of the token's life; so does a TTL, counted from now. */
  predicate Covers(tok: Token, until: Time, now: Time) {
    Dead(tok, now) || ExpiresAt(tok) <= until
  }

  predicate IsRevoked(s: System, tok: Token) {
    Revoked(s.blacklist, tok, s.now, s.resolution)
  }

  ghost predicate LogoutHolds(s: System, r: Request) {
    r.LoggingOut? ==>
      match r.logout
      case LogoutStarted => true
      case AccessExpiry(a) => Covers(r.access, a, s.now)
      case BothExpiries(a, b) => Covers(r.access, a, s.now) && Covers(r.refresh, b, s.now)
      case AccessTtl(ttl, b) => Covers(r.access, s.now + ttl, s.now) && Covers(r.refresh, b, s.now)
      case AccessStored(b) => IsRevoked(s, r.access) && Covers(r.refresh, b, s.now)
      case RefreshTtl(ttl) => IsRevoked(s, r.access) && Covers(r.refresh, s.now + ttl, s.now)
      case LogoutDone => IsRevoked(s, r.access) && IsRevoked(s, r.refresh)
  }

  ghost predicate LogoutInv(s: System) {
    forall q | q in s.requests :: LogoutHolds(s, s.requests[q])
  }

  lemma RevokedKept(s: System, step: Step, tok: Token)
    requires LogoutInv(s) && Enabled(s, step) && IsRevoked(s, tok)
    ensures IsRevoked(Apply(s, step), tok)
  {
    if step.ByLogout? && step.logout.LogoutNext? {
      assert LogoutHolds(s, s.requests[step.logout.q]);
    }
  }

  lemma LogoutNextHolds(s: System, q: nat)
    requires LogoutInv(s) && LogoutEnabled(s, LogoutNext(q))
    ensures var s' := Apply(s, ByLogout(LogoutNext(q))); LogoutHolds(s', s'.requests[q])
  {
    assert LogoutHolds(s, s.requests[q]);
    if s.requests[q].logout.RefreshTtl? {
      RevokedKept(s, ByLogout(LogoutNext(q)), s.requests[q].access);
    }
  }

  /** A Logout that does not move keeps its invariant as time passes and other entries are made. */
  lemma LogoutWaits(s: System, step: Step, r: Request)
    requires LogoutInv(s) && Enabled(s, step) && LogoutHolds(s, r) && s.now <= Apply(s, step).now
    ensures LogoutHolds(s.(now := Apply(s, step).now, blacklist := Apply(s, step).blacklist), r)
  {
    if r.LoggingOut? {
      if IsRevoked(s, r.access) { RevokedKept(s, step, r.access); }
      if IsRevoked(s, r.refresh) { RevokedKept(s, step, r.refresh); }
    }
  }

  /** The Logout of request `q` is where it was, or has just started. */
  predicate SameLogout(s: System, s': System, q: nat) {
    q in s'.requests && s'.requests[q].LoggingOut? ==>
      s'.requests[q].logout.LogoutStarted? || (q in s.requests && s.requests[q] == s'.requests[q])
  }

  lemma OnlyOwnLogoutMoves(s: System, step: Step, q: nat)
    requires Enabled(s, step) && step != ByLogout(LogoutNext(q))
    ensures SameLogout(s, Apply(s, step), q)
  {
    match step {
      case ByUser(u) => UserMovesNoLogout(s, u, q);
      case ByUse(u) => UseMovesNoLogout(s, u, q);
      case ByLogout(l) =>
    }
  }

  lemma UserMovesNoLogout(s: System, step: UserStep, q: nat)
    requires UserEnabled(s, step)
    ensures SameLogout(s, ApplyUser(s, step), q)
  {
  }

  lemma UseMovesNoLogout(s: System, step: UseStep, q: nat)
    requires UseEnabled(s, step)
    ensures SameLogout(s, ApplyUse(s, step), q)
  {
  }

  lemma LogoutKept(s: System, step: Step)
    requires LogoutInv(s) && Enabled(s, step)
    ensures LogoutInv(Apply(s, step)) && s.now <= Apply(s, step).now
  {
    var s' := Apply(s, step);
    forall q | q in s'.requests && s'.requests[q].LoggingOut? ensures LogoutHolds(s', s'.requests[q]) {
      if step == ByLogout(LogoutNext(q)) {
        LogoutNextHolds(s, q);
      } else {
        OnlyOwnLogoutMoves(s, step, q);
        if q in s.requests && s.requests[q] == s'.requests[q] {
          LogoutWaits(s, step, s.requests[q]);
        }
      }
    }
  }

  // ---------------------------------------------------------------- results over every run

  /** The token passed its blacklist check before step `since`, or in the last step of its life. */
  predicate EarlyOrClosing(s: System, tok: Token, check: Moment, since: nat) {
    check.step < since || Closing(tok, check.time, s.resolution)
  }

  ghost predicate RefusedSince(s: System, tok: Token, since: nat, uses: nat) {
    && since <= s.steps && IsRevoked(s, tok)
    && (forall q | AtStage(s, q) && s.requests[q].tok == tok && !s.requests[q].stage.Started? ::
          EarlyOrClosing(s, tok, s.requests[q].stage.at, since))
    && uses <= |s.uses|
    && (forall k | uses <= k < |s.uses| && s.uses[k].tok == tok :: EarlyOrClosing(s, tok, s.uses[k].checkedAt, since))
  }

  lemma RefusedUser(s: System, step: UserStep, tok: Token, since: nat, uses: nat)
    requires LogoutInv(s) && UserEnabled(s, step) && RefusedSince(s, tok, since, uses)
    ensures RefusedSince(Apply(s, ByUser(step)), tok, since, uses)
  {
    RevokedKept(s, ByUser(step), tok);
  }

  lemma RefusedUse(s: System, step: UseStep, tok: Token, since: nat, uses: nat)
    requires LogoutInv(s) && UseEnabled(s, step) && RefusedSince(s, tok, since, uses)
    ensures RefusedSince(Apply(s, ByUse(step)), tok, since, uses)
  {
    RevokedKept(s, ByUse(step), tok);
  }

  lemma RefusedLogout(s: System, step: LogoutStep, tok: Token, since: nat, uses: nat)
    requires LogoutInv(s) && LogoutEnabled(s, step) && RefusedSince(s, tok, since, uses)
    ensures RefusedSince(Apply(s, ByLogout(step)), tok, since, uses)
  {
    RevokedKept(s, ByLogout(step), tok);
  }

  lemma {:induction false} RefusedForEver(s: System, steps: seq<Step>, tok: Token, since: nat, uses: nat)
    requires LogoutInv(s) && Exec(s, steps).Some? && RefusedSince(s, tok, since, uses)
    ensures RefusedSince(Exec(s, steps).value, tok, since, uses)
    decreases |steps|
  {
    if steps != [] {
      match steps[0] {
        case ByUser(u) => RefusedUser(s, u, tok, since, uses);
        case ByUse(u) => RefusedUse(s, u, tok, since, uses);
        case ByLogout(l) => RefusedLogout(s, l, tok, since, uses);
      }
      LogoutKept(s, steps[0]);
      RefusedForEver(Apply(s, steps[0]), steps[1..], tok, since, uses);
    }
  }

  function Start(now: Time, resolution: Resolution): System {
    System(resolution, now, 0, map[], map[], map[], {}, [])
  }

  /** The service has just been set up. */
  predicate Initial(s: System) {
    s == Start(s.now, s.resolution)
  }

  ghost predicate Past(s: System, m: Moment) {
    m.time <= s.now && m.step < s.steps
  }

  /** What a request has done, it did in an earlier step; a parsed token was alive when it was checked. */
  ghost predicate TimesInv(s: System) {
    forall q | q in s.requests :: TimesHold(s, s.requests[q])
  }

  ghost predicate TimesHold(s: System, r: Request) {
    r.UseToken? ==>
      match r.stage
      case Started => true
      case Checked(at) => Past(s, at)
      case Parsed(at) => Past(s, at) && Alive(r.tok, at.time) && TypeFits(r.tok, r.forRefresh)
      case Found(at, foundAt, _) =>
        Past(s, at) && Past(s, foundAt) && Alive(r.tok, at.time) && TypeFits(r.tok, r.forRefresh)
  }

  /** A refresh token is for refreshing, an access token for access. */
  predicate TypeFits(tok: Token, forRefresh: bool) {
    (forRefresh ==> tok.Refresh?) && (!forRefresh ==> tok.Access?)
  }

  lemma {:induction false} RunKeepsInv(s: System, steps: seq<Step>)
    requires LogoutInv(s) && TimesInv(s) && VersionInv(s) && UsesInv(s) && Exec(s, steps).Some?
    ensures var end := Exec(s, steps).value; LogoutInv(end) && TimesInv(end) && VersionInv(end) && UsesInv(end)
    ensures Exec(s, steps).value.steps == s.steps + |steps| && Exec(s, steps).value.resolution == s.resolution
    decreases |steps|
  {
    if steps != [] {
      LogoutKept(s, steps[0]);
      TimesKept(s, steps[0]);
      VersionKept(s, steps[0]);
      UsesKept(s, steps[0]);
      UsesFrame(s, steps[0]);
      RunKeepsInv(Apply(s, steps[0]), steps[1..]);
    }
  }

  lemma TimesKept(s: System, step: Step)
    requires TimesInv(s) && Enabled(s, step)
    ensures TimesInv(Apply(s, step))
  {
    match step {
      case ByUser(u) => TimesUser(s, u);
      case ByUse(u) => TimesUse(s, u);
      case ByLogout(l) => TimesLogout(s, l);
    }
  }

  lemma TimesLogout(s: System, step: LogoutStep)
    requires TimesInv(s) && LogoutEnabled(s, step)
    ensures TimesInv(Apply(s, ByLogout(step)))
  {
  }

  lemma TimesUser(s: System, step: UserStep)
    requires TimesInv(s) && UserEnabled(s, step)
    ensures TimesInv(Apply(s, ByUser(step)))
  {
  }

  lemma TimesUse(s: System, step: UseStep)
    requires TimesInv(s) && UseEnabled(s, step)
    ensures TimesInv(Apply(s, ByUse(step)))
  {
  }

  ghost predicate HasLoggedOut(s: System, q: nat) {
    q in s.requests && s.requests[q].LoggingOut? && s.requests[q].logout.LogoutDone?
  }

  /** The instants in the last TTL step before the token expires: none if the step is one tick of the clock. */
  predicate InGap(tok: Token, t: Time, resolution: Resolution) {
    !tok.Malformed? && ExpiresAt(tok) - resolution < t < ExpiresAt(tok)
  }

  /**
   Logout is permanent. Once a Logout has finished, in whatever happens afterwards no use of either
   token is accepted unless its blacklist check was one of the steps before. A store that counts
   TTLs in steps longer than the clock's leaves one exception: a check in the last such step before
   the token expires.
   */
  lemma LogoutIsPermanent(start: System, before: seq<Step>, after: seq<Step>, q: nat)
    requires Initial(start) && Exec(start, before).Some? && Exec(Exec(start, before).value, after).Some?
    requires HasLoggedOut(Exec(start, before).value, q)
    ensures var s := Exec(start, before).value;
      var end := Exec(s, after).value;
      var r := s.requests[q];
      && |s.uses| <= |end.uses|
      && forall k | |s.uses| <= k < |end.uses| && end.uses[k].tok in {r.access, r.refresh} ::
           end.uses[k].checkedAt.step < |before|
           || InGap(end.uses[k].tok, end.uses[k].checkedAt.time, start.resolution)
  {
    var s := Exec(start, before).value;
    RunKeepsInv(start, before);
    assert LogoutHolds(s, s.requests[q]);
    RevokedIsPermanent(s, after, s.requests[q].access);
    RevokedIsPermanent(s, after, s.requests[q].refresh);
  }

  lemma RevokedIsPermanent(s: System, after: seq<Step>, tok: Token)
    requires LogoutInv(s) && TimesInv(s) && VersionInv(s) && UsesInv(s) && Exec(s, after).Some? && IsRevoked(s, tok)
    ensures var uses := Exec(s, after).value.uses;
      && |s.uses| <= |uses|
      && forall k | |s.uses| <= k < |uses| && uses[k].tok == tok ::
           uses[k].checkedAt.step < s.steps || InGap(tok, uses[k].checkedAt.time, s.resolution)
  {
    var end := Exec(s, after).value;
    RunKeepsInv(s, after);
    RefusedForEver(s, after, tok, s.steps, |s.uses|);
    forall k | |s.uses| <= k < |end.uses| && end.uses[k].tok == tok
      ensures end.uses[k].checkedAt.step < s.steps || InGap(tok, end.uses[k].checkedAt.time, s.resolution)
    {
      assert UseHolds(end, end.uses[k]);
      assert EarlyOrClosing(end, tok, end.uses[k].checkedAt, s.steps);
    }
  }

  /**
   A recorded use is past and its token was alive. A refresh token was exchanged, for a token that
   carries its user, the email of that user and an expiry fifteen minutes after the use was done; an
   access token was not.
   */
  ghost predicate UseHolds(s: System, u: Use) {
    && Past(s, u.doneAt) && Alive(u.tok, u.checkedAt.time)
    && u.tok.user in s.users
    && (u.minted.Some? <==> u.tok.Refresh?)
    && (u.minted.Some? ==>
          exists iatRead: Time ::
            u.minted == Some(Access(u.tok.user, s.users[u.tok.user].email,
                                    (u.doneAt.time + 900 * 1_000_000_000) / 1_000_000_000,
                                    iatRead / 1_000_000_000, 0)))
  }

  lemma MintedAs(s: System, u: Use) returns (iatRead: Time)
    requires UseHolds(s, u) && u.minted.Some?
    ensures u.minted == Some(MintAccess(u.tok.user, s.users[u.tok.user].email, u.doneAt.time, iatRead))
  {
    iatRead :| u.minted == Some(Access(u.tok.user, s.users[u.tok.user].email,
                                       (u.doneAt.time + 900 * 1_000_000_000) / 1_000_000_000,
                                       iatRead / 1_000_000_000, 0));
  }

  ghost predicate UsesInv(s: System) {
    forall k | 0 <= k < |s.uses| :: UseHolds(s, s.uses[k])
  }

  lemma UsesFrame(s: System, step: Step)
    requires Enabled(s, step)
    ensures s.uses <= Apply(s, step).uses
    ensures s.now <= Apply(s, step).now && Apply(s, step).steps == s.steps + 1
    ensures Apply(s, step).resolution == s.resolution
    ensures s.uses < Apply(s, step).uses ==>
      step.ByUse? && step.use.UseFinish? && |Apply(s, step).uses| == |s.uses| + 1
  {
  }

  /** Users stay, and so do their email addresses. */
  lemma EmailsKept(s: System, step: Step, id: UserId)
    requires Enabled(s, step) && id in s.users
    ensures id in Apply(s, step).users && Apply(s, step).users[id].email == s.users[id].email
  {
  }

  lemma NewUseHolds(s: System, step: UseStep)
    requires TimesInv(s) && VersionInv(s) && UseEnabled(s, step) && step.UseFinish?
    ensures var s' := Apply(s, ByUse(step)); UseHolds(s', s'.uses[|s.uses|])
  {
    var r := s.requests[step.q];
    var s' := Apply(s, ByUse(step));
    var u := s'.uses[|s.uses|];
    assert TimesHold(s, r) && VersionHolds(s, r);
    assert r.stage.email == s.users[r.tok.user].email;
    assert u.minted.Some? ==>
      u.minted == Some(Access(u.tok.user, s.users[u.tok.user].email,
                              (u.doneAt.time + 900 * 1_000_000_000) / 1_000_000_000, s'.now / 1_000_000_000, 0));
  }

  lemma UsesKept(s: System, step: Step)
    requires UsesInv(s) && TimesInv(s) && VersionInv(s) && Enabled(s, step)
    ensures UsesInv(Apply(s, step))
  {
    var s' := Apply(s, step);
    UsesFrame(s, step);
    if step.ByUse? && step.use.UseFinish? {
      NewUseHolds(s, step.use);
    }
    forall k | 0 <= k < |s.uses| ensures UseHolds(s', s'.uses[k]) {
      OldUseHolds(s, step, s.uses[k]);
    }
  }

  lemma OldUseHolds(s: System, step: Step, u: Use)
    requires UseHolds(s, u) && Enabled(s, step)
    ensures UseHolds(Apply(s, step), u)
  {
    UsesFrame(s, step);
    EmailsKept(s, step, u.tok.user);
    if u.minted.Some? {
      var iatRead := MintedAs(s, u);
      assert u.minted == Some(MintAccess(u.tok.user, Apply(s, step).users[u.tok.user].email, u.doneAt.time, iatRead));
    }
  }

  ghost predicate EmailsUnique(s: System) {
    forall a, b | a in s.users && b in s.users && s.users[a].email == s.users[b].email :: a == b
  }

  lemma StepKeepsEmails(s: System, step: Step)
    requires EmailsUnique(s) && Enabled(s, step)
    ensures EmailsUnique(Apply(s, step))
  {
    var s' := Apply(s, step);
    forall id | id in s.users ensures id in s'.users && s'.users[id].email == s.users[id].email {
      EmailsKept(s, step, id);
    }
    OnlySignUpAdds(s, step);
  }

  /** A new user has version 1 and an email of its own; nobody but a sign-up adds one. */
  ghost predicate AddsOneAtMost(users: map<UserId, User>, users': map<UserId, User>) {
    forall id | id in users' && id !in users ::
      && users'.Keys == users.Keys + {id} && users'[id].version == 1
      && forall u | u in users :: users[u].email != users'[id].email
  }

  lemma OnlySignUpAdds(s: System, step: Step)
    requires Enabled(s, step)
    ensures AddsOneAtMost(s.users, Apply(s, step).users)
  {
    match step {
      case ByUser(u) => UserStepAdds(s, u);
      case ByUse(u) => UseStepAdds(s, u);
      case ByLogout(l) => LogoutStepAdds(s, l);
    }
  }

  lemma UserStepAdds(s: System, step: UserStep)
    requires UserEnabled(s, step)
    ensures AddsOneAtMost(s.users, ApplyUser(s, step).users)
  {
  }

  lemma UseStepAdds(s: System, step: UseStep)
    requires UseEnabled(s, step)
    ensures ApplyUse(s, step).users == s.users
  {
  }

  lemma LogoutStepAdds(s: System, step: LogoutStep)
    requires LogoutEnabled(s, step)
    ensures ApplyLogout(s, step).users == s.users
  {
  }

  /** In every run, no two users have the same email address. */
  lemma {:induction false} RunKeepsEmails(s: System, steps: seq<Step>)
    requires EmailsUnique(s) && Exec(s, steps).Some?
    ensures EmailsUnique(Exec(s, steps).value)
    decreases |steps|
  {
    if steps != [] {
      StepKeepsEmails(s, steps[0]);
      RunKeepsEmails(Apply(s, steps[0]), steps[1..]);
    }
  }

  /** A request that fails leaves nothing behind. */
  lemma AbandonedLeavesNothing(s: System, q: nat)
    requires q in s.requests
    ensures var s' := Apply(s, ByUser(Abandon(q)));
      && q !in s'.requests && s'.users == s.users && s'.blacklist == s.blacklist && s'.issued == s.issued
      && s'.uses == s.uses
      && forall p | p in s.requests && p != q :: p in s'.requests && s'.requests[p] == s.requests[p]
  {
  }

  /** Every token ever accepted, in every run, was alive, of the right type and of a known user. */
  lemma AcceptedUse(start: System, steps: seq<Step>, k: nat)
    requires Initial(start) && Exec(start, steps).Some? && k < |Exec(start, steps).value.uses|
    ensures var s := Exec(start, steps).value; UseHolds(s, s.uses[k])
  {
    RunKeepsInv(start, steps);
  }

  // ---------------------------------------------------------------- tokens exchanged for a logged-out one

  /** For every exchange in every run: the new token outlives fifteen minutes after `t`
      if and only if it was minted in a later second. */
  lemma ExchangedAliveExactlyWhen(start: System, steps: seq<Step>, k: nat, t: Time)
    requires Initial(start) && Exec(start, steps).Some? && k < |Exec(start, steps).value.uses|
    requires Exec(start, steps).value.uses[k].minted.Some?
    ensures var u := Exec(start, steps).value.uses[k];
      Alive(u.minted.value, t + ACCESS_TTL) <==> Unix(t) < Unix(u.doneAt.time)
  {
    RunKeepsInv(start, steps);
    var s := Exec(start, steps).value;
    var u := s.uses[k];
    assert UseHolds(s, u);
    var email := s.users[u.tok.user].email;
    var iatRead := MintedAs(s, u);
    AliveAfterLifetime(u.tok.user, email, u.doneAt.time, iatRead, t);
  }

  lemma PastUseDies(s: System, u: Use, now: Time)
    requires UseHolds(s, u) && u.minted.Some? && now >= u.doneAt.time + ACCESS_TTL
    ensures Dead(u.minted.value, now)
  {
    var email := s.users[u.tok.user].email;
    var iatRead := MintedAs(s, u);
    AccessTokenLifetime(u.tok.user, email, u.doneAt.time, iatRead, now);
  }

  /** A blacklist check of the token that was not made in the last step of its life. */
  predicate Timely(s: System, tok: Token, check: Moment) {
    !Closing(tok, check.time, s.resolution)
  }

  /** The request can still exchange `r`, although `r` is revoked:
      it is past its blacklist check and will pass the others. */
  predicate MayExchange(s: System, request: Request, r: Token) {
    && request.UseToken? && request.forRefresh && request.tok == r && r.Refresh?
    && match request.stage
       case Started => false
       case Checked(at) => Timely(s, r, at) && Alive(r, s.now) && UserMatches(s, r)
       case Parsed(at) => Timely(s, r, at) && UserMatches(s, r)
       case Found(at, _, _) => Timely(s, r, at)
  }

  ghost predicate Exchanging(s: System, r: Token) {
    exists q | q in s.requests :: MayExchange(s, s.requests[q], r)
  }

  /** The use exchanged `r`, after a check that was not in the last step of its life:
      with an exact store, any exchange. */
  predicate Exchanges(s: System, u: Use, r: Token) {
    u.tok == r && u.minted.Some? && Timely(s, r, u.checkedAt)
  }

  /** Whatever happens after `s`, every access token ever exchanged for `r` is dead fifteen minutes after `s`. */
  ghost predicate ExchangesDie(s: System, r: Token) {
    forall after, k, now ::
      Exec(s, after).Some? && 0 <= k < |Exec(s, after).value.uses| && Exchanges(s, Exec(s, after).value.uses[k], r)
      && now >= s.now + ACCESS_TTL ==>
        Dead(Exec(s, after).value.uses[k].minted.value, now)
  }

  /** The token is not ahead of its user: a version that does not match now never will. */
  predicate NotAhead(s: System, tok: Token) {
    !tok.Malformed? && tok.user in s.users && (tok.Refresh? ==> tok.version <= s.users[tok.user].version)
  }

  /** No exchange of `r` is possible any more, and there has been none since use number `uses`. */
  ghost predicate NoExchange(s: System, r: Token, uses: nat) {
    && r.Refresh? && NotAhead(s, r) && IsRevoked(s, r) && !Exchanging(s, r)
    && uses <= |s.uses| && forall k | uses <= k < |s.uses| :: !Exchanges(s, s.uses[k], r)
  }

  /** No step gives a request the right to exchange a revoked token. */
  lemma NoNewExchange(s: System, step: Step, r: Token, q: nat)
    requires Enabled(s, step) && r.Refresh? && NotAhead(s, r) && IsRevoked(s, r)
    requires q in Apply(s, step).requests && MayExchange(Apply(s, step), Apply(s, step).requests[q], r)
    ensures NotAhead(Apply(s, step), r)
    ensures q in s.requests && MayExchange(s, s.requests[q], r)
  {
    match step {
      case ByUser(u) => NoNewExchangeUser(s, u, r, q);
      case ByUse(u) => NoNewExchangeUse(s, u, r, q);
      case ByLogout(l) =>
    }
  }

  lemma NoNewExchangeUser(s: System, step: UserStep, r: Token, q: nat)
    requires UserEnabled(s, step) && r.Refresh? && NotAhead(s, r)
    requires q in ApplyUser(s, step).requests && MayExchange(ApplyUser(s, step), ApplyUser(s, step).requests[q], r)
    ensures NotAhead(ApplyUser(s, step), r)
    ensures q in s.requests && MayExchange(s, s.requests[q], r)
  {
  }

  lemma NoNewExchangeUse(s: System, step: UseStep, r: Token, q: nat)
    requires UseEnabled(s, step) && r.Refresh? && NotAhead(s, r) && IsRevoked(s, r)
    requires q in ApplyUse(s, step).requests && MayExchange(ApplyUse(s, step), ApplyUse(s, step).requests[q], r)
    ensures q in s.requests && MayExchange(s, s.requests[q], r)
  {
  }

  lemma NoExchangeKept(s: System, step: Step, r: Token, uses: nat)
    requires LogoutInv(s) && Enabled(s, step) && NoExchange(s, r, uses)
    ensures NoExchange(Apply(s, step), r, uses)
  {
    var s' := Apply(s, step);
    RevokedKept(s, step, r);
    VersionsNeverDecrease(s, step, r.user);
    if q :| q in s'.requests && MayExchange(s', s'.requests[q], r) {
      NoNewExchange(s, step, r, q);
    }
    UsesFrame(s, step);
    if step.ByUse? && step.use.UseFinish? {
      assert !MayExchange(s, s.requests[step.use.q], r);
    }
  }

  lemma {:induction false} NoExchangeForEver(s: System, steps: seq<Step>, r: Token, uses: nat)
    requires LogoutInv(s) && Exec(s, steps).Some? && NoExchange(s, r, uses)
    ensures NoExchange(Exec(s, steps).value, r, uses)
    decreases |steps|
  {
    if steps != [] {
      NoExchangeKept(s, steps[0], r, uses);
      LogoutKept(s, steps[0]);
      NoExchangeForEver(Apply(s, steps[0]), steps[1..], r, uses);
    }
  }

  /** A request that can still exchange the token can do it a second from now. */
  lemma {:induction false} ExchangeLate(s: System, r: Token, q: nat) returns (after: seq<Step>)
    requires q in s.requests && MayExchange(s, s.requests[q], r)
    ensures Exec(s, after).Some? && Exec(s, after).value.uses != []
    ensures var uses := Exec(s, after).value.uses;
      var u := uses[|uses| - 1];
      Exchanges(s, u, r) && Alive(u.minted.value, s.now + ACCESS_TTL)
    decreases if s.requests[q].stage.Checked? then 2 else if s.requests[q].stage.Parsed? then 1 else 0
  {
    if s.requests[q].stage.Found? {
      var ticked := Apply(s, ByUser(Tick(SECOND)));
      after := [ByUser(Tick(SECOND)), ByUse(UseFinish(q, 0))];
      assert after[1..] == [ByUse(UseFinish(q, 0))] && after[1..][1..] == [];
      assert Exec(s, after) == Exec(ticked, after[1..]) == Exec(Apply(ticked, ByUse(UseFinish(q, 0))), []);
      AliveAfterLifetime(r.user, s.requests[q].stage.email, s.now + SECOND, s.now + SECOND, s.now);
    } else {
      var step := if s.requests[q].stage.Checked? then ByUse(UseParse(q)) else ByUse(UseFind(q));
      var rest := ExchangeLate(Apply(s, step), r, q);
      after := [step] + rest;
      assert after[1..] == rest;
    }
  }

  /**
   Once a Logout of a refresh token issued here has finished, every access token exchanged for it,
   before or after, is dead fifteen minutes later whatever happens, if and only if no refresh of it
   is past its blacklist check with the remaining checks still open to it.
   */
  lemma ExchangesDieExactlyWhen(start: System, before: seq<Step>, q: nat)
    requires Initial(start) && Exec(start, before).Some? && HasLoggedOut(Exec(start, before).value, q)
    requires var s := Exec(start, before).value;
      AsMinted(s.requests[q].refresh) in s.issued && s.requests[q].refresh.Refresh?
    ensures var s := Exec(start, before).value;
      ExchangesDie(s, s.requests[q].refresh) <==> !Exchanging(s, s.requests[q].refresh)
  {
    var s := Exec(start, before).value;
    var r := s.requests[q].refresh;
    RunKeepsInv(start, before);
    assert LogoutHolds(s, s.requests[q]);
    if Exchanging(s, r) {
      var p :| p in s.requests && MayExchange(s, s.requests[p], r);
      var after := ExchangeLate(s, r, p);
      assert !Dead(Exec(s, after).value.uses[|Exec(s, after).value.uses| - 1].minted.value, s.now + ACCESS_TTL);
    } else {
      NoExchangeDies(s, r);
    }
  }

  lemma NoExchangeDies(s: System, r: Token)
    requires LogoutInv(s) && UsesInv(s) && NoExchange(s, r, |s.uses|)
    ensures ExchangesDie(s, r)
  {
    forall after, k, now |
      Exec(s, after).Some? && 0 <= k < |Exec(s, after).value.uses| && Exchanges(s, Exec(s, after).value.uses[k], r)
      && now >= s.now + ACCESS_TTL
      ensures Dead(Exec(s, after).value.uses[k].minted.value, now)
    {
      NoExchangeForEver(s, after, r, |s.uses|);
      UsesGrow(s, after);
      assert Exec(s, after).value.resolution == s.resolution;
      assert UseHolds(s, s.uses[k]);
      PastUseDies(s, s.uses[k], now);
    }
  }

  lemma {:induction false} UsesGrow(s: System, steps: seq<Step>)
    requires Exec(s, steps).Some?
    ensures s.uses <= Exec(s, steps).value.uses && Exec(s, steps).value.resolution == s.resolution
    decreases |steps|
  {
    if steps != [] {
      UsesFrame(s, steps[0]);
      UsesGrow(Apply(s, steps[0]), steps[1..]);
    }
  }

  /**
   If a refresh is under way at the Logout, its own duration is all that comes on top: an access
   token exchanged for the token by a request of at most that duration, or before the Logout
   finished, is dead fifteen minutes and the duration after it.
   */
  lemma ExchangedTokensDie(start: System, before: seq<Step>, after: seq<Step>, q: nat, k: nat, duration: nat, now: Time)
    requires Initial(start) && Exec(start, before).Some? && Exec(Exec(start, before).value, after).Some?
    requires HasLoggedOut(Exec(start, before).value, q)
    requires var s := Exec(start, before).value; var end := Exec(s, after).value;
      k < |end.uses| && end.uses[k].tok == s.requests[q].refresh && end.uses[k].minted.Some?
      && (k < |s.uses| || (Timely(s, end.uses[k].tok, end.uses[k].checkedAt)
                           && end.uses[k].doneAt.time - end.uses[k].checkedAt.time <= duration))
    requires now >= Exec(start, before).value.now + duration + ACCESS_TTL
    ensures Dead(Exec(Exec(start, before).value, after).value.uses[k].minted.value, now)
  {
    var s := Exec(start, before).value;
    var end := Exec(s, after).value;
    RunKeepsInv(start, before);
    UsesGrow(s, after);
    if k < |s.uses| {
      assert UseHolds(s, s.uses[k]);
      PastUseDies(s, s.uses[k], now);
    } else {
      LogoutIsPermanent(start, before, after, q);
      assert end.uses[k].checkedAt.step < s.steps;
      LateUseDies(s, after, k, duration, now);
    }
  }

  lemma LateUseDies(s: System, after: seq<Step>, k: nat, duration: nat, now: Time)
    requires LogoutInv(s) && TimesInv(s) && VersionInv(s) && UsesInv(s) && Exec(s, after).Some?
    requires var uses := Exec(s, after).value.uses;
      |s.uses| <= k < |uses| && uses[k].minted.Some? && uses[k].checkedAt.step < s.steps
      && uses[k].doneAt.time - uses[k].checkedAt.time <= duration
    requires now >= s.now + duration + ACCESS_TTL
    ensures Dead(Exec(s, after).value.uses[k].minted.value, now)
  {
    var end := Exec(s, after).value;
    RunKeepsInv(s, after);
    EarlyChecksKept(s, after, s.steps, s.now, |s.uses|);
    assert EarlyCheck(end.uses[k].checkedAt, s.steps, s.now);
    assert UseHolds(end, end.uses[k]);
    PastUseDies(end, end.uses[k], now);
  }

  /** A check made in a step before `since` was made no later than `limit`. */
  predicate EarlyCheck(m: Moment, since: nat, limit: Time) {
    m.step < since ==> m.time <= limit
  }

  ghost predicate EarlyChecks(s: System, since: nat, limit: Time, uses: nat) {
    && since <= s.steps && uses <= |s.uses|
    && (forall q | AtStage(s, q) && !s.requests[q].stage.Started? :: EarlyCheck(s.requests[q].stage.at, since, limit))
    && (forall k | uses <= k < |s.uses| :: EarlyCheck(s.uses[k].checkedAt, since, limit))
  }

  lemma {:induction false} EarlyChecksKept(s: System, steps: seq<Step>, since: nat, limit: Time, uses: nat)
    requires Exec(s, steps).Some? && EarlyChecks(s, since, limit, uses)
    ensures EarlyChecks(Exec(s, steps).value, since, limit, uses)
    decreases |steps|
  {
    if steps != [] {
      EarlyChecksStep(s, steps[0], since, limit, uses);
      EarlyChecksKept(Apply(s, steps[0]), steps[1..], since, limit, uses);
    }
  }

  lemma EarlyChecksStep(s: System, step: Step, since: nat, limit: Time, uses: nat)
    requires Enabled(s, step) && EarlyChecks(s, since, limit, uses)
    ensures EarlyChecks(Apply(s, step), since, limit, uses)
  {
    match step {
      case ByUser(u) => EarlyChecksUser(s, u, since, limit, uses);
      case ByUse(u) => EarlyChecksUse(s, u, since, limit, uses);
      case ByLogout(l) =>
    }
  }

  lemma EarlyChecksUser(s: System, step: UserStep, since: nat, limit: Time, uses: nat)
    requires UserEnabled(s, step) && EarlyChecks(s, since, limit, uses)
    ensures EarlyChecks(Apply(s, ByUser(step)), since, limit, uses)
  {
  }

  lemma EarlyChecksUse(s: System, step: UseStep, since: nat, limit: Time, uses: nat)
    requires UseEnabled(s, step) && EarlyChecks(s, since, limit, uses)
    ensures EarlyChecks(Apply(s, ByUse(step)), since, limit, uses)
  {
  }

  ghost predicate Reachable(s: System) {
    exists start, steps :: Initial(start) && Exec(start, steps) == Some(s)
  }

  lemma {:induction false} ExecAppend(s: System, first: seq<Step>, second: seq<Step>)
    requires Exec(s, first).Some?
    ensures Exec(s, first + second) == Exec(Exec(s, first).value, second)
    decreases |first|
  {
    if first == [] {
      assert first + second == second;
    } else {
      assert (first + second)[1..] == first[1..] + second;
      ExecAppend(Apply(s, first[0]), first[1..], second);
    }
  }

  lemma Next(s: System, step: Step) returns (s': System)
    requires Reachable(s) && Enabled(s, step)
    ensures s' == Apply(s, step) && Reachable(s')
  {
    s' := Apply(s, step);
    var start, steps :| Initial(start) && Exec(start, steps) == Some(s);
    ExecAppend(start, steps, [step]);
    assert Exec(s, [step]) == Exec(s', []);
    assert Exec(start, steps + [step]) == Some(s');
  }

  lemma SignedIn(t: Time, resolution: Resolution) returns (s: System, r: Token)
    ensures Reachable(s) && s.now == t && s.blacklist == map[] && s.requests == map[]
    ensures s.users == map[0 := User("a", "p", 1)]
    ensures r == MintRefresh(0, 1, t, t) && s.resolution == resolution
  {
    s := Start(t, resolution);
    assert Initial(s) && Exec(s, []) == Some(s);
    s := Next(s, ByUser(SignUp(0, "a", "p")));
    s := Next(s, ByUser(SignInRead(0, 0, "p")));
    s := Next(s, ByUser(SignInMint(0, 0, 0)));
    r := MintRefresh(0, 1, t, t);
  }

  /** Request 1 exchanges a refresh token and is past its checks while request 2 starts to log the token out. */
  lemma OverlapRefresh(t: Time, resolution: Resolution) returns (s: System, r: Token)
    ensures Reachable(s) && s.now == t && s.blacklist == map[] && Alive(r, t) && r.Refresh?
    ensures 1 in s.requests && s.requests[1].UseToken? && s.requests[1].tok == r && s.requests[1].forRefresh
      && s.requests[1].stage.Found?
    ensures 2 in s.requests && s.requests[2] == LoggingOut(Malformed(""), r, LogoutStarted)
  {
    s, r := SignedIn(t, resolution);
    assert t + REFRESH_TTL == (t / SECOND + 604_800) * SECOND + t % SECOND;
    assert Alive(r, t);
    s := Next(s, ByUse(UseStart(1, r, true)));
    s := Next(s, ByUse(UseCheck(1)));
    s := Next(s, ByUse(UseParse(1)));
    s := Next(s, ByUse(UseFind(1)));
    s := Next(s, ByLogout(LogoutStart(2, Malformed(""), r)));
  }

  /** Request 1 has looked the user up for exchanging `r`. */
  predicate AboutToExchange(s: System, r: Token) {
    r.Refresh? && 1 in s.requests && s.requests[1].UseToken? && s.requests[1].tok == r && s.requests[1].forRefresh
    && s.requests[1].stage.Found?
  }

  /** Request 2 goes through the Logout of `r` while request 1 waits. */
  lemma LogoutMeanwhile(t: Time, resolution: Resolution) returns (s: System, r: Token)
    ensures Reachable(s) && s.now == t && AboutToExchange(s, r) && Revoked(s.blacklist, r, t, s.resolution)
    ensures 2 in s.requests && s.requests[2] == LoggingOut(Malformed(""), r, LogoutDone)
  {
    s, r := OverlapRefresh(t, resolution);
    for k := 0 to 6
      invariant Reachable(s) && s.now == t && Alive(r, t) && AboutToExchange(s, r)
      invariant 2 in s.requests && s.requests[2].LoggingOut? && s.requests[2].access == Malformed("")
        && s.requests[2].refresh == r
      invariant var l := s.requests[2].logout;
        (k == 0 && l.LogoutStarted?) || (k == 1 && l.AccessExpiry?)
        || (k == 2 && l.BothExpiries? && l.refreshExpiresAt == ExpiresAt(r))
        || (k == 3 && l.AccessTtl? && l.refreshExpiresAt == ExpiresAt(r))
        || (k == 4 && l.AccessStored? && l.refreshExpiresAt == ExpiresAt(r))
        || (k == 5 && l.RefreshTtl? && l.ttl == ExpiresAt(r) - t)
        || (k == 6 && l.LogoutDone? && Revoked(s.blacklist, r, t, s.resolution))
    {
      s := Next(s, ByLogout(LogoutNext(2)));
    }
  }

  /**
   Such an overlap does happen: at any time T, a Logout can finish while an exchange of its refresh
   token is past its checks, and the access token of that exchange still validates at T + 15 minutes.
   */
  lemma ExchangeOutlivesLogout(t: Time, resolution: Resolution) returns (s: System, r: Token, access: Token)
    ensures Reachable(s) && 2 in s.requests && s.requests[2] == LoggingOut(Malformed(""), r, LogoutDone)
    ensures s.uses != [] && s.uses[|s.uses| - 1].tok == r && s.uses[|s.uses| - 1].minted == Some(access)
    ensures Revoked(s.blacklist, r, t, s.resolution) && Alive(access, t + ACCESS_TTL)
  {
    s, r := LogoutMeanwhile(t, resolution);
    s := Next(s, ByUser(Tick(SECOND)));
    var email := s.requests[1].stage.email;
    s := Next(s, ByUse(UseFinish(1, 0)));
    access := MintAccess(r.user, email, t + SECOND, t + SECOND);
    AliveAfterLifetime(r.user, email, t + SECOND, t + SECOND, t);
  }

  // ---------------------------------------------------------------- password change

  /** No token in circulation, and no sign-in under way, is ahead of its user's version; no exchange lacks its user. */
  ghost predicate VersionInv(s: System) {
    && (forall tok | tok in s.issued :: NotAhead(s, tok))
    && (forall q | q in s.requests :: VersionHolds(s, s.requests[q]))
  }

  /** What a request has read of its user is still true, except that the version may have grown. */
  ghost predicate VersionHolds(s: System, r: Request) {
    match r
    case SigningIn(user, email, version) =>
      user in s.users && version <= s.users[user].version && email == s.users[user].email
    case UseToken(tok, _, stage) =>
      stage.Found? ==> !tok.Malformed? && tok.user in s.users && stage.email == s.users[tok.user].email
    case _ => true
  }

  lemma VersionsNeverDecrease(s: System, step: Step, id: UserId)
    requires Enabled(s, step) && id in s.users
    ensures id in Apply(s, step).users && s.users[id].version <= Apply(s, step).users[id].version
  {
  }

  lemma VersionUser(s: System, step: UserStep)
    requires VersionInv(s) && UserEnabled(s, step)
    ensures VersionInv(Apply(s, ByUser(step)))
  {
  }

  lemma VersionUse(s: System, step: UseStep)
    requires VersionInv(s) && UseEnabled(s, step)
    ensures VersionInv(Apply(s, ByUse(step)))
  {
  }

  lemma VersionKept(s: System, step: Step)
    requires VersionInv(s) && Enabled(s, step)
    ensures VersionInv(Apply(s, step))
  {
    match step {
      case ByUser(u) => VersionUser(s, u);
      case ByUse(u) => VersionUse(s, u);
      case ByLogout(l) => VersionLogout(s, l);
    }
  }

  lemma VersionLogout(s: System, step: LogoutStep)
    requires VersionInv(s) && LogoutEnabled(s, step)
    ensures VersionInv(Apply(s, ByLogout(step)))
  {
  }

  predicate Stale(tok: Token, id: UserId, version: int) {
    tok.Refresh? && tok.user == id && tok.version < version
  }

  /** Stale tokens are past their user lookup only if the lookup was in a step before `since`. */
  ghost predicate StaleRefused(s: System, id: UserId, version: int, since: nat, uses: nat) {
    && since <= s.steps && id in s.users && version <= s.users[id].version
    && (forall q | AtStage(s, q) && Stale(s.requests[q].tok, id, version) && s.requests[q].stage.Found? ::
          s.requests[q].stage.foundAt.step < since)
    && uses <= |s.uses|
    && (forall k | uses <= k < |s.uses| && Stale(s.uses[k].tok, id, version) :: s.uses[k].foundAt.step < since)
  }

  lemma StaleUser(s: System, step: UserStep, id: UserId, version: int, since: nat, uses: nat)
    requires UserEnabled(s, step) && StaleRefused(s, id, version, since, uses)
    ensures StaleRefused(Apply(s, ByUser(step)), id, version, since, uses)
  {
    VersionsNeverDecrease(s, ByUser(step), id);
  }

  lemma StaleUse(s: System, step: UseStep, id: UserId, version: int, since: nat, uses: nat)
    requires UseEnabled(s, step) && StaleRefused(s, id, version, since, uses)
    ensures StaleRefused(Apply(s, ByUse(step)), id, version, since, uses)
  {
  }

  lemma StaleLogout(s: System, step: LogoutStep, id: UserId, version: int, since: nat, uses: nat)
    requires LogoutEnabled(s, step) && StaleRefused(s, id, version, since, uses)
    ensures StaleRefused(Apply(s, ByLogout(step)), id, version, since, uses)
  {
  }

  lemma {:induction false} StaleForEver(s: System, steps: seq<Step>, id: UserId, version: int, since: nat, uses: nat)
    requires Exec(s, steps).Some? && StaleRefused(s, id, version, since, uses)
    ensures StaleRefused(Exec(s, steps).value, id, version, since, uses)
    decreases |steps|
  {
    if steps != [] {
      match steps[0] {
        case ByUser(u) => StaleUser(s, u, id, version, since, uses);
        case ByUse(u) => StaleUse(s, u, id, version, since, uses);
        case ByLogout(l) => StaleLogout(s, l, id, version, since, uses);
      }
      StaleForEver(Apply(s, steps[0]), steps[1..], id, version, since, uses);
    }
  }

  /**
   A password change revokes every earlier refresh token for ever: those issued before it, and
   those issued after it by a sign-in that had read the user before it. No such token is accepted
   unless its request had looked the user up in one of the steps before the change.
   */
  lemma PasswordChangeRevokes(start: System, before: seq<Step>, q: nat, password: string, after: seq<Step>)
    requires Initial(start) && Exec(start, before).Some?
    requires UserEnabled(Exec(start, before).value, ChangePasswordWrite(q, password))
    requires Exec(Apply(Exec(start, before).value, ByUser(ChangePasswordWrite(q, password))), after).Some?
    ensures var s := Exec(start, before).value;
      var changed := Apply(s, ByUser(ChangePasswordWrite(q, password)));
      var end := Exec(changed, after).value;
      var id := s.requests[q].user;
      && changed.users == s.users[id := User(s.users[id].email, password, s.users[id].version + 1)]
      && (forall p, other | other != password ::
            !UserEnabled(changed, SignInRead(p, id, other)) && !UserEnabled(changed, ChangePasswordRead(p, id, other)))
      && (forall tok | AsMinted(tok) in changed.issued && tok.Refresh? && tok.user == id ::
            Stale(tok, id, changed.users[id].version))
      && (forall p | p in changed.requests && changed.requests[p].SigningIn? && changed.requests[p].user == id ::
            changed.requests[p].version < changed.users[id].version)
      && |changed.uses| <= |end.uses|
      && (forall k | |changed.uses| <= k < |end.uses| && Stale(end.uses[k].tok, id, changed.users[id].version) ::
            end.uses[k].foundAt.step < |before|)
  {
    var s := Exec(start, before).value;
    RunKeepsInv(start, before);
    var changed := Apply(s, ByUser(ChangePasswordWrite(q, password)));
    var id := s.requests[q].user;
    StaleForEver(changed, after, id, changed.users[id].version, s.steps, |changed.uses|);
  }
}
