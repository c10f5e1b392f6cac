/**
 Whether a token can be used again after a given moment: exactly when its blacklist entry does not
 last as long as the token. This is where the resolution of the TTL decides, and the spelling.
 */
module LogoutGap {
  import opened Prelude
  import opened Auth
  import opened AuthRuns

  predicate StartsLogout(step: Step, tok: Token) {
    step.ByLogout? && step.logout.LogoutStart? && tok in {step.logout.access, step.logout.refresh}
  }

  /** Nobody starts to log the token out. */
  predicate LeavesAlone(steps: seq<Step>, tok: Token) {
    forall i | 0 <= i < |steps| :: !StartsLogout(steps[i], tok)
  }

  predicate NoLogoutUnderWay(s: System, tok: Token) {
    forall q | q in s.requests && s.requests[q].LoggingOut? && tok in {s.requests[q].access, s.requests[q].refresh} ::
      s.requests[q].logout.LogoutDone?
  }

  /** The token has expired, its entry lasts until it has, or its version is out of date. */
  predicate Shut(s: System, tok: Token)
    requires !tok.Malformed?
  {
    Dead(tok, s.now) || (tok in s.blacklist && ExpiresAt(tok) <= s.blacklist[tok]) || !UserMatches(s, tok)
  }

  /** In no future in which nobody logs the token out is it accepted with a blacklist check after `s`. */
  ghost predicate NeverUsedAgain(s: System, tok: Token) {
    forall after, k ::
      Exec(s, after).Some? && LeavesAlone(after, tok) && |s.uses| <= k < |Exec(s, after).value.uses|
      && Exec(s, after).value.uses[k].tok == tok ==>
        Exec(s, after).value.uses[k].checkedAt.step < s.steps
  }

  predicate RequestShut(s: System, request: Request, tok: Token, since: nat)
    requires !tok.Malformed?
  {
    request.UseToken? && request.tok == tok ==>
      match request.stage
      case Started => true
      case Checked(at) => at.step < since || Dead(tok, s.now) || !UserMatches(s, tok)
      case Parsed(at) => at.step < since || !UserMatches(s, tok)
      case Found(at, _, _) => at.step < since
  }

  ghost predicate StaysShut(s: System, tok: Token, since: nat, uses: nat) {
    && NotAhead(s, tok) && Shut(s, tok) && NoLogoutUnderWay(s, tok) && since <= s.steps
    && (forall q | q in s.requests :: RequestShut(s, s.requests[q], tok, since))
    && uses <= |s.uses|
    && (forall k | uses <= k < |s.uses| && s.uses[k].tok == tok :: s.uses[k].checkedAt.step < since)
  }

  lemma ShutUser(s: System, step: UserStep, tok: Token, since: nat, uses: nat)
    requires UserEnabled(s, step) && StaysShut(s, tok, since, uses)
    ensures StaysShut(Apply(s, ByUser(step)), tok, since, uses)
  {
    VersionsNeverDecrease(s, ByUser(step), tok.user);
    var s' := Apply(s, ByUser(step));
    forall q | q in s'.requests ensures RequestShut(s', s'.requests[q], tok, since) {
      if q in s.requests { assert RequestShut(s, s.requests[q], tok, since); }
    }
  }

  lemma RequestShutUse(s: System, step: UseStep, tok: Token, since: nat, q: nat)
    requires UseEnabled(s, step) && NotAhead(s, tok) && Shut(s, tok) && since <= s.steps
    requires q in s.requests ==> RequestShut(s, s.requests[q], tok, since)
    requires q in ApplyUse(s, step).requests
    ensures RequestShut(Apply(s, ByUse(step)), ApplyUse(s, step).requests[q], tok, since)
  {
  }

  lemma ShutUse(s: System, step: UseStep, tok: Token, since: nat, uses: nat)
    requires UseEnabled(s, step) && StaysShut(s, tok, since, uses)
    ensures StaysShut(Apply(s, ByUse(step)), tok, since, uses)
  {
    var s' := Apply(s, ByUse(step));
    forall q | q in s'.requests ensures RequestShut(s', s'.requests[q], tok, since) {
      if q in s.requests { assert RequestShut(s, s.requests[q], tok, since); }
      RequestShutUse(s, step, tok, since, q);
    }
    if step.UseFinish? {
      assert RequestShut(s, s.requests[step.q], tok, since);
    }
  }

  lemma ShutLogout(s: System, step: LogoutStep, tok: Token, since: nat, uses: nat)
    requires LogoutEnabled(s, step) && StaysShut(s, tok, since, uses) && !StartsLogout(ByLogout(step), tok)
    ensures StaysShut(Apply(s, ByLogout(step)), tok, since, uses)
  {
    var s' := Apply(s, ByLogout(step));
    forall q | q in s'.requests ensures RequestShut(s', s'.requests[q], tok, since) {
      if q in s.requests { assert RequestShut(s, s.requests[q], tok, since); }
    }
  }

  lemma {:induction false} ShutForEver(s: System, steps: seq<Step>, tok: Token, since: nat, uses: nat)
    requires Exec(s, steps).Some? && LeavesAlone(steps, tok) && StaysShut(s, tok, since, uses)
    ensures StaysShut(Exec(s, steps).value, tok, since, uses)
    decreases |steps|
  {
    if steps != [] {
      match steps[0] {
        case ByUser(u) => ShutUser(s, u, tok, since, uses);
        case ByUse(u) => ShutUse(s, u, tok, since, uses);
        case ByLogout(l) => ShutLogout(s, l, tok, since, uses);
      }
      ShutForEver(Apply(s, steps[0]), steps[1..], tok, since, uses);
    }
  }

  /** A request that checks the token now, and parses it and looks its user up at once. */
  lemma UsedNow(s: System, tok: Token, q: nat) returns (steps: seq<Step>)
    requires Alive(tok, s.now) && !Blacklisted(s.blacklist, tok, s.now) && UserMatches(s, tok) && q !in s.requests
    ensures Exec(s, steps).Some? && forall i | 0 <= i < |steps| :: steps[i].ByUse?
    ensures var uses := Exec(s, steps).value.uses;
      |uses| == |s.uses| + 1 && uses[|s.uses|].tok == tok && uses[|s.uses|].checkedAt.step >= s.steps
      && (uses[|s.uses|].minted.Some? <==> tok.Refresh?)
  {
    var s1 := Apply(s, ByUse(UseStart(q, tok, tok.Refresh?)));
    var s2 := Apply(s1, ByUse(UseCheck(q)));
    var s3 := Apply(s2, ByUse(UseParse(q)));
    var s4 := Apply(s3, ByUse(UseFind(q)));
    steps := Prepend(s4, ByUse(UseFinish(q, 0)), []);
    steps := Prepend(s3, ByUse(UseFind(q)), steps);
    steps := Prepend(s2, ByUse(UseParse(q)), steps);
    steps := Prepend(s1, ByUse(UseCheck(q)), steps);
    steps := Prepend(s, ByUse(UseStart(q, tok, tok.Refresh?)), steps);
  }

  /** A token that is not shut is used again as soon as its entry has lapsed. */
  lemma UsedAgain(s: System, tok: Token) returns (after: seq<Step>)
    requires !tok.Malformed? && !Shut(s, tok)
    ensures Exec(s, after).Some? && LeavesAlone(after, tok)
    ensures var uses := Exec(s, after).value.uses;
      |uses| == |s.uses| + 1 && uses[|s.uses|].tok == tok && uses[|s.uses|].checkedAt.step >= s.steps
  {
    var q := UpperBound(s.requests.Keys);
    var wait: nat := if tok in s.blacklist then Max(0, s.blacklist[tok] - s.now) else 0;
    var rest := UsedNow(Apply(s, ByUser(Tick(wait))), tok, q);
    after := Prepend(s, ByUser(Tick(wait)), rest);
  }

  lemma Prepend(s: System, step: Step, rest: seq<Step>) returns (steps: seq<Step>)
    requires Enabled(s, step)
    ensures steps == [step] + rest && Exec(s, steps) == Exec(Apply(s, step), rest)
  {
    steps := [step] + rest;
    assert steps[1..] == rest;
  }

  /**
   In every reachable state, for every token issued here, in whatever spelling, that nobody is
   logging out: it is never used again if and only if it has expired, its own entry lasts until it
   has, or its version is out of date.
   */
  lemma NeverUsedAgainExactlyWhen(start: System, before: seq<Step>, tok: Token)
    requires Initial(start) && Exec(start, before).Some?
    requires var s := Exec(start, before).value;
      !tok.Malformed? && AsMinted(tok) in s.issued && NoLogoutUnderWay(s, tok)
    ensures var s := Exec(start, before).value; NeverUsedAgain(s, tok) <==> Shut(s, tok)
  {
    var s := Exec(start, before).value;
    RunKeepsInv(start, before);
    if Shut(s, tok) {
      assert NotAhead(s, AsMinted(tok));
      forall q | q in s.requests ensures RequestShut(s, s.requests[q], tok, s.steps) {
        assert TimesHold(s, s.requests[q]);
      }
      forall after, k |
        Exec(s, after).Some? && LeavesAlone(after, tok) && |s.uses| <= k < |Exec(s, after).value.uses|
        && Exec(s, after).value.uses[k].tok == tok
        ensures Exec(s, after).value.uses[k].checkedAt.step < s.steps
      {
        ShutForEver(s, after, tok, s.steps, |s.uses|);
      }
    } else {
      var after := UsedAgain(s, tok);
      assert !(Exec(s, after).value.uses[|s.uses|].checkedAt.step < s.steps);
    }
  }

  // ---------------------------------------------------------------- a session lasts

  /** Nobody has ever begun to log the token out. */
  predicate Untouched(s: System, tok: Token) {
    tok !in s.blacklist
    && forall q | q in s.requests && s.requests[q].LoggingOut? :: tok !in {s.requests[q].access, s.requests[q].refresh}
  }

  lemma UntouchedKept(s: System, step: Step, tok: Token)
    requires Enabled(s, step) && Untouched(s, tok) && !StartsLogout(step, tok)
    ensures Untouched(Apply(s, step), tok)
  {
    match step {
      case ByUser(u) => UntouchedUser(s, u, tok);
      case ByUse(u) => UntouchedUse(s, u, tok);
      case ByLogout(l) => UntouchedLogout(s, l, tok);
    }
  }

  lemma UntouchedUser(s: System, step: UserStep, tok: Token)
    requires UserEnabled(s, step) && Untouched(s, tok)
    ensures Untouched(Apply(s, ByUser(step)), tok)
  {
  }

  lemma UntouchedUse(s: System, step: UseStep, tok: Token)
    requires UseEnabled(s, step) && Untouched(s, tok)
    ensures Untouched(Apply(s, ByUse(step)), tok)
  {
  }

  lemma UntouchedLogout(s: System, step: LogoutStep, tok: Token)
    requires LogoutEnabled(s, step) && Untouched(s, tok) && !StartsLogout(ByLogout(step), tok)
    ensures Untouched(Apply(s, ByLogout(step)), tok)
  {
  }

  lemma {:induction false} StaysUntouched(s: System, steps: seq<Step>, tok: Token)
    requires Exec(s, steps).Some? && Untouched(s, tok) && LeavesAlone(steps, tok)
    ensures Untouched(Exec(s, steps).value, tok)
    decreases |steps|
  {
    if steps != [] {
      UntouchedKept(s, steps[0], tok);
      StaysUntouched(Apply(s, steps[0]), steps[1..], tok);
    }
  }

  /** A token that nobody logs out is accepted as long as it is alive and its user matches. */
  lemma TokenLasts(start: System, steps: seq<Step>, tok: Token) returns (finish: seq<Step>)
    requires Initial(start) && Exec(start, steps).Some? && LeavesAlone(steps, tok)
    requires var s := Exec(start, steps).value; Alive(tok, s.now) && UserMatches(s, tok)
    ensures var s := Exec(start, steps).value;
      && Exec(s, finish).Some?
      && var uses := Exec(s, finish).value.uses;
         |uses| == |s.uses| + 1 && uses[|s.uses|].tok == tok && (uses[|s.uses|].minted.Some? <==> tok.Refresh?)
  {
    var s := Exec(start, steps).value;
    StaysUntouched(start, steps, tok);
    var q := UpperBound(s.requests.Keys);
    finish := UsedNow(s, tok, q);
  }

  /** One of the two tokens of a sign-in that reads the clock at `accessAt`, `refreshAt` and `endAt`. */
  function SessionToken(r: Request, forRefresh: bool, accessAt: Time, refreshAt: Time, endAt: Time): Token
    requires r.SigningIn?
  {
    if forRefresh then
      Refresh(r.user, r.version, (refreshAt + 604_800 * 1_000_000_000) / 1_000_000_000, endAt / 1_000_000_000, 0)
    else
      Access(r.user, r.email, (accessAt + 900 * 1_000_000_000) / 1_000_000_000, refreshAt / 1_000_000_000, 0)
  }

  lemma SessionStarts(s: System, q: nat, accessRead: nat, refreshRead: nat, forRefresh: bool, tok: Token, now: Time)
    requires UserEnabled(s, SignInMint(q, accessRead, refreshRead)) && VersionInv(s)
    requires tok == SessionToken(s.requests[q], forRefresh, s.now, s.now + accessRead, s.now + accessRead + refreshRead)
    requires now <= s.now + if forRefresh then accessRead + 604_799 * 1_000_000_000 else 899 * 1_000_000_000
    ensures var signed := Apply(s, ByUser(SignInMint(q, accessRead, refreshRead)));
      tok in signed.issued && Alive(tok, now) && tok.user in signed.users
  {
    var r := s.requests[q];
    var minted := s.now + accessRead;
    assert VersionHolds(s, r);
    RefreshTokenLifetime(r.user, r.version, minted, minted + refreshRead, now);
    AccessTokenLifetime(r.user, r.email, s.now, minted, now);
  }

  /**
   The tokens of a sign-in serve their time: while nobody logs it out, the access token validates
   up to a second before fifteen minutes have passed, and the refresh token is exchanged up to a
   second before seven days have, as long as the version of the user is still the one it was read with.
   */
  lemma SessionLasts(start: System, before: seq<Step>, q: nat, accessRead: nat, refreshRead: nat, after: seq<Step>,
                     forRefresh: bool, tok: Token) returns (finish: seq<Step>)
    requires Initial(start) && Exec(start, before).Some?
    requires var s := Exec(start, before).value;
      && UserEnabled(s, SignInMint(q, accessRead, refreshRead))
      && tok == SessionToken(s.requests[q], forRefresh, s.now, s.now + accessRead, s.now + accessRead + refreshRead)
    requires Exec(Apply(Exec(start, before).value, ByUser(SignInMint(q, accessRead, refreshRead))), after).Some?
    requires LeavesAlone(before + after, tok)
    requires var s := Exec(start, before).value;
      var end := Exec(Apply(s, ByUser(SignInMint(q, accessRead, refreshRead))), after).value;
      && (forRefresh ==> tok.user in end.users && end.users[tok.user].version == tok.version)
      && end.now <= s.now + if forRefresh then accessRead + 604_799 * 1_000_000_000 else 899 * 1_000_000_000
    ensures var signed := Apply(Exec(start, before).value, ByUser(SignInMint(q, accessRead, refreshRead)));
      var end := Exec(signed, after).value;
      && tok in signed.issued
      && Exec(end, finish).Some?
      && var uses := Exec(end, finish).value.uses;
         |uses| == |end.uses| + 1 && uses[|end.uses|].tok == tok && (uses[|end.uses|].minted.Some? <==> forRefresh)
  {
    var s := Exec(start, before).value;
    var step := ByUser(SignInMint(q, accessRead, refreshRead));
    var signed := Apply(s, step);
    RunKeepsInv(start, before);
    var end := Exec(signed, after).value;
    SessionStarts(s, q, accessRead, refreshRead, forRefresh, tok, end.now);
    UsersStay(signed, after, tok.user);
    JoinedRun(start, before, step, after);
    JoinedAlone(before, step, after, tok);
    var whole := before + [step] + after;
    assert Exec(start, whole) == Some(end);
    assert UserMatches(end, tok);
    finish := TokenLasts(start, whole, tok);
  }

  predicate ChangesPassword(s: System, step: Step, id: UserId) {
    step.ByUser? && step.user.ChangePasswordWrite? && step.user.q in s.requests
    && s.requests[step.user.q].ChangingPassword? && s.requests[step.user.q].user == id
  }

  /** Nobody changes the password of the user in this run. */
  ghost predicate KeepsPassword(s: System, steps: seq<Step>, id: UserId)
    requires Exec(s, steps).Some?
    decreases |steps|
  {
    steps == [] || (!ChangesPassword(s, steps[0], id) && KeepsPassword(Apply(s, steps[0]), steps[1..], id))
  }

  lemma {:induction false} VersionStays(s: System, steps: seq<Step>, id: UserId)
    requires Exec(s, steps).Some? && KeepsPassword(s, steps, id) && id in s.users
    ensures id in Exec(s, steps).value.users && Exec(s, steps).value.users[id] == s.users[id]
    decreases |steps|
  {
    if steps != [] {
      UserStays(s, steps[0], id);
      VersionStays(Apply(s, steps[0]), steps[1..], id);
    }
  }

  lemma UserStays(s: System, step: Step, id: UserId)
    requires Enabled(s, step) && !ChangesPassword(s, step, id) && id in s.users
    ensures id in Apply(s, step).users && Apply(s, step).users[id] == s.users[id]
  {
  }

  /**
   From the sign-in on: with the password, a user signs in and gets tokens that serve their time, if
   nobody logs them out and, for the refresh token, nobody changes the password meanwhile.
   */
  lemma SignInServes(start: System, before: seq<Step>, q: nat, id: UserId, password: string, between: seq<Step>,
                     accessRead: nat, refreshRead: nat, after: seq<Step>, forRefresh: bool, tok: Token)
    returns (finish: seq<Step>)
    requires Initial(start) && Exec(start, before).Some?
    requires q !in Exec(start, before).value.requests && id in Exec(start, before).value.users
      && Exec(start, before).value.users[id].password == password
    requires var read := Apply(Exec(start, before).value, ByUser(SignInRead(q, id, password)));
      && Exec(read, between).Some?
      && q in Exec(read, between).value.requests && Exec(read, between).value.requests[q] == read.requests[q]
      && KeepsPassword(read, between, id)
    requires var read := Apply(Exec(start, before).value, ByUser(SignInRead(q, id, password)));
      var mid := Exec(read, between).value;
      var user := Exec(start, before).value.users[id];
      && UserEnabled(mid, SignInMint(q, accessRead, refreshRead))
      && tok == SessionToken(SigningIn(id, user.email, user.version), forRefresh,
                             mid.now, mid.now + accessRead, mid.now + accessRead + refreshRead)
      && var signed := Apply(mid, ByUser(SignInMint(q, accessRead, refreshRead)));
         && Exec(signed, after).Some? && KeepsPassword(signed, after, id)
         && Exec(signed, after).value.now
            <= mid.now + if forRefresh then accessRead + 604_799 * 1_000_000_000 else 899 * 1_000_000_000
    requires LeavesAlone(before + between + after, tok)
    ensures var read := Apply(Exec(start, before).value, ByUser(SignInRead(q, id, password)));
      var signed := Apply(Exec(read, between).value, ByUser(SignInMint(q, accessRead, refreshRead)));
      var end := Exec(signed, after).value;
      && tok in signed.issued && Exec(end, finish).Some?
      && var uses := Exec(end, finish).value.uses;
         |uses| == |end.uses| + 1 && uses[|end.uses|].tok == tok && (uses[|end.uses|].minted.Some? <==> forRefresh)
  {
    var s := Exec(start, before).value;
    var step := ByUser(SignInRead(q, id, password));
    var read := Apply(s, step);
    var mid := Exec(read, between).value;
    var signed := Apply(mid, ByUser(SignInMint(q, accessRead, refreshRead)));
    JoinedRun(start, before, step, between);
    VersionStays(read, between, id);
    UserStays(mid, ByUser(SignInMint(q, accessRead, refreshRead)), id);
    VersionStays(signed, after, id);
    AloneInParts(before, step, between, after, tok);
    finish := SessionLasts(start, before + [step] + between, q, accessRead, refreshRead, after, forRefresh, tok);
  }

  lemma AloneInParts(before: seq<Step>, step: Step, between: seq<Step>, after: seq<Step>, tok: Token)
    requires LeavesAlone(before + between + after, tok) && !StartsLogout(step, tok)
    ensures LeavesAlone((before + [step] + between) + after, tok)
  {
    var rest := between + after;
    assert before + between + after == before + rest;
    JoinedAlone(before, step, rest, tok);
    assert (before + [step] + between) + after == before + [step] + rest;
  }

  lemma JoinedAlone(before: seq<Step>, step: Step, after: seq<Step>, tok: Token)
    requires LeavesAlone(before + after, tok) && !StartsLogout(step, tok)
    ensures LeavesAlone(before + [step] + after, tok)
  {
    var whole := before + [step] + after;
    forall i | 0 <= i < |whole| ensures !StartsLogout(whole[i], tok) {
      if i < |before| {
        assert !StartsLogout((before + after)[i], tok);
      } else if i > |before| {
        assert !StartsLogout((before + after)[i - 1], tok);
      }
    }
  }

  lemma JoinedRun(start: System, before: seq<Step>, step: Step, after: seq<Step>)
    requires Exec(start, before).Some? && Enabled(Exec(start, before).value, step)
    ensures Exec(start, before + [step] + after) == Exec(Apply(Exec(start, before).value, step), after)
  {
    var s := Exec(start, before).value;
    ExecAppend(start, before, [step] + after);
    assert before + [step] + after == before + ([step] + after);
    assert ([step] + after)[1..] == after;
  }

  lemma {:induction false} UsersStay(s: System, steps: seq<Step>, id: UserId)
    requires Exec(s, steps).Some? && id in s.users
    ensures id in Exec(s, steps).value.users
    decreases |steps|
  {
    if steps != [] {
      EmailsKept(s, steps[0], id);
      UsersStay(Apply(s, steps[0]), steps[1..], id);
    }
  }
}
