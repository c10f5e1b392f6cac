/**
 The auth service: signed tokens with an expiry, a blacklist with a TTL per entry, and a version
 counter per user. A token is the datatype of its claims, because the signature is a function of
 them, and the way it is spelled: a decoder that is not strict takes several strings for the same
 signature, and the blacklist is keyed by the string. `Malformed` is any string that is not signed
 by this service. Times are in nanoseconds.
 */
module Auth {
  import opened Prelude

  type UserId = nat
  type Time = int

  /** The step in which the store counts a TTL. The client sends whole milliseconds: 1_000_000. */
  type Resolution = x: int | x >= 1 witness 1

  const SECOND: int := 1_000_000_000
  const ACCESS_TTL: int := 900 * SECOND
  const REFRESH_TTL: int := 604_800 * SECOND

  /** Spelling 0 is the one the service makes. */
  datatype Token =
    | Access(user: UserId, email: string, exp: int, iat: int, spelling: nat)
    | Refresh(user: UserId, version: int, exp: int, iat: int, spelling: nat)
    | Malformed(text: string)

  datatype User = User(email: string, password: string, version: int)

  function Unix(t: Time): int {
    t / SECOND
  }

  /** The instant from which the token is refused (section 4.1.4 of RFC 7519). */
  function ExpiresAt(tok: Token): Time
    requires !tok.Malformed?
  {
    tok.exp * SECOND
  }

  /** `jwt.Parse` accepts the token at this time. */
  predicate Alive(tok: Token, now: Time) {
    !tok.Malformed? && now < ExpiresAt(tok)
  }

  function MintAccess(user: UserId, email: string, expRead: Time, iatRead: Time): Token {
    Access(user, email, Unix(expRead + ACCESS_TTL), Unix(iatRead), 0)
  }

  function MintRefresh(user: UserId, version: int, expRead: Time, iatRead: Time): Token {
    Refresh(user, version, Unix(expRead + REFRESH_TTL), Unix(iatRead), 0)
  }

  /** The same claims as the service spells them. */
  function AsMinted(tok: Token): Token {
    if tok.Malformed? then tok else tok.(spelling := 0)
  }

  /** `getTokenExpiration`, or the fallback of `Logout` when it fails. */
  function LogoutExpiry(tok: Token, ttl: int, now: Time): Time {
    if Alive(tok, now) then ExpiresAt(tok) else now + ttl
  }

  /** Blacklist entries and the instants at which they lapse. */
  type Blacklist = map<Token, Time>

  predicate Blacklisted(blacklist: Blacklist, tok: Token, now: Time) {
    tok in blacklist && now < blacklist[tok]
  }

  /** A TTL as it is sent: cut to whole steps, but never to nothing. */
  function Sent(ttl: int, resolution: Resolution): (sent: int)
    requires ttl > 0
    ensures sent > 0 && ttl - sent < resolution && (sent <= ttl || sent == resolution)
    ensures resolution == 1 ==> sent == ttl
  {
    Max(resolution, ttl - ttl % resolution)
  }

  /** `Set` with a TTL, executed by the store at `now`; `AddToken` sends it only for a positive TTL. */
  function SetEntry(blacklist: Blacklist, tok: Token, ttl: int, now: Time, resolution: Resolution): Blacklist {
    if ttl <= 0 then blacklist else blacklist[tok := now + Sent(ttl, resolution)]
  }

  predicate Dead(tok: Token, now: Time) {
    !Alive(tok, now)
  }

  /** The token is dead, or in the last step of its life: with resolution 1 this is the same as dead. */
  predicate Closing(tok: Token, now: Time, resolution: Resolution) {
    tok.Malformed? || ExpiresAt(tok) - resolution < now
  }

  /** The token is closing, or blacklisted until it is. */
  predicate Revoked(blacklist: Blacklist, tok: Token, now: Time, resolution: Resolution) {
    Closing(tok, now, resolution) || (tok in blacklist && ExpiresAt(tok) - resolution < blacklist[tok])
  }

  /** A revoked token is refused: passing the blacklist check means it is closing, or dead when the store is exact. */
  lemma RevokedIsRefused(blacklist: Blacklist, tok: Token, check: Time, parse: Time, resolution: Resolution)
    requires Revoked(blacklist, tok, check, resolution) && !Blacklisted(blacklist, tok, check) && check <= parse
    ensures Closing(tok, check, resolution)
    ensures resolution == 1 ==> Dead(tok, parse)
  {
  }

  /** The entry a Logout makes revokes its token, although the clock is read three times on the way. */
  lemma EntryRevokes(blacklist: Blacklist, tok: Token, fallback: int, parse: Time, until: Time, setAt: Time,
                     resolution: Resolution)
    requires parse <= until <= setAt
    ensures
      Revoked(SetEntry(blacklist, tok, LogoutExpiry(tok, fallback, parse) - until, setAt, resolution),
        tok, setAt, resolution)
  {
  }

  /** An entry is for one spelling: what it does to the others is nothing. */
  lemma OnlyThatSpelling(blacklist: Blacklist, tok: Token, other: Token, ttl: int, now: Time, resolution: Resolution)
    requires other != tok
    ensures Revoked(SetEntry(blacklist, tok, ttl, now, resolution), other, now, resolution)
      <==> Revoked(blacklist, other, now, resolution)
  {
  }

  /**
   The entry lasts as long as its token if and only if the store got the command late enough to
   make up for what was cut off its TTL; otherwise the token has a gap before it expires.
   */
  lemma EntryCoversExactlyWhen(tok: Token, until: Time, setAt: Time, resolution: Resolution)
    requires Alive(tok, until) && until <= setAt
    ensures var ttl := ExpiresAt(tok) - until;
      tok.exp * 1_000_000_000 <= SetEntry(map[], tok, ttl, setAt, resolution)[tok] <==>
        ttl < resolution || ttl % resolution <= setAt - until
  {
    var ttl := ExpiresAt(tok) - until;
    if ttl < resolution {
      assert Sent(ttl, resolution) >= resolution;
    } else {
      assert ttl - ttl % resolution >= resolution by { WholeSteps(ttl, resolution); }
    }
  }

  lemma WholeSteps(ttl: int, resolution: Resolution)
    requires ttl >= resolution
    ensures ttl - ttl % resolution >= resolution
  {
    var k := ttl / resolution;
    assert ttl == k * resolution + ttl % resolution;
    ScaleUp(1, k, resolution);
  }

  /** The entry for a live token lasts no longer than the token, but for the time until it is set and one step. */
  lemma EntryLength(blacklist: Blacklist, tok: Token, fallback: int, parse: Time, until: Time, setAt: Time,
                    resolution: Resolution)
    requires Alive(tok, parse) && parse <= until <= setAt && until < tok.exp * 1_000_000_000
    ensures var after := SetEntry(blacklist, tok, LogoutExpiry(tok, fallback, parse) - until, setAt, resolution);
      tok in after && after[tok] - (setAt - until) < tok.exp * 1_000_000_000 + resolution
  {
  }

  /** An access token is dead once fifteen minutes have passed since the clock was read for it. */
  lemma AccessTokenLifetime(user: UserId, email: string, expRead: Time, iatRead: Time, now: Time)
    ensures now >= expRead + 900 * 1_000_000_000 ==> Dead(MintAccess(user, email, expRead, iatRead), now)
    ensures now <= expRead + 899 * 1_000_000_000 ==> Alive(MintAccess(user, email, expRead, iatRead), now)
  {
    var t := expRead + ACCESS_TTL;
    assert t == (t / SECOND) * SECOND + t % SECOND;
  }

  /** A refresh token is dead once seven days have passed since the clock was read for it, and not a second before. */
  lemma RefreshTokenLifetime(user: UserId, version: int, expRead: Time, iatRead: Time, now: Time)
    ensures now >= expRead + 604_800 * 1_000_000_000 ==> Dead(MintRefresh(user, version, expRead, iatRead), now)
    ensures now <= expRead + 604_799 * 1_000_000_000 ==> Alive(MintRefresh(user, version, expRead, iatRead), now)
  {
    var t := expRead + REFRESH_TTL;
    assert t == (t / SECOND) * SECOND + t % SECOND;
  }

  /** Exactly the tokens minted in a later second than `t` are still alive ACCESS_TTL after `t`. */
  lemma AliveAfterLifetime(user: UserId, email: string, expRead: Time, iatRead: Time, t: Time)
    ensures Alive(MintAccess(user, email, expRead, iatRead), t + ACCESS_TTL) <==> Unix(t) < Unix(expRead)
  {
    assert expRead + ACCESS_TTL == (Unix(expRead) + 900) * SECOND + expRead % SECOND;
    assert t == Unix(t) * SECOND + t % SECOND;
  }

  /** Signing in twice within a second gives the same access token, so logging one out revokes both. */
  lemma SameSecondSameToken(user: UserId, email: string, t1: Time, t2: Time)
    ensures MintAccess(user, email, t1, t1) == MintAccess(user, email, t2, t2) <==> Unix(t1) == Unix(t2)
  {
  }

  class BlacklistRepo {
    const resolution: Resolution
    var entries: Blacklist

    constructor (resolution: Resolution)
      ensures this.resolution == resolution && entries == map[]
    {
      this.resolution := resolution;
      entries := map[];
    }

    /** `until` is when the TTL is computed, `setAt` when the store executes the command, if it does. */
    method AddToken(tok: Token, expiresAt: Time, until: Time, setAt: Time, fails: bool) returns (ok: bool)
      modifies this
      ensures ok <==> !fails || expiresAt <= until
      ensures entries == if ok then old(SetEntry(entries, tok, expiresAt - until, setAt, resolution)) else old(entries)
    {
      var ttl := expiresAt - until;
      if ttl <= 0 {
        return true;
      }
      if fails {
        return false;
      }
      entries := entries[tok := setAt + Sent(ttl, resolution)];
      ok := true;
    }

    /** None is a store that does not answer. */
    method IsTokenBlacklisted(tok: Token, now: Time, fails: bool) returns (found: Option<bool>)
      ensures found == if fails then None else Some(Blacklisted(entries, tok, now))
    {
      if fails {
        return None;
      }
      found := Some(tok in entries && now < entries[tok]);
    }
  }

  /** Every call takes a flag: whether the database fails it. */
  class UserRepo {
    var users: map<UserId, User>

    /** The primary key and the unique index on the email address. */
    ghost predicate Valid()
      reads this
    {
      forall a, b | a in users && b in users && users[a].email == users[b].email :: a == b
    }

    constructor ()
      ensures Valid() && users == map[]
    {
      users := map[];
    }

    method Create(id: UserId, email: string, password: string, fails: bool) returns (ok: bool)
      requires Valid()
      modifies this
      ensures Valid()
      ensures ok <==> !fails && old(id !in users && forall u | u in users :: users[u].email != email)
      ensures users == if ok then old(users)[id := User(email, password, 1)] else old(users)
    {
      if fails || id in users || exists u | u in users :: users[u].email == email {
        return false;
      }
      users := users[id := User(email, password, 1)];
      ok := true;
    }

    method FindById(id: UserId, fails: bool) returns (user: Option<User>)
      ensures user == if id in users && !fails then Some(users[id]) else None
    {
      user := if id in users && !fails then Some(users[id]) else None;
    }

    /** An UPDATE that matches no row is not an error. */
    method UpdatePassword(id: UserId, password: string, fails: bool) returns (ok: bool)
      requires Valid()
      modifies this
      ensures Valid() && ok == !fails
      ensures users == if ok && id in old(users)
        then old(users)[id := User(old(users)[id].email, password, old(users)[id].version + 1)] else old(users)
    {
      ok := !fails;
      if ok && id in users {
        users := users[id := User(users[id].email, password, users[id].version + 1)];
      }
    }

    method IncrementVersion(id: UserId, fails: bool) returns (ok: bool)
      requires Valid()
      modifies this
      ensures Valid() && ok == !fails
      ensures users == if ok && id in old(users)
        then old(users)[id := old(users)[id].(version := old(users)[id].version + 1)] else old(users)
    {
      ok := !fails;
      if ok && id in users {
        users := users[id := users[id].(version := users[id].version + 1)];
      }
    }
  }

  /**
   The service. Every call is given the clock readings it makes, in the order it makes them, and
   which of its accesses to the two stores fail.
   */
  class AuthService {
    const userRepo: UserRepo
    const blacklistRepo: BlacklistRepo

    constructor (userRepo: UserRepo, blacklistRepo: BlacklistRepo)
      ensures this.userRepo == userRepo && this.blacklistRepo == blacklistRepo
    {
      this.userRepo := userRepo;
      this.blacklistRepo := blacklistRepo;
    }

    /** `ValidateToken`: the user, exactly when the token is an unrevoked access token of a known user. */
    method ValidateToken(tok: Token, check: Time, parse: Time, checkFails: bool, findFails: bool)
      returns (user: Option<User>)
      requires check <= parse
      ensures user.Some? <==> (!checkFails && !findFails
                               && !Blacklisted(blacklistRepo.entries, tok, check) && Alive(tok, parse) && tok.Access?
                               && tok.user in userRepo.users)
      ensures user.Some? ==> user.value == userRepo.users[tok.user]
      ensures user.Some? && Revoked(blacklistRepo.entries, tok, check, blacklistRepo.resolution) ==>
        Closing(tok, check, blacklistRepo.resolution)
    {
      var revoked := blacklistRepo.IsTokenBlacklisted(tok, check, checkFails);
      if revoked != Some(false) || !Alive(tok, parse) || !tok.Access? {
        return None;
      }
      user := userRepo.FindById(tok.user, findFails);
    }

    /** `RefreshToken`: a new access token, exactly when the version in the token is the user's. */
    method RefreshToken(tok: Token, check: Time, parse: Time, expRead: Time, iatRead: Time,
                        checkFails: bool, findFails: bool)
      returns (access: Option<Token>)
      requires check <= parse <= expRead <= iatRead
      ensures access.Some? <==> (!checkFails && !findFails
                                 && !Blacklisted(blacklistRepo.entries, tok, check) && Alive(tok, parse) && tok.Refresh?
                                 && tok.user in userRepo.users && userRepo.users[tok.user].version == tok.version)
      ensures access.Some? ==> access.value == MintAccess(tok.user, userRepo.users[tok.user].email, expRead, iatRead)
      ensures access.Some? ==> access.value == Access(
        tok.user, userRepo.users[tok.user].email, (expRead + 900 * 1_000_000_000) / 1_000_000_000,
        iatRead / 1_000_000_000, 0)
      ensures access.Some? && Revoked(blacklistRepo.entries, tok, check, blacklistRepo.resolution) ==>
        Closing(tok, check, blacklistRepo.resolution)
    {
      var revoked := blacklistRepo.IsTokenBlacklisted(tok, check, checkFails);
      if revoked != Some(false) || !Alive(tok, parse) || !tok.Refresh? {
        return None;
      }
      var user := userRepo.FindById(tok.user, findFails);
      if user.None? || user.value.version != tok.version {
        return None;
      }
      access := Some(MintAccess(tok.user, user.value.email, expRead, iatRead));
    }

    /** `Logout`: when it succeeds, both tokens are revoked from its last clock reading on;
        a revoked token stays so anyway. */
    method Logout(access: Token, refresh: Token, t1: Time, t2: Time, t3: Time, t4: Time, t5: Time, t6: Time,
                  accessFails: bool, refreshFails: bool)
      returns (ok: bool)
      requires t1 <= t2 <= t3 <= t4 <= t5 <= t6
      modifies blacklistRepo
      ensures ok ==>
        Revoked(blacklistRepo.entries, access, t6, blacklistRepo.resolution)
        && Revoked(blacklistRepo.entries, refresh, t6, blacklistRepo.resolution)
      ensures forall tok | Revoked(old(blacklistRepo.entries), tok, t1, blacklistRepo.resolution) ::
        Revoked(blacklistRepo.entries, tok, t6, blacklistRepo.resolution)
      ensures var accessTtl, refreshTtl :=
          LogoutExpiry(access, ACCESS_TTL, t1) - t3, LogoutExpiry(refresh, REFRESH_TTL, t2) - t5;
        var first := if accessFails then old(blacklistRepo.entries)
          else SetEntry(old(blacklistRepo.entries), access, accessTtl, t4, blacklistRepo.resolution);
        && (ok <==> (!accessFails || accessTtl <= 0) && (!refreshFails || refreshTtl <= 0))
        && blacklistRepo.entries ==
             if ok && !refreshFails then SetEntry(first, refresh, refreshTtl, t6, blacklistRepo.resolution) else first
    {
      var accessExpiresAt := LogoutExpiry(access, ACCESS_TTL, t1);
      var refreshExpiresAt := LogoutExpiry(refresh, REFRESH_TTL, t2);
      EntryRevokes(blacklistRepo.entries, access, ACCESS_TTL, t1, t3, t4, blacklistRepo.resolution);
      ok := blacklistRepo.AddToken(access, accessExpiresAt, t3, t4, accessFails);
      if !ok {
        return;
      }
      EntryRevokes(blacklistRepo.entries, refresh, REFRESH_TTL, t2, t5, t6, blacklistRepo.resolution);
      ok := blacklistRepo.AddToken(refresh, refreshExpiresAt, t5, t6, refreshFails);
    }

    /** `ChangePassword` with nothing in between: the version goes up by one, and only this user changes. */
    method ChangePassword(id: UserId, oldPassword: string, newPassword: string, findFails: bool, updateFails: bool)
      returns (ok: bool)
      requires userRepo.Valid()
      modifies userRepo
      ensures userRepo.Valid()
      ensures ok <==>
        !findFails && !updateFails && id in old(userRepo.users) && old(userRepo.users)[id].password == oldPassword
      ensures userRepo.users == if ok
        then old(userRepo.users)[id :=
          User(old(userRepo.users)[id].email, newPassword, old(userRepo.users)[id].version + 1)]
        else old(userRepo.users)
    {
      var user := userRepo.FindById(id, findFails);
      if user.None? || user.value.password != oldPassword {
        return false;
      }
      ok := userRepo.UpdatePassword(id, newPassword, updateFails);
    }
  }
}
