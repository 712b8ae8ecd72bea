/** The authentication service over mutable tables: login with lockout, and the refresh-token operations. */
module AuthService {
  import opened Common
  import L = Lockout
  import T = RefreshTokens

  /** What the second factor asks of an account and what the request brought along. */
  datatype SecondFactor = SecondFactor(admin: bool, skipEnrollment: bool, enabled: bool, code: Option<bool>)

  /** Administrators must have a second factor (unless demo logins skip enrolment); others use it if they enabled it. */
  predicate Passes(f: SecondFactor) {
    if f.enabled then f.code == Some(true) else !f.admin || f.skipEnrollment
  }

  /** A second factor that is enabled must be right; without one, administrators need the demo exemption to get in. */
  lemma {:induction false} FactorExactly(f: SecondFactor)
    ensures f.enabled ==> (Passes(f) <==> f.code == Some(true))
    ensures !f.enabled && f.admin ==> (Passes(f) <==> f.skipEnrollment)
    ensures !f.enabled && !f.admin ==> Passes(f)
  {
  }

  datatype LoginResult = UnknownUser | AccountLocked | Suspended | WrongPassword(locked: bool) | FactorRequired
      | WrongCode | LoggedIn(token: Id)

  datatype RefreshResult = InvalidToken | ReuseDetected | Expired | SuspendedUser | Rotated(next: Id)

  class AuthService {
    var accounts: seq<L.Account>
    var tokens: seq<T.Token>
    var families: nat

    constructor (accounts: seq<L.Account>)
      ensures this.accounts == accounts && Sessions() == T.State([], 0)
    {
      this.accounts := accounts;
      tokens, families := [], 0;
    }

    function Sessions(): T.State
      reads this
    {
      T.State(tokens, families)
    }

    method IssueTokens(user: Id, expiresAt: Time) returns (token: Id)
      modifies this`tokens, this`families
      ensures Sessions() == T.Issue(old(Sessions()), user, expiresAt)
      ensures token == |old(tokens)|
    {
      token := |tokens|;
      tokens := tokens + [T.Token(user, families, false, None, expiresAt)];
      families := families + 1;
    }

    method FinalizeLogin(user: Id, expiresAt: Time) returns (token: Id)
      requires user < |accounts|
      modifies this
      ensures accounts == old(accounts)[user := L.Account(0, None)]
      ensures Sessions() == T.Issue(old(Sessions()), user, expiresAt) && token == |old(tokens)|
    {
      accounts := accounts[user := L.Account(0, None)];
      token := IssueTokens(user, expiresAt);
    }

    /** The account moves as one lockout step; a session starts only when password and second factor both pass. */
    method Login(user: Id, now: Time, active: bool, correct: bool, factor: SecondFactor, expiresAt: Time)
        returns (r: LoginResult)
      modifies this
      ensures user >= |old(accounts)| ==> r.UnknownUser? && accounts == old(accounts)
      ensures user < |old(accounts)| ==>
                accounts == old(accounts)[user := L.Next(old(accounts)[user],
                    L.Attempt(now, active, correct, Passes(factor)))]
      ensures r.LoggedIn? <==> user < |old(accounts)| && !L.Locked(old(accounts)[user], now) && active && correct
                               && Passes(factor)
      ensures r.LoggedIn? ==> Sessions() == T.Issue(old(Sessions()), user, expiresAt) && r.token == |old(tokens)|
      ensures !r.LoggedIn? ==> Sessions() == old(Sessions())
      ensures r.WrongPassword? <==> user < |old(accounts)|
                                    && L.FailsComparison(old(accounts)[user],
                L.Attempt(now, active, correct, Passes(factor)))
      ensures r.WrongPassword? && r.locked ==> L.Locked(accounts[user], now)
    {
      if user >= |accounts| {
        return UnknownUser;
      }
      var account := accounts[user];
      if account.lockedUntil.Some? && account.lockedUntil.value > now {
        return AccountLocked;
      }
      if !active {
        return Suspended;
      }
      if !correct {
        var attempts := account.failedAttempts + 1;
        var lockedUntil := account.lockedUntil;
        var locked := attempts >= L.MAX_FAILED;
        if locked {
          lockedUntil := Some(now + L.LOCK_MILLIS);
          attempts := 0;
        }
        accounts := accounts[user := L.Account(attempts, lockedUntil)];
        return WrongPassword(locked);
      }
      if factor.admin && !(factor.skipEnrollment && !factor.enabled) {
        if !factor.enabled || factor.code.None? {
          return FactorRequired;
        }
        if !factor.code.value {
          return WrongCode;
        }
      } else if factor.enabled {
        if factor.code.None? {
          return FactorRequired;
        }
        if !factor.code.value {
          return WrongCode;
        }
      }
      var token := FinalizeLogin(user, expiresAt);
      return LoggedIn(token);
    }

    method Refresh(id: Id, now: Time, active: bool, expiresAt: Time) returns (r: RefreshResult)
      modifies this`tokens
      ensures Sessions() == T.Refresh(old(Sessions()), id, now, active, expiresAt)
      ensures r.Rotated? <==> id < |old(tokens)| && !old(tokens)[id].revoked
                              && now <= old(tokens)[id].expiresAt && active
      ensures r.Rotated? ==> r.next == |old(tokens)|
      ensures r.ReuseDetected? <==> id < |old(tokens)| && old(tokens)[id].revoked
    {
      if id >= |tokens| {
        return InvalidToken;
      }
      var existing := tokens[id];
      if existing.revoked {
        RevokeFamily(existing.family);
        assert tokens == T.RevokeFamily(old(tokens), existing.family);
        return ReuseDetected;
      }
      if existing.expiresAt < now {
        tokens := tokens[id := existing.(revoked := true)];
        return Expired;
      }
      if !active {
        RevokeFamily(existing.family);
        assert tokens == T.RevokeFamily(old(tokens), existing.family);
        return SuspendedUser;
      }
      var next := |tokens|;
      tokens := tokens + [T.Token(existing.user, existing.family, false, None, expiresAt)];
      tokens := tokens[id := existing.(revoked := true, replacedBy := Some(next))];
      assert tokens == T.Rotate(old(tokens), id, expiresAt);
      return Rotated(next);
    }

    /** One set-wide update over the live tokens of a family: it alone is closed, and no token is lost or renamed. */
    method RevokeFamily(family: Id)
      modifies this`tokens
      ensures |tokens| == |old(tokens)|
      ensures forall i :: 0 <= i < |tokens| && old(tokens)[i].family == family ==> tokens[i].revoked
      ensures forall i :: 0 <= i < |tokens| && old(tokens)[i].family != family ==> tokens[i] == old(tokens)[i]
      ensures forall i :: 0 <= i < |tokens| ==> tokens[i].(revoked := old(tokens)[i].revoked) == old(tokens)[i]
      ensures T.Dead(Sessions(), family)
    {
      tokens := T.RevokeFamily(tokens, family);
    }

    method RevokeToken(id: Id)
      modifies this`tokens
      ensures tokens == T.RevokeOne(old(tokens), id)
      ensures |tokens| == |old(tokens)|
      ensures forall i :: 0 <= i < |tokens| ==>
                tokens[i] == if i == id then old(tokens)[i].(revoked := true) else old(tokens)[i]
    {
      if id < |tokens| && !tokens[id].revoked {
        tokens := tokens[id := tokens[id].(revoked := true)];
      }
    }

    method Logout(token: Option<Id>, user: Option<Id>)
      modifies this`tokens
      ensures Sessions() == if token.Some? then T.Next(old(Sessions()), T.LogoutStep(token.value))
                            else if user.Some? then T.Next(old(Sessions()), T.LogoutAllStep(user.value))
                            else old(Sessions())
    {
      if token.Some? {
        RevokeToken(token.value);
      } else if user.Some? {
        tokens := T.RevokeUser(tokens, user.value);
      }
    }

    /** A password reset unlocks the account and ends all its sessions. */
    method ConfirmPasswordReset(user: Id)
      requires user < |accounts|
      modifies this
      ensures accounts == old(accounts)[user := L.Next(old(accounts)[user], L.PasswordReset)]
      ensures Sessions() == T.Next(old(Sessions()), T.LogoutAllStep(user))
      ensures forall i :: 0 <= i < |tokens| && tokens[i].user == user ==> tokens[i].revoked
    {
      accounts := accounts[user := L.Account(0, None)];
      tokens := T.RevokeUser(tokens, user);
    }
  }
}
