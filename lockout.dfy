/** The login view's lockout rule: a user who fails to authenticate three
    times is locked for fifteen minutes, a locked user is refused whatever
    the password, and an expired lock is lifted at the next attempt. Times
    are instants in microseconds; the credential check and the clock are
    parameters. */
module Lockout {
  import opened Text

  /** Failures that lock the account. */
  const MaxAttempts: int := 3

  /** `timedelta(minutes=15)` in microseconds. */
  const LockDuration: int := 15 * 60 * 1000000

  /** The three lockout fields of a user record. */
  datatype LockState = LockState(failedLoginAttempts: int, isLocked: bool, lockedUntil: Option<int>)

  /** The answers of `LoginView.post`. */
  datatype Response =
    | LoggedIn                      // 200 with the tokens
    | MissingCredentials            // 400
    | UnknownUser                   // 401 'Usuario no encontrado'
    | WrongPassword(remaining: int) // 401 with the attempts left
    | StillLocked                   // 423 'Usuario bloqueado. Intente más tarde.'
    | LockedNow                     // 423 'Usuario bloqueado por múltiples intentos fallidos'

  /** A record the view can produce: unlocked with fewer than three failures,
      or locked after the counter reached three, or locked by hand. */
  predicate Consistent(s: LockState) {
    s.failedLoginAttempts >= 0 && (!s.isLocked ==> s.failedLoginAttempts < MaxAttempts)
  }

  /** A record reached from the defaults through the view alone: the
      counter runs from 0 to 3, the lock is on exactly at 3, and a locked
      record always has an end time. */
  predicate Reached(s: LockState) {
    0 <= s.failedLoginAttempts <= MaxAttempts
    && (s.isLocked <==> s.failedLoginAttempts == MaxAttempts)
    && (s.isLocked ==> s.lockedUntil.Some?)
  }

  /** The lock holds at `now`: no end time, or an end time not yet passed. */
  predicate LockHolds(s: LockState, now: int) {
    s.isLocked && (s.lockedUntil.None? || now <= s.lockedUntil.value)
  }

  /** The record and the answer of one attempt by a known user with both
      credentials present; `authenticated` is what `authenticate` returned. */
  function Attempt(s: LockState, now: int, authenticated: bool): (r: (LockState, Response))
  {
    if LockHolds(s, now) then (s, StillLocked)
    else
      var t := if s.isLocked then LockState(0, false, None) else s;
      if authenticated then (t.(failedLoginAttempts := 0), LoggedIn)
      else
        var n := t.failedLoginAttempts + 1;
        if n >= MaxAttempts then (LockState(n, true, Some(now + LockDuration)), LockedNow)
        else (t.(failedLoginAttempts := n), WrongPassword(MaxAttempts - n))
  }

  /** While the lock holds every attempt is refused with 423 and the record
      is left as it was, even with the right password. */
  lemma LockedRefusesAll(s: LockState, now: int, authenticated: bool)
    requires LockHolds(s, now)
    ensures Attempt(s, now, authenticated) == (s, StillLocked)
  {
  }

  /** An expired lock is lifted first: the attempt then goes exactly as it
      would for an unlocked record with no failures. */
  lemma ExpiredLockLifted(s: LockState, now: int, authenticated: bool)
    requires s.isLocked && s.lockedUntil.Some? && now > s.lockedUntil.value
    ensures Attempt(s, now, authenticated) == Attempt(LockState(0, false, None), now, authenticated)
  {
  }

  /** A successful login that the lock lets through clears the counter
      and unlocks. */
  lemma SuccessResets(s: LockState, now: int)
    requires !LockHolds(s, now)
    ensures Attempt(s, now, true).1 == LoggedIn
    ensures Attempt(s, now, true).0.failedLoginAttempts == 0 && !Attempt(s, now, true).0.isLocked
  {
  }

  /** A failure on an open record counts once more; it locks for fifteen
      minutes exactly when the count reaches three, and otherwise reports
      the attempts left, which is one or two. */
  lemma FailureCounts(s: LockState, now: int)
    requires Consistent(s) && !s.isLocked
    ensures var (t, r) := Attempt(s, now, false);
      t.failedLoginAttempts == s.failedLoginAttempts + 1
      && (t.isLocked <==> s.failedLoginAttempts + 1 == MaxAttempts)
      && (t.isLocked ==> r == LockedNow && t.lockedUntil == Some(now + LockDuration))
      && (!t.isLocked ==>
            r == WrongPassword(MaxAttempts - t.failedLoginAttempts)
            && 1 <= r.remaining <= 2 && t.lockedUntil == s.lockedUntil)
  {
  }

  /** Every attempt keeps the record consistent. */
  lemma AttemptConsistent(s: LockState, now: int, authenticated: bool)
    requires Consistent(s)
    ensures Consistent(Attempt(s, now, authenticated).0)
  {
  }

  /** Every attempt keeps a reached record reached, and the defaults are
      one: the view never locks without an end time, nor below three
      failures. */
  lemma AttemptReached(s: LockState, now: int, authenticated: bool)
    requires Reached(s)
    ensures Reached(LockState(0, false, None))
    ensures Reached(Attempt(s, now, authenticated).0)
  {
  }

  /** The record after a series of attempts `(now, authenticated)`. */
  function Run(s: LockState, attempts: seq<(int, bool)>): (t: LockState)
    decreases |attempts|
  {
    if |attempts| == 0 then s
    else Run(Attempt(s, attempts[0].0, attempts[0].1).0, attempts[1..])
  }

  /** Three wrong passwords in a row on a consistent open record lock it:
      the counter climbs by one each time until the lock sets in. */
  lemma {:induction false} ThreeFailuresLock(s: LockState, attempts: seq<(int, bool)>)
    requires Consistent(s) && !s.isLocked && |attempts| == MaxAttempts - s.failedLoginAttempts
    requires forall i :: 0 <= i < |attempts| ==> !attempts[i].1
    ensures Run(s, attempts).isLocked
    ensures Run(s, attempts).lockedUntil == Some(attempts[|attempts| - 1].0 + LockDuration)
    decreases |attempts|
  {
    var t := Attempt(s, attempts[0].0, false).0;
    FailureCounts(s, attempts[0].0);
    if |attempts| > 1 {
      ThreeFailuresLock(t, attempts[1..]);
      assert attempts[1..][|attempts[1..]| - 1] == attempts[|attempts| - 1];
    }
  }

  /** The user record `LoginView.post` reads and saves. */
  class User {
    var failedLoginAttempts: int
    var isLocked: bool
    var lockedUntil: Option<int>

    function State(): LockState
      reads this
    {
      LockState(failedLoginAttempts, isLocked, lockedUntil)
    }

    /** The fields' defaults: no failures, unlocked, no end time. */
    constructor ()
      ensures State() == LockState(0, false, None)
    {
      failedLoginAttempts := 0;
      isLocked := false;
      lockedUntil := None;
    }

    /** The lock check and the authentication of `post`, field by field. */
    method Login(now: int, authenticated: bool) returns (r: Response)
      modifies this
      ensures (State(), r) == Attempt(old(State()), now, authenticated)
    {
      if isLocked {
        if lockedUntil.Some? && now > lockedUntil.value {
          isLocked := false;
          failedLoginAttempts := 0;
          lockedUntil := None;
        } else {
          return StillLocked;
        }
      }
      if authenticated {
        failedLoginAttempts := 0;
        r := LoggedIn;
      } else {
        failedLoginAttempts := failedLoginAttempts + 1;
        if failedLoginAttempts >= MaxAttempts {
          isLocked := true;
          lockedUntil := Some(now + LockDuration);
          r := LockedNow;
        } else {
          r := WrongPassword(MaxAttempts - failedLoginAttempts);
        }
      }
    }
  }

  /** `request.data.get(...)` of a field: absent, or a string. */
  predicate Given(field: Option<string>) { field.Some? && field.value != "" }

  /** `LoginView.post`: both credentials are required; `user` is the record
      found under the username, if any. */
  method Post(username: Option<string>, password: Option<string>, user: Option<User>, now: int, authenticated: bool)
    returns (r: Response)
    modifies if user.Some? then {user.value} else {}
    ensures !Given(username) || !Given(password) ==> r == MissingCredentials
    ensures Given(username) && Given(password) && user.None? ==> r == UnknownUser
    ensures Given(username) && Given(password) && user.Some?
      ==> (user.value.State(), r) == Attempt(old(user.value.State()), now, authenticated)
    ensures user.Some? && !(Given(username) && Given(password))
      ==> user.value.State() == old(user.value.State())
  {
    if !Given(username) || !Given(password) {
      return MissingCredentials;
    }
    if user.None? {
      return UnknownUser;
    }
    r := user.value.Login(now, authenticated);
  }
}
