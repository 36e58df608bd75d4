/** How often a password can be tried: the lockout bound over whole runs. */
module Lockout {
  import opened Collections
  import opened Authentication
  import opened AuthRuns

  /** A login that reaches the password comparison of account `i`. */
  predicate Compares(a: Auth, r: Request, i: nat) {
    r.Login? && i < |a.users| && EmailIndex(a.users, r.email) == i && !Locked(a.users[i], a.now)
  }

  predicate Wrong(a: Auth, r: Request, i: nat) { Compares(a, r, i) && r.password != a.users[i].password }

  /** A login that clears the failure counter of account `i`. */
  predicate Clears(a: Auth, r: Request, i: nat) {
    Compares(a, r, i) && r.password == a.users[i].password && a.users[i].status
  }

  /** When the wrong-password comparisons of a run happened. */
  function WrongTimes(a: Auth, rs: seq<Request>, i: nat): seq<int> {
    if rs == [] then []
    else
      var b := Run(a, rs[..|rs| - 1]);
      WrongTimes(a, rs[..|rs| - 1], i) + if Wrong(b, rs[|rs| - 1], i) then [b.now] else []
  }

  predicate NeverCleared(a: Auth, rs: seq<Request>, i: nat) {
    rs == [] || (NeverCleared(a, rs[..|rs| - 1], i) && !Clears(Run(a, rs[..|rs| - 1]), rs[|rs| - 1], i))
  }

  predicate SameCounters(u: User, v: User) { v.failedLogins == u.failedLogins && v.lockedUntil == u.lockedUntil }

  predicate CountersAfter(a: Auth, r: Request, i: nat, u: User, v: User) {
    if Wrong(a, r, i) then
      v.failedLogins == u.failedLogins + 1
      && v.lockedUntil
         == if u.failedLogins + 1 >= MAX_FAILED_ATTEMPTS then Some(a.now + LOCK_DURATION_MS) else u.lockedUntil
    else if Clears(a, r, i) then v.failedLogins == 0 && v.lockedUntil == None
    else SameCounters(u, v)
  }

  lemma LoginCounts(a: Auth, email: string, password: string, code: string, i: nat)
    requires i < |a.users|
    ensures var b := LoginOutcome(a, email, password, code).auth;
      i < |b.users| && b.now == a.now && CountersAfter(a, Login(email, password, code), i, a.users[i], b.users[i])
  {
    hide RevokeAll;
  }

  lemma TokensDoNotCount(a: Auth, r: Request, i: nat)
    requires i < |a.users|
    requires r.VerifyOtp? || r.AcceptInvite? || r.Refresh? || r.LogoutOne? || r.LogoutAll? || r.RevokeOne?
    ensures var b := Respond(a, r).auth;
      i < |b.users| && b.now >= a.now && SameCounters(a.users[i], b.users[i])
  {
    hide RevokeAll, Revoke, LoginOutcome, RequestResetOutcome, ResetOutcome, ChangeOutcome, NewSession, Activate;
  }

  lemma OthersDoNotCount(a: Auth, r: Request, i: nat)
    requires i < |a.users| && !r.Login?
    ensures var b := Respond(a, r).auth;
      i < |b.users| && b.now >= a.now && SameCounters(a.users[i], b.users[i])
  {
    hide RevokeAll, LoginOutcome, OtpOutcome, InviteOutcome, RefreshOutcome;
    hide LogoutOutcome, LogoutAllOutcome, RevokeOutcome;
    if r.VerifyOtp? || r.AcceptInvite? || r.Refresh? || r.LogoutOne? || r.LogoutAll? || r.RevokeOne? {
      TokensDoNotCount(a, r, i);
    }
  }

  /** A wrong password counts and from the fifth on locks, a right one of an active
      user clears both, and nothing else touches the counter or the lock. */
  lemma RespondCounts(a: Auth, r: Request, i: nat)
    requires i < |a.users|
    ensures var b := Respond(a, r).auth;
      i < |b.users| && b.now >= a.now && CountersAfter(a, r, i, a.users[i], b.users[i])
  {
    hide LoginOutcome, CountersAfter;
    if r.Login? {
      LoginCounts(a, r.email, r.password, r.code, i);
    } else {
      OthersDoNotCount(a, r, i);
      NotLogin(a, r, i, Respond(a, r).auth);
    }
  }

  lemma NotLogin(a: Auth, r: Request, i: nat, b: Auth)
    requires i < |a.users| && i < |b.users| && !r.Login? && SameCounters(a.users[i], b.users[i])
    ensures CountersAfter(a, r, i, a.users[i], b.users[i])
  {
  }

  /** From the fifth on, each wrong comparison comes a lock duration after the one before. */
  predicate Spaced(ts: seq<int>) {
    && (forall j | 0 < j < |ts| :: ts[j - 1] <= ts[j])
    && (forall j | MAX_FAILED_ATTEMPTS <= j < |ts| :: ts[j - 1] + LOCK_DURATION_MS <= ts[j])
  }

  predicate LockedBy(u: User, ts: seq<int>, now: int) {
    && u.failedLogins == |ts| && Spaced(ts)
    && (ts != [] ==> ts[|ts| - 1] <= now)
    && (|ts| >= MAX_FAILED_ATTEMPTS ==> u.lockedUntil == Some(ts[|ts| - 1] + LOCK_DURATION_MS))
  }

  lemma LockStep(a: Auth, r: Request, i: nat, ts: seq<int>, b: Auth)
    requires i < |a.users| && i < |b.users| && b.now >= a.now && LockedBy(a.users[i], ts, a.now)
    requires CountersAfter(a, r, i, a.users[i], b.users[i]) && !Clears(a, r, i)
    ensures LockedBy(b.users[i], ts + if Wrong(a, r, i) then [a.now] else [], b.now)
  {
  }

  lemma {:induction false} LockInv(a: Auth, rs: seq<Request>, i: nat)
    requires i < |a.users| && a.users[i].failedLogins == 0 && NeverCleared(a, rs, i)
    ensures var b := Run(a, rs); i < |b.users| && LockedBy(b.users[i], WrongTimes(a, rs, i), b.now)
  {
    hide Respond, CountersAfter, Clears, Wrong;
    if rs != [] {
      var front, last := rs[..|rs| - 1], rs[|rs| - 1];
      LockInv(a, front, i);
      RespondCounts(Run(a, front), last, i);
      LockStep(Run(a, front), last, i, WrongTimes(a, front, i), Run(a, rs));
    }
  }

  lemma {:induction false} SpacedOut(ts: seq<int>, j: nat)
    requires Spaced(ts) && MAX_FAILED_ATTEMPTS - 1 <= j < |ts|
    ensures ts[MAX_FAILED_ATTEMPTS - 1] + LOCK_DURATION_MS * (j - (MAX_FAILED_ATTEMPTS - 1)) <= ts[j]
  {
    if j >= MAX_FAILED_ATTEMPTS { SpacedOut(ts, j - 1); }
  }

  /** The lockout rate bound: with no successful login in between, the wrong
      passwords compared on an account up to now number at most five plus one per
      fifteen minutes since the fifth, because an expired lock does not clear the
      counter and every further failure locks again. */
  lemma RateBound(a: Auth, rs: seq<Request>, i: nat)
    requires i < |a.users| && a.users[i].failedLogins == 0 && NeverCleared(a, rs, i)
    ensures var ts, now := WrongTimes(a, rs, i), Run(a, rs).now;
      |ts| > MAX_FAILED_ATTEMPTS ==>
        |ts| <= MAX_FAILED_ATTEMPTS + (now - ts[MAX_FAILED_ATTEMPTS - 1]) / LOCK_DURATION_MS
  {
    hide Run, WrongTimes, NeverCleared, Spaced;
    LockInv(a, rs, i);
    var ts := WrongTimes(a, rs, i);
    if |ts| > MAX_FAILED_ATTEMPTS {
      SpacedOut(ts, |ts| - 1);
      Quotient(Run(a, rs).now - ts[MAX_FAILED_ATTEMPTS - 1], LOCK_DURATION_MS, |ts| - MAX_FAILED_ATTEMPTS);
    }
  }

  lemma Monotone(d: int, x: int, y: int)
    requires d > 0
    ensures x <= y ==> d * x <= d * y
  {
  }

  lemma Quotient(n: int, d: int, k: int)
    requires d > 0 && d * k <= n
    ensures k <= n / d
  {
    var q := n / d;
    assert n < d * (q + 1);
    Monotone(d, q + 1, k);
  }

  /** Every wrong comparison from the fifth on also closes all sessions and
      voids all access tokens of the account. */
  lemma LockRevokes(a: Auth, rs: seq<Request>, r: Request, i: nat)
    requires i < |a.users| && a.users[i].failedLogins == 0 && NeverCleared(a, rs, i)
    requires Wrong(Run(a, rs), r, i) && |WrongTimes(a, rs, i)| + 1 >= MAX_FAILED_ATTEMPTS
    ensures Revokes(Run(a, rs), r, i)
  {
    LockInv(a, rs, i);
  }

  // ── when exactly an account locks ────────────────────────────────────────

  /** The wrong passwords compared since the last one that cleared the counter. */
  function WrongSince(a: Auth, rs: seq<Request>, i: nat): nat {
    if rs == [] then 0
    else
      var front, r := rs[..|rs| - 1], rs[|rs| - 1];
      if Clears(Run(a, front), r, i) then 0
      else WrongSince(a, front, i) + if Wrong(Run(a, front), r, i) then 1 else 0
  }

  lemma {:induction false} CounterTells(a: Auth, rs: seq<Request>, i: nat)
    requires i < |a.users| && a.users[i].failedLogins == 0
    ensures i < |Run(a, rs).users| && Run(a, rs).users[i].failedLogins == WrongSince(a, rs, i)
  {
    hide Respond, Compares;
    if rs != [] {
      CounterTells(a, rs[..|rs| - 1], i);
      RespondCounts(Run(a, rs[..|rs| - 1]), rs[|rs| - 1], i);
    }
  }

  /** A wrong password locks the account exactly when it is at least the fifth since
      the last login that succeeded, for fifteen minutes from then, and exactly
      then it revokes everything; a success leaves no lock and counts from zero. */
  lemma LocksExactly(a: Auth, rs: seq<Request>, r: Request, i: nat, t: int)
    requires i < |a.users| && a.users[i].failedLogins == 0
    ensures var b := Run(a, rs);
      && i < |b.users| && i < |Respond(b, r).auth.users|
      && var v := Respond(b, r).auth.users[i];
         && (Wrong(b, r, i) ==>
               && (Locked(v, t) && t >= b.now
                   <==> WrongSince(a, rs, i) + 1 >= 5 && b.now <= t < b.now + 15 * 60 * 1000)
               && (Revokes(b, r, i) <==> WrongSince(a, rs, i) + 1 >= 5))
         && (Clears(b, r, i) ==> !Locked(v, t) && WrongSince(a, rs + [r], i) == 0)
  {
    var b := Run(a, rs);
    hide Respond, Run;
    CounterTells(a, rs, i);
    RespondCounts(b, r, i);
    assert (rs + [r])[..|rs|] == rs;
  }
}
