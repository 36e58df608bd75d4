/** Who gets in, read off the history: over any run the fate of a password, an
    access token, a refresh token and a reset nonce is decided by the requests
    that came before. */
module AuthHistory {
  import opened Collections
  import opened Authentication
  import opened AuthRuns

  const MINUTE := 60 * 1000

  const HOUR := 60 * MINUTE

  const DAY := 24 * HOUR

  // ── what each request answers ────────────────────────────────────────────

  /** The user a token pair is for. */
  predicate SignedFor(reply: Reply, pkid: nat) { reply.Signed? && reply.tokens.access.userPkid == pkid }

  predicate LoginAnswers(a: Auth, email: string, password: string, reply: Reply) {
    var i := EmailIndex(a.users, email);
    if i == |a.users| then reply == Rejected(InvalidCredentials)
    else
      var u := a.users[i];
      && (reply == Rejected(AccountLocked) <==> Locked(u, a.now))
      && (reply == Rejected(InvalidCredentials) <==> !Locked(u, a.now) && u.password != password)
      && (reply == Rejected(Deactivated) <==> !Locked(u, a.now) && u.password == password && !u.status)
      && (reply == OtpRequired <==> !Locked(u, a.now) && u.password == password && u.status && u.twoFactor)
      && (SignedFor(reply, i) <==> !Locked(u, a.now) && u.password == password && u.status && !u.twoFactor)
  }

  predicate CodeAnswers(a: Auth, email: string, otp: string, reply: Reply) {
    var i := EmailIndex(a.users, email);
    if i == |a.users| then reply == Rejected(InvalidCredentials)
    else
      var key, expiry := a.users[i].otpKey, a.users[i].otpExpiresAt;
      && (reply == Rejected(IllegalArguments) <==> key == NoKey)
      && (reply == Rejected(InvalidOtp) <==> key != NoKey && key != Hashed(otp))
      && (SignedFor(reply, i) <==> key == Hashed(otp) && expiry.Some? && a.now <= expiry.value)
      && (reply == Rejected(OtpExpired) <==> key == Hashed(otp) && !(expiry.Some? && a.now <= expiry.value))
  }

  predicate RefreshAnswers(a: Auth, raw: nat, reply: Reply) {
    var i := SessionIndex(a.sessions, Sha256(raw));
    if i < |a.sessions| && reply != Rejected(InvalidRefreshToken) then
      SignedFor(reply, a.sessions[i].userPkid) && a.sessions[i].revokedAt.None?
    else reply == Rejected(InvalidRefreshToken)
  }

  predicate ResetAnswers(a: Auth, raw: nat, reply: Reply) {
    var i := ResetIndex(a.users, Sha256(raw));
    if i == |a.users| then reply == Rejected(ResetTokenInvalid)
    else
      var used, expiry := a.users[i].resetUsedAt, a.users[i].resetExpiresAt;
      && (reply == Rejected(ResetTokenUsed) <==> used.Some?)
      && (reply == Done <==> used == None && expiry.Some? && a.now <= expiry.value)
      && (reply == Rejected(ResetTokenExpired) <==> used == None && !(expiry.Some? && a.now <= expiry.value))
  }

  /** Which answer each request gets, for every state. */
  predicate Answers(a: Auth, r: Request, reply: Reply) {
    match r
    case Login(email, password, _) => LoginAnswers(a, email, password, reply)
    case VerifyOtp(email, otp) => CodeAnswers(a, email, otp, reply)
    case AcceptInvite(pkid, inviteOk, _) =>
      && (SignedFor(reply, pkid) <==> inviteOk && pkid < |a.users|)
      && (reply == Rejected(InvalidInvite) <==> !inviteOk)
      && (reply == Rejected(UserNotFound) <==> inviteOk && pkid >= |a.users|)
    case Refresh(raw) => RefreshAnswers(a, raw, reply)
    case LogoutOne(_) => reply == Done
    case LogoutAll(_) => reply == Done
    case RevokeOne(pkid, id) =>
      && (reply == Done
          <==> id < |a.sessions| && a.sessions[id].userPkid == pkid && a.sessions[id].revokedAt == None)
      && (reply == Done || reply == Rejected(SessionNotFound))
    case RequestReset(email) =>
      if EmailIndex(a.users, email) < |a.users| then reply == ResetSent(a.nextToken)
      else reply == Rejected(UserNotFound)
    case ResetPassword(raw, _) => ResetAnswers(a, raw, reply)
    case ChangePassword(pkid, current, _) =>
      && (reply == Done <==> pkid < |a.users| && a.users[pkid].password == current)
      && (reply == Rejected(UserNotFound) <==> pkid >= |a.users|)
      && (reply == Rejected(InvalidCurrentPassword) <==> pkid < |a.users| && a.users[pkid].password != current)
    case _ => true
  }

  /** Every request is answered as its preconditions say; a refusal leaves the
      tables alone, except that a failed login counts and a refused refresh may
      close sessions. */
  lemma EveryAnswer(a: Auth, r: Request)
    ensures Answers(a, r, Respond(a, r).reply)
    ensures Respond(a, r).reply.Rejected? && !r.Login? && !r.Refresh? ==> Respond(a, r).auth == a
    ensures Respond(a, r).reply == Rejected(AccountLocked) || Respond(a, r).reply == Rejected(Deactivated)
            ==> Respond(a, r).auth == a
  {
    hide RevokeAll, Revoke, Activate;
  }

  // ── what each request changes ────────────────────────────────────────────

  predicate SetsPassword(a: Auth, r: Request, i: nat) {
    match r
    case ResetPassword(raw, _) => Respond(a, r).reply == Done && ResetIndex(a.users, Sha256(raw)) == i
    case ChangePassword(pkid, _, _) => Respond(a, r).reply == Done && pkid == i
    case AcceptInvite(pkid, _, _) => Respond(a, r).reply.Signed? && pkid == i
    case _ => false
  }

  predicate SetsStatus(r: Request, i: nat) { r.SetStatus? && r.pkid == i }

  predicate SetsFactor(r: Request, i: nat) { r.SetTwoFactor? && r.pkid == i }

  /** The columns of a user's row that decide who gets in. */
  predicate CredentialsAfter(a: Auth, r: Request, i: nat, u: User, v: User) {
    && v.email == u.email
    && v.password == (if SetsPassword(a, r, i) then r.password else u.password)
    && v.status == (if SetsStatus(r, i) then r.status else u.status)
    && v.twoFactor == (if SetsFactor(r, i) then r.on else u.twoFactor)
    && v.tokenVersion == (if Revokes(a, r, i) then u.tokenVersion + 1 else u.tokenVersion)
  }

  lemma LoginKeepsCredentials(a: Auth, r: Request, i: nat)
    requires r.Login? && i < |a.users|
    ensures var b := Respond(a, r).auth; i < |b.users| && CredentialsAfter(a, r, i, a.users[i], b.users[i])
  {
    hide RevokeAll, NewSession;
  }

  lemma ResetMovesPassword(a: Auth, r: Request, i: nat)
    requires r.ResetPassword? && i < |a.users|
    ensures var b := Respond(a, r).auth; i < |b.users| && CredentialsAfter(a, r, i, a.users[i], b.users[i])
  {
    hide RevokeAll, LoginOutcome, OtpOutcome, RefreshOutcome, InviteOutcome, ChangeOutcome, LogoutAllOutcome;
    hide RequestResetOutcome, LogoutOutcome, RevokeOutcome, Switch, Enlist;
    var out := ResetOutcome(a, r.raw, r.password);
    assert Respond(a, r) == out;
  }

  lemma ChangeMovesPassword(a: Auth, r: Request, i: nat)
    requires (r.ChangePassword? || r.LogoutAll?) && i < |a.users|
    ensures var b := Respond(a, r).auth; i < |b.users| && CredentialsAfter(a, r, i, a.users[i], b.users[i])
  {
    hide RevokeAll, LoginOutcome, OtpOutcome, RefreshOutcome, InviteOutcome, ResetOutcome;
    hide RequestResetOutcome, LogoutOutcome, RevokeOutcome, Switch, Enlist;
  }

  lemma InviteMovesPassword(a: Auth, r: Request, i: nat)
    requires r.AcceptInvite? && i < |a.users|
    ensures var b := Respond(a, r).auth; i < |b.users| && CredentialsAfter(a, r, i, a.users[i], b.users[i])
  {
    hide RevokeAll, NewSession, Activate, LoginOutcome, OtpOutcome, RefreshOutcome, ChangeOutcome, ResetOutcome;
    hide RequestResetOutcome, LogoutOutcome, RevokeOutcome, Switch, Enlist;
  }

  lemma OthersKeepCredentials(a: Auth, r: Request, i: nat)
    requires i < |a.users| && !(r.Login? || r.ResetPassword? || r.ChangePassword? || r.AcceptInvite? || r.LogoutAll?)
    ensures var b := Respond(a, r).auth; i < |b.users| && CredentialsAfter(a, r, i, a.users[i], b.users[i])
  {
    hide RevokeAll, Revoke, NewSession, LoginOutcome, InviteOutcome, ResetOutcome, ChangeOutcome, LogoutAllOutcome;
    hide EmailIndex, SessionIndex, ResetIndex;
  }

  /** The password changes only by a reset, a change or an invitation that is
      accepted, the switches only by their requests, and the token version rises
      exactly by the requests that revoke everything. */
  lemma CredentialsMove(a: Auth, r: Request, i: nat)
    requires i < |a.users|
    ensures var b := Respond(a, r).auth; i < |b.users| && CredentialsAfter(a, r, i, a.users[i], b.users[i])
  {
    hide CredentialsAfter, Respond;
    if r.Login? {
      LoginKeepsCredentials(a, r, i);
    } else if r.ResetPassword? {
      ResetMovesPassword(a, r, i);
    } else if r.ChangePassword? || r.LogoutAll? {
      ChangeMovesPassword(a, r, i);
    } else if r.AcceptInvite? {
      InviteMovesPassword(a, r, i);
    } else {
      OthersKeepCredentials(a, r, i);
    }
  }

  // ── passwords over a run ─────────────────────────────────────────────────

  /** The password a user set last. */
  function PasswordSet(a: Auth, rs: seq<Request>, i: nat): string
    requires i < |a.users|
  {
    if rs == [] then a.users[i].password
    else
      var front, r := rs[..|rs| - 1], rs[|rs| - 1];
      if SetsPassword(Run(a, front), r, i) then
        match r
        case ResetPassword(_, password) => password
        case ChangePassword(_, _, password) => password
        case AcceptInvite(_, _, password) => password
        case _ => PasswordSet(a, front, i)
      else PasswordSet(a, front, i)
  }

  lemma {:induction false} PasswordIsLastSet(a: Auth, rs: seq<Request>, i: nat)
    requires i < |a.users|
    ensures i < |Run(a, rs).users| && Run(a, rs).users[i].password == PasswordSet(a, rs, i)
    ensures Run(a, rs).users[i].email == a.users[i].email
  {
    hide Respond, Revokes;
    if rs != [] {
      var front, r := rs[..|rs| - 1], rs[|rs| - 1];
      PasswordIsLastSet(a, front, i);
      CredentialsMove(Run(a, front), r, i);
    }
  }

  /** At any point of any run a login gets in, or is sent a code, exactly with the
      password the user set last, on an account that is neither locked nor
      deactivated; the user's own change is accepted exactly with it, too. */
  lemma LastPasswordDecides(a: Auth, rs: seq<Request>, i: nat, attempt: string, code: string, wanted: string)
    requires Inv(a) && i < |a.users|
    ensures var b := Run(a, rs);
      && i < |b.users|
      && var reply := LoginOutcome(b, a.users[i].email, attempt, code).reply;
         && (SignedFor(reply, i) || reply == OtpRequired
             <==> attempt == PasswordSet(a, rs, i) && !Locked(b.users[i], b.now) && b.users[i].status)
         && (ChangeOutcome(b, i, attempt, wanted).reply == Done <==> attempt == PasswordSet(a, rs, i))
  {
    hide Inv, Later, Respond, PasswordSet;
    RunInv(a, rs);
    PasswordIsLastSet(a, rs, i);
    var b := Run(a, rs);
    KnownByEmail(b, i);
    hide Run;
    LoginReply(b, a.users[i].email, attempt, code);
  }

  lemma LoginReply(a: Auth, email: string, password: string, code: string)
    ensures LoginAnswers(a, email, password, LoginOutcome(a, email, password, code).reply)
  {
    EveryAnswer(a, Login(email, password, code));
  }

  lemma KnownByEmail(a: Auth, i: nat)
    requires Inv(a) && i < |a.users|
    ensures EmailIndex(a.users, a.users[i].email) == i
  {
    SameHashSameUser(a, Sha256(0));
  }

  /** After an accepted change the next login is decided by the new password alone,
      unless the account is locked or deactivated. */
  lemma ChangeTakesEffect(a: Auth, pkid: nat, current: string, password: string, attempt: string, code: string)
    requires Inv(a) && ChangeOutcome(a, pkid, current, password).reply == Done
    ensures var b := ChangeOutcome(a, pkid, current, password).auth;
      && pkid < |b.users| && EmailIndex(b.users, a.users[pkid].email) == pkid
      && (!Locked(b.users[pkid], b.now) && b.users[pkid].status ==>
            (LoginOutcome(b, a.users[pkid].email, attempt, code).reply.Rejected? <==> attempt != password))
  {
    hide RevokeAll;
    var b := ChangeOutcome(a, pkid, current, password).auth;
    SameHashSameUser(a, Sha256(0));
    assert b.users[pkid].email == a.users[pkid].email;
  }

  // ── access tokens over a run ─────────────────────────────────────────────

  /** A request between two points of the run revokes everything of the user. */
  predicate RevokedBetween(a: Auth, rs: seq<Request>, i: nat, k: nat, pkid: nat)
    requires k <= |rs|
  {
    exists j :: i <= j < k && Revokes(Run(a, rs[..j]), rs[j], pkid)
  }

  lemma {:induction false} VersionTells(a: Auth, rs: seq<Request>, i: nat, k: nat, pkid: nat)
    requires Inv(a) && i <= k <= |rs| && pkid < |Run(a, rs[..i]).users|
    ensures pkid < |Run(a, rs[..k]).users|
    ensures Run(a, rs[..k]).users[pkid].tokenVersion == Run(a, rs[..i]).users[pkid].tokenVersion
       <==> !RevokedBetween(a, rs, i, k, pkid)
    decreases k
  {
    hide Inv, Respond, Run, Revokes;
    if i < k {
      VersionTells(a, rs, i, k - 1, pkid);
      RunBetween(a, rs, i, k - 1);
      var after := RunTo(a, rs, k - 1);
      CredentialsMove(Run(a, rs[..k - 1]), rs[k - 1], pkid);
      if Revokes(Run(a, rs[..k - 1]), rs[k - 1], pkid) { assert RevokedBetween(a, rs, i, k, pkid); }
      if RevokedBetween(a, rs, i, k, pkid) {
        var j :| i <= j < k && Revokes(Run(a, rs[..j]), rs[j], pkid);
        assert j < k - 1 ==> RevokedBetween(a, rs, i, k - 1, pkid);
      }
    }
  }

  /** An access token that was handed out at step `i` passes at a later point
      exactly when its user is active then and no request in between revoked
      everything; one without a version exactly when its user is active. */
  lemma AccessPassesExactly(a: Auth, rs: seq<Request>, i: nat, k: nat)
    requires Inv(a) && i < k <= |rs| && ReplyAt(a, rs, i).Signed?
    ensures var b, t := Run(a, rs[..k]), ReplyAt(a, rs, i).tokens.access;
      && t.userPkid < |b.users|
      && (Validates(b, t) <==> b.users[t.userPkid].status && !RevokedBetween(a, rs, i + 1, k, t.userPkid))
      && (Validates(b, t.(tokenVersion := None)) <==> b.users[t.userPkid].status)
  {
    hide Inv, Later, Respond, Run, RevokedBetween;
    var signed := RunTo(a, rs, i);
    SignedTokens(Run(a, rs[..i]), rs[i]);
    VersionTells(a, rs, i + 1, k, ReplyAt(a, rs, i).tokens.access.userPkid);
  }

  /** No token passes for a user who does not exist. */
  lemma UnknownNeverPasses(a: Auth, t: AccessToken)
    requires t.userPkid >= |a.users|
    ensures !Validates(a, t)
  {
  }

  // ── refresh tokens over a run ────────────────────────────────────────────

  /** The requests that close a session: presenting its token, logging it out,
      revoking it, whatever revokes everything of its user, and presenting a
      closed token of the same user. */
  predicate Closes(a: Auth, r: Request, id: nat)
    requires id < |a.sessions|
  {
    var s := a.sessions[id];
    match r
    case Refresh(raw) =>
      || (s.digest == Sha256(raw) && a.now <= s.expiresAt)
      || exists j :: 0 <= j < |a.sessions| && a.sessions[j].digest == Sha256(raw)
           && a.sessions[j].revokedAt.Some? && a.sessions[j].userPkid == s.userPkid
    case LogoutOne(raw) => s.digest == Sha256(raw)
    case RevokeOne(pkid, sessionId) => sessionId == id && s.userPkid == pkid
    case _ => Revokes(a, r, s.userPkid)
  }

  predicate SessionAfter(a: Auth, r: Request, id: nat, t: Session)
    requires id < |a.sessions|
  {
    var s := a.sessions[id];
    t == if s.revokedAt.None? && Closes(a, r, id) then s.(revokedAt := Some(a.now)) else s
  }

  lemma RefreshMovesSession(a: Auth, raw: nat, id: nat)
    requires Inv(a) && id < |a.sessions|
    ensures var b := RefreshOutcome(a, raw).auth;
      id < |b.sessions| && SessionAfter(a, Refresh(raw), id, b.sessions[id])
  {
    SessionFacts(a);
    hide Inv, NewSession, Revokes;
    var i := SessionIndex(a.sessions, Sha256(raw));
    if i < |a.sessions| {
      forall j | 0 <= j < |a.sessions| && a.sessions[j].digest == Sha256(raw) ensures j == i { }
    }
  }

  lemma ClosingMovesSession(a: Auth, r: Request, id: nat)
    requires Inv(a) && id < |a.sessions| && (r.LogoutOne? || r.RevokeOne?)
    ensures var b := Respond(a, r).auth; id < |b.sessions| && SessionAfter(a, r, id, b.sessions[id])
  {
    SessionFacts(a);
    hide Inv, Revokes, LoginOutcome, OtpOutcome, RefreshOutcome;
  }

  lemma LoginMovesSession(a: Auth, r: Request, id: nat)
    requires Inv(a) && id < |a.sessions| && r.Login?
    ensures var b := Respond(a, r).auth; id < |b.sessions| && SessionAfter(a, r, id, b.sessions[id])
  {
    SessionOwned(a, id);
    hide Inv, NewSession;
    assert Respond(a, r) == LoginOutcome(a, r.email, r.password, r.code);
  }

  lemma ResetMovesSession(a: Auth, r: Request, id: nat)
    requires Inv(a) && id < |a.sessions| && r.ResetPassword?
    ensures var b := Respond(a, r).auth; id < |b.sessions| && SessionAfter(a, r, id, b.sessions[id])
  {
    SessionOwned(a, id);
    hide Inv, NewSession, LoginOutcome, OtpOutcome, RefreshOutcome, InviteOutcome, ChangeOutcome, LogoutAllOutcome;
    assert Respond(a, r) == ResetOutcome(a, r.raw, r.password);
  }

  lemma ChangeMovesSession(a: Auth, r: Request, id: nat)
    requires Inv(a) && id < |a.sessions| && (r.LogoutAll? || r.ChangePassword?)
    ensures var b := Respond(a, r).auth; id < |b.sessions| && SessionAfter(a, r, id, b.sessions[id])
  {
    SessionOwned(a, id);
    hide Inv, NewSession, LoginOutcome, OtpOutcome, RefreshOutcome, InviteOutcome, ResetOutcome;
  }

  lemma SessionOwned(a: Auth, id: nat)
    requires Inv(a) && id < |a.sessions|
    ensures a.sessions[id].userPkid < |a.users|
  {
    assert SessionOk(a, id);
  }

  lemma OthersKeepSession(a: Auth, r: Request, id: nat)
    requires id < |a.sessions|
    requires !(r.Refresh? || r.LogoutOne? || r.RevokeOne?)
    requires !(r.Login? || r.LogoutAll? || r.ResetPassword? || r.ChangePassword?)
    ensures var b := Respond(a, r).auth; id < |b.sessions| && SessionAfter(a, r, id, b.sessions[id])
  {
    hide NewSession, Activate, LoginOutcome, RefreshOutcome, ResetOutcome, ChangeOutcome;
  }

  /** A session is closed exactly by those requests, at the time they come, and
      changes in no other way. */
  lemma SessionMoves(a: Auth, r: Request, id: nat)
    requires Inv(a) && id < |a.sessions|
    ensures var b := Respond(a, r).auth; id < |b.sessions| && SessionAfter(a, r, id, b.sessions[id])
  {
    hide Inv, SessionAfter, Closes;
    if r.Refresh? {
      RefreshMovesSession(a, r.raw, id);
    } else if r.LogoutOne? || r.RevokeOne? {
      ClosingMovesSession(a, r, id);
    } else if r.Login? {
      LoginMovesSession(a, r, id);
    } else if r.ResetPassword? {
      ResetMovesSession(a, r, id);
    } else if r.LogoutAll? || r.ChangePassword? {
      ChangeMovesSession(a, r, id);
    } else {
      OthersKeepSession(a, r, id);
    }
  }

  /** Nothing between two points of the run closes the session. */
  predicate LeftOpen(a: Auth, rs: seq<Request>, i: nat, k: nat, id: nat)
    requires k <= |rs|
  {
    forall j | i <= j < k :: id < |Run(a, rs[..j]).sessions| && !Closes(Run(a, rs[..j]), rs[j], id)
  }

  lemma {:induction false} OpenExactly(a: Auth, rs: seq<Request>, i: nat, k: nat, id: nat)
    requires Inv(a) && i <= k <= |rs| && id < |Run(a, rs[..i]).sessions|
    requires Run(a, rs[..i]).sessions[id].revokedAt.None?
    ensures var s, b := Run(a, rs[..i]).sessions[id], Run(a, rs[..k]);
      && id < |b.sessions| && b.sessions[id] == s.(revokedAt := b.sessions[id].revokedAt)
      && (b.sessions[id].revokedAt.None? <==> LeftOpen(a, rs, i, k, id))
    decreases k
  {
    hide Inv, Respond, Run, Closes;
    if i < k {
      OpenExactly(a, rs, i, k - 1, id);
      RunBetween(a, rs, i, k - 1);
      var after := RunTo(a, rs, k - 1);
      SessionMoves(Run(a, rs[..k - 1]), rs[k - 1], id);
      if LeftOpen(a, rs, i, k, id) {
        assert LeftOpen(a, rs, i, k - 1, id);
        assert !Closes(Run(a, rs[..k - 1]), rs[k - 1], id);
      }
    }
  }

  /** The session a reply opens. */
  lemma SignedOpens(a: Auth, r: Request)
    requires Inv(a) && Respond(a, r).reply.Signed?
    ensures var b, t := Respond(a, r).auth, Respond(a, r).reply.tokens;
      && t.access.sessionId == |a.sessions| && |b.sessions| == |a.sessions| + 1 && t.refresh == a.nextToken
      && t.access.userPkid < |a.users|
      && var s := b.sessions[|a.sessions|];
         s.userPkid == t.access.userPkid && s.digest == Sha256(t.refresh) && s.createdAt == a.now && s.revokedAt == None
  {
    SessionFacts(a);
    hide Inv, Activate;
  }

  /** A refresh token that was handed out at step `i` is accepted at a later point
      exactly when it is at most seven days old, its user is active then, and
      nothing in between closed its session. */
  lemma RefreshAcceptedExactly(a: Auth, rs: seq<Request>, i: nat, k: nat)
    requires Inv(a) && i < k <= |rs| && ReplyAt(a, rs, i).Signed?
    ensures var b, t := Run(a, rs[..k]), ReplyAt(a, rs, i).tokens;
      && t.access.userPkid < |b.users|
      && (SignedFor(RefreshOutcome(b, t.refresh).reply, t.access.userPkid)
          <==> && b.now - Run(a, rs[..i]).now <= 7 * DAY && b.users[t.access.userPkid].status
               && LeftOpen(a, rs, i + 1, k, t.access.sessionId))
  {
    hide Inv, Later, Respond, Run, LeftOpen, RefreshOutcome;
    var t := ReplyAt(a, rs, i).tokens;
    var signed := RunTo(a, rs, i);
    SignedOpens(Run(a, rs[..i]), rs[i]);
    OpenExactly(a, rs, i + 1, k, t.access.sessionId);
    RunBetween(a, rs, i + 1, k);
    var b := Run(a, rs[..k]);
    TokenUnique(b, t.access.sessionId);
    RefreshAccepts(b, t.refresh);
    RefreshReply(b, t.refresh);
    RunBetween(a, rs, i, k);
    UsersStay(Run(a, rs[..i]), b, t.access.userPkid);
  }

  lemma UsersStay(a: Auth, b: Auth, i: nat)
    requires Later(a, b) && i < |a.users|
    ensures i < |b.users|
  {
  }

  lemma RefreshReply(a: Auth, raw: nat)
    ensures RefreshAnswers(a, raw, RefreshOutcome(a, raw).reply)
  {
    EveryAnswer(a, Refresh(raw));
  }

  // ── reset nonces over a run ──────────────────────────────────────────────

  predicate Uses(a: Auth, r: Request, raw: nat) { r.ResetPassword? && r.raw == raw && Respond(a, r).reply == Done }

  predicate NonceAfter(a: Auth, r: Request, u: User, v: User) {
    && v.email == u.email
    && if r == RequestReset(u.email) then
         && v.resetHash == Some(Sha256(a.nextToken)) && v.resetExpiresAt == Some(a.now + RESET_TOKEN_TTL_MS)
         && v.resetUsedAt == None && Respond(a, r).reply == ResetSent(a.nextToken)
       else
         && v.resetHash == u.resetHash && v.resetExpiresAt == u.resetExpiresAt
         && v.resetUsedAt
            == if r.ResetPassword? && Uses(a, r, r.raw) && u.resetHash == Some(Sha256(r.raw)) then Some(a.now)
               else u.resetUsedAt
  }

  lemma RequestSendsNonce(a: Auth, r: Request, i: nat)
    requires i < |a.users| && r.RequestReset? && EmailIndex(a.users, a.users[i].email) == i
    ensures var b := Respond(a, r).auth; i < |b.users| && NonceAfter(a, r, a.users[i], b.users[i])
  {
    hide RevokeAll, LoginOutcome, OtpOutcome, RefreshOutcome, InviteOutcome, ResetOutcome, ChangeOutcome;
    var k := EmailIndex(a.users, r.email);
    if r.email == a.users[i].email {
      assert k == i;
    } else {
      assert k < |a.users| ==> a.users[k].email == r.email;
      assert k != i;
    }
  }

  lemma ResetUsesOwnNonce(a: Auth, r: Request, i: nat)
    requires i < |a.users| && r.ResetPassword?
    requires a.users[i].resetHash.Some? ==> ResetIndex(a.users, a.users[i].resetHash.value) == i
    ensures var b := Respond(a, r).auth; i < |b.users| && NonceAfter(a, r, a.users[i], b.users[i])
  {
    hide RevokeAll, LoginOutcome, OtpOutcome, RefreshOutcome, InviteOutcome, RequestResetOutcome, ChangeOutcome;
    hide EmailIndex, SessionIndex;
    var k := ResetIndex(a.users, Sha256(r.raw));
    assert Respond(a, r) == ResetOutcome(a, r.raw, r.password);
    if a.users[i].resetHash == Some(Sha256(r.raw)) {
      assert k == i;
    } else {
      assert k < |a.users| ==> a.users[k].resetHash == Some(Sha256(r.raw));
      assert k != i;
    }
  }

  lemma LoginKeepsNonce(a: Auth, r: Request, i: nat)
    requires r.Login? && i < |a.users|
    ensures var b := Respond(a, r).auth; i < |b.users| && NonceAfter(a, r, a.users[i], b.users[i])
  {
    hide RevokeAll, NewSession, ResetOutcome;
  }

  lemma OthersKeepNonce(a: Auth, r: Request, i: nat)
    requires i < |a.users| && !(r.Login? || r.RequestReset? || r.ResetPassword?)
    ensures var b := Respond(a, r).auth; i < |b.users| && NonceAfter(a, r, a.users[i], b.users[i])
  {
    hide RevokeAll, Revoke, NewSession, Activate, LoginOutcome, ResetOutcome, RequestResetOutcome;
  }

  lemma NonceMoves(a: Auth, r: Request, i: nat)
    requires Inv(a) && i < |a.users|
    ensures var b := Respond(a, r).auth; i < |b.users| && NonceAfter(a, r, a.users[i], b.users[i])
  {
    SameHashSameUser(a, if a.users[i].resetHash.Some? then a.users[i].resetHash.value else Sha256(0));
    hide Inv, NonceAfter, Respond;
    if r.Login? {
      LoginKeepsNonce(a, r, i);
    } else if r.RequestReset? {
      RequestSendsNonce(a, r, i);
    } else if r.ResetPassword? {
      ResetUsesOwnNonce(a, r, i);
    } else {
      OthersKeepNonce(a, r, i);
    }
  }

  /** The nonce was sent at step `l`, and since then neither used nor replaced. */
  ghost predicate NonceFrom(a: Auth, rs: seq<Request>, l: nat, email: string, raw: nat, expiry: int) {
    && l < |rs| && rs[l] == RequestReset(email) && ReplyAt(a, rs, l) == ResetSent(raw)
    && expiry == Run(a, rs[..l]).now + HOUR
    && forall m | l < m < |rs| :: rs[m] != RequestReset(email) && !Uses(Run(a, rs[..m]), rs[m], raw)
  }

  lemma NonceFromStep(a: Auth, rs: seq<Request>, r: Request, l: nat, email: string, raw: nat, expiry: int)
    requires l < |rs|
    ensures NonceFrom(a, rs + [r], l, email, raw, expiry)
      <==> NonceFrom(a, rs, l, email, raw, expiry) && r != RequestReset(email) && !Uses(Run(a, rs), r, raw)
  {
    hide Uses, Run, Respond;
    var u := rs + [r];
    assert u[..|rs|] == rs && u[|rs|] == r;
    forall m | 0 <= m < |rs| ensures u[..m] == rs[..m] && u[m] == rs[m] { }
  }

  /** An unused nonce in a user's row. */
  predicate Holds(u: User, raw: nat) { u.resetHash == Some(Sha256(raw)) && u.resetUsedAt == None }

  ghost predicate FromRun(a: Auth, rs: seq<Request>, u: User, raw: nat) {
    u.resetExpiresAt.Some? && exists l: nat :: NonceFrom(a, rs, l, u.email, raw, u.resetExpiresAt.value)
  }

  /** Whatever unused nonce a user has was sent during the run. */
  lemma {:induction false} NonceOrigin(a: Auth, rs: seq<Request>, i: nat, raw: nat)
    requires Inv(a) && (forall j | 0 <= j < |a.users| :: a.users[j].resetHash == None)
    requires i < |Run(a, rs).users| && Holds(Run(a, rs).users[i], raw)
    ensures FromRun(a, rs, Run(a, rs).users[i], raw)
  {
    hide Inv, Respond, Later, FromRun;
    if rs != [] {
      var front, r := rs[..|rs| - 1], rs[|rs| - 1];
      assert rs == front + [r];
      var b := Run(a, front);
      RunInv(a, front);
      NonceChanges(b, r);
      if i < |b.users| {
        NonceMoves(b, r, i);
        if r != RequestReset(b.users[i].email) { NonceOrigin(a, front, i, raw); }
        NonceOriginStep(a, front, r, b.users[i], Run(a, rs).users[i], raw);
      }
    }
  }

  lemma NonceOriginStep(a: Auth, rs: seq<Request>, r: Request, u: User, v: User, raw: nat)
    requires NonceAfter(Run(a, rs), r, u, v) && Holds(v, raw)
    requires r != RequestReset(u.email) && Holds(u, raw) ==> FromRun(a, rs, u, raw)
    ensures FromRun(a, rs + [r], v, raw)
  {
    hide Run, Respond;
    if r == RequestReset(u.email) {
      assert (rs + [r])[..|rs|] == rs;
      assert NonceFrom(a, rs + [r], |rs|, v.email, raw, v.resetExpiresAt.value);
    } else {
      var l: nat :| NonceFrom(a, rs, l, u.email, raw, u.resetExpiresAt.value);
      NonceFromStep(a, rs, r, l, v.email, raw, v.resetExpiresAt.value);
    }
  }

  predicate HasNonce(a: Auth, email: string, raw: nat, expiry: int) {
    var i := EmailIndex(a.users, email);
    i < |a.users| && Holds(a.users[i], raw) && a.users[i].resetExpiresAt == Some(expiry)
  }

  lemma NonceArrives(a: Auth, email: string)
    requires Inv(a) && RequestResetOutcome(a, email).reply.ResetSent?
    ensures HasNonce(RequestResetOutcome(a, email).auth, email, RequestResetOutcome(a, email).reply.nonce,
      a.now + RESET_TOKEN_TTL_MS)
  {
    var i := EmailIndex(a.users, email);
    var b := RequestResetOutcome(a, email).auth;
    RespondInv(a, RequestReset(email));
    assert b.users[i].email == email;
    KnownByEmail(b, i);
  }

  lemma NonceRemains(a: Auth, r: Request, email: string, raw: nat, expiry: int)
    requires Inv(a) && HasNonce(a, email, raw, expiry) && r != RequestReset(email) && !Uses(a, r, raw)
    ensures HasNonce(Respond(a, r).auth, email, raw, expiry)
  {
    hide Inv, Later, Respond, Uses;
    RespondInv(a, r);
    NonceMoves(a, r, EmailIndex(a.users, email));
    EmailStays(a, Respond(a, r).auth, email);
  }

  lemma NonceJustSent(a: Auth, rs: seq<Request>, email: string, raw: nat, expiry: int)
    requires Inv(a) && rs != [] && NonceFrom(a, rs, |rs| - 1, email, raw, expiry)
    ensures HasNonce(Run(a, rs), email, raw, expiry)
  {
    hide Inv, HasNonce, RequestResetOutcome;
    RunInv(a, rs[..|rs| - 1]);
    NonceArrives(Run(a, rs[..|rs| - 1]), email);
  }

  /** A nonce that was sent is there until it is used or replaced. */
  lemma {:induction false} NonceHolds(a: Auth, rs: seq<Request>, l: nat, email: string, raw: nat, expiry: int)
    requires Inv(a) && l < |rs| && NonceFrom(a, rs, l, email, raw, expiry)
    ensures HasNonce(Run(a, rs), email, raw, expiry)
  {
    hide Inv, Later, Uses, HasNonce, NonceFrom, Respond;
    var front, r := rs[..|rs| - 1], rs[|rs| - 1];
    assert rs == front + [r];
    if l == |front| {
      NonceJustSent(a, rs, email, raw, expiry);
    } else {
      RunInv(a, front);
      NonceFromStep(a, front, r, l, email, raw, expiry);
      NonceHolds(a, front, l, email, raw, expiry);
      NonceRemains(Run(a, front), r, email, raw, expiry);
    }
  }

  /** Sent at step `l`, neither used nor replaced since, and at most an hour old. */
  ghost predicate FreshNonce(a: Auth, rs: seq<Request>, l: nat, email: string, raw: nat) {
    l < |rs| && NonceFrom(a, rs, l, email, raw, Run(a, rs[..l]).now + HOUR)
      && Run(a, rs).now <= Run(a, rs[..l]).now + HOUR
  }

  /** A reset is accepted exactly when its nonce was sent at most an hour ago, has
      not been used since, and no newer one has been asked for. */
  lemma NonceAccepted(a: Auth, rs: seq<Request>, raw: nat, password: string)
    requires Inv(a) && forall j | 0 <= j < |a.users| :: a.users[j].resetHash == None
    ensures ResetOutcome(Run(a, rs), raw, password).reply == Done
       <==> exists l: nat, email :: FreshNonce(a, rs, l, email, raw)
  {
    hide Inv, Later, Respond, Run, Uses;
    var b := Run(a, rs);
    RunInv(a, rs);
    ResetReply(b, raw, password);
    var i := ResetIndex(b.users, Sha256(raw));
    if ResetOutcome(b, raw, password).reply == Done {
      NonceOrigin(a, rs, i, raw);
      var l: nat :| NonceFrom(a, rs, l, b.users[i].email, raw, b.users[i].resetExpiresAt.value);
      assert FreshNonce(a, rs, l, b.users[i].email, raw);
    }
    if l: nat, email :| FreshNonce(a, rs, l, email, raw) {
      NonceHolds(a, rs, l, email, raw, Run(a, rs[..l]).now + HOUR);
      FoundByNonce(b, EmailIndex(b.users, email), raw);
    }
  }

  lemma FoundByNonce(a: Auth, i: nat, raw: nat)
    requires Inv(a) && i < |a.users| && a.users[i].resetHash == Some(Sha256(raw))
    ensures ResetIndex(a.users, Sha256(raw)) == i
  {
    SameHashSameUser(a, Sha256(raw));
  }

  lemma ResetReply(a: Auth, raw: nat, password: string)
    ensures ResetAnswers(a, raw, ResetOutcome(a, raw, password).reply)
  {
    EveryAnswer(a, ResetPassword(raw, password));
  }

  // ── memberships ──────────────────────────────────────────────────────────

  /** The first membership the user is still invited to. */
  predicate FirstInvitation(a: Auth, pkid: nat, m: nat) {
    && m < |a.members| && a.members[m].userPkid == pkid && a.members[m].status == Invited
    && forall j | 0 <= j < m :: !(a.members[j].userPkid == pkid && a.members[j].status == Invited)
  }

  /** An accepted invitation makes the user's first invited membership active from
      now on; no other membership changes, and no other request changes one. */
  lemma MembershipsMove(a: Auth, r: Request, m: nat)
    requires m < |a.members|
    ensures var b := Respond(a, r).auth;
      && m < |b.members|
      && b.members[m]
         == if r.AcceptInvite? && Respond(a, r).reply.Signed? && FirstInvitation(a, r.pkid, m)
            then a.members[m].(status := Active, acceptedAt := Some(a.now)) else a.members[m]
  {
    hide RevokeAll, Revoke, NewSession, Activate, LoginOutcome, RefreshOutcome, ResetOutcome;
    MembersChange(a, r);
    if r.AcceptInvite? {
      ActivateMoves(a, r.pkid, m);
    }
  }

  lemma ActivateMoves(a: Auth, pkid: nat, m: nat)
    requires m < |a.members|
    ensures Activate(a.members, pkid, a.now)[m]
         == if FirstInvitation(a, pkid, m) then a.members[m].(status := Active, acceptedAt := Some(a.now))
            else a.members[m]
  {
    var i := InvitedIndex(a.members, pkid);
    if FirstInvitation(a, pkid, m) { assert i == m; }
  }

  /** A registered user has no lock, no failures, no nonce, no code and no token,
      and one membership, active or by invitation. */
  lemma RegisteredFresh(a: Auth, u: User, schoolPkid: nat, invited: bool)
    ensures var out := Respond(a, Register(u, schoolPkid, invited));
      if exists i :: 0 <= i < |a.users| && a.users[i].email == u.email then out == Outcome(a, Rejected(EmailTaken))
      else
        && out.reply == Done && out.auth.sessions == a.sessions
        && out.auth.users == a.users + [User(u.email, u.password, u.status, u.twoFactor, 0, None, 0, None, None, None,
                                          NoKey, None)]
        && out.auth.members
           == a.members + [Membership(|a.users|, schoolPkid, if invited then Invited else Active, None)]
  {
    var i := EmailIndex(a.users, u.email);
    if i < |a.users| { assert a.users[i].email == u.email; }
  }
}
