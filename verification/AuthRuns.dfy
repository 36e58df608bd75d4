/** Runs of the authentication service: rotation safety, permanence of
    revocation, and single use of reset nonces. */
module AuthRuns {
  import opened Collections
  import opened Authentication

  datatype Request =
    | Login(email: string, password: string, code: string)
    | VerifyOtp(email: string, otp: string)
    | AcceptInvite(pkid: nat, inviteOk: bool, password: string)
    | Refresh(raw: nat)
    | LogoutOne(raw: nat)
    | LogoutAll(pkid: nat)
    | RevokeOne(pkid: nat, sessionId: nat)
    | RequestReset(email: string)
    | ResetPassword(raw: nat, password: string)
    | ChangePassword(pkid: nat, current: string, password: string)
    | Register(user: User, schoolPkid: nat, invited: bool)
    | SetStatus(pkid: nat, status: bool)
    | SetTwoFactor(pkid: nat, on: bool)
    | Wait(ms: nat)

  function NewUser(u: User): User {
    u.(failedLogins := 0, lockedUntil := None, tokenVersion := 0, resetHash := None, resetExpiresAt := None,
       resetUsedAt := None, otpKey := NoKey, otpExpiresAt := None)
  }

  /** A new user comes with one membership: of the own school, or by invitation. */
  function Enlist(a: Auth, u: User, schoolPkid: nat, invited: bool): Auth {
    a.(users := a.users + [NewUser(u)],
       members := a.members + [Membership(|a.users|, schoolPkid, if invited then Invited else Active, None)])
  }

  /** A switch of the user service; setting what is already set is refused. */
  function Switch(a: Auth, pkid: nat, u: User): Outcome {
    if pkid >= |a.users| then Outcome(a, Rejected(UserNotFound))
    else if a.users[pkid] == u then Outcome(a, Rejected(AlreadySet))
    else Outcome(a.(users := a.users[pkid := u]), Done)
  }

  /** One atomic request, or time passing. Registration and the switches belong to
      other services; e-mail addresses are unique and stay. */
  function Respond(a: Auth, r: Request): Outcome {
    match r
    case Login(email, password, code) => LoginOutcome(a, email, password, code)
    case VerifyOtp(email, otp) => OtpOutcome(a, email, otp)
    case AcceptInvite(pkid, inviteOk, password) => InviteOutcome(a, pkid, inviteOk, password)
    case Refresh(raw) => RefreshOutcome(a, raw)
    case LogoutOne(raw) => LogoutOutcome(a, raw)
    case LogoutAll(pkid) => LogoutAllOutcome(a, pkid)
    case RevokeOne(pkid, sessionId) => RevokeOutcome(a, pkid, sessionId)
    case RequestReset(email) => RequestResetOutcome(a, email)
    case ResetPassword(raw, password) => ResetOutcome(a, raw, password)
    case ChangePassword(pkid, current, password) => ChangeOutcome(a, pkid, current, password)
    case Register(u, schoolPkid, invited) =>
      if EmailIndex(a.users, u.email) == |a.users| then Outcome(Enlist(a, u, schoolPkid, invited), Done)
      else Outcome(a, Rejected(EmailTaken))
    case SetStatus(pkid, status) =>
      if pkid < |a.users| then Switch(a, pkid, a.users[pkid].(status := status)) else Outcome(a, Rejected(UserNotFound))
    case SetTwoFactor(pkid, on) =>
      if pkid < |a.users| then Switch(a, pkid, a.users[pkid].(twoFactor := on)) else Outcome(a, Rejected(UserNotFound))
    case Wait(ms) => Outcome(a.(now := a.now + ms), Done)
  }

  function Run(a: Auth, rs: seq<Request>): Auth {
    if rs == [] then a else Respond(Run(a, rs[..|rs| - 1]), rs[|rs| - 1]).auth
  }

  function ReplyAt(a: Auth, rs: seq<Request>, k: nat): Reply
    requires k < |rs|
  {
    Respond(Run(a, rs[..k]), rs[k]).reply
  }

  // ── the invariant ────────────────────────────────────────────────────────

  predicate SessionOk(a: Auth, i: nat)
    requires i < |a.sessions|
  {
    var s := a.sessions[i];
    && s.digest.raw < a.nextToken && s.userPkid < |a.users| && s.createdAt <= a.now && s.family <= i
    && s.expiresAt == s.createdAt + REFRESH_TOKEN_TTL_MS
    && (s.lastUsedAt.Some? ==> s.lastUsedAt.value == s.createdAt)
  }

  /** Older sessions carry older tokens; a family belongs to one user, and only
      its newest session can still be open. */
  predicate SessionsApart(s: Session, t: Session) {
    s.digest.raw < t.digest.raw && (s.family == t.family ==> s.userPkid == t.userPkid && s.revokedAt.Some?)
  }

  predicate UserOk(a: Auth, u: User) { u.resetHash.Some? ==> u.resetHash.value.raw < a.nextToken }

  predicate UsersApart(u: User, v: User) {
    u.email != v.email && (u.resetHash.Some? ==> u.resetHash != v.resetHash)
  }

  ghost predicate Inv(a: Auth) {
    && (forall i | 0 <= i < |a.sessions| :: SessionOk(a, i))
    && (forall i, j | 0 <= i < j < |a.sessions| :: SessionsApart(a.sessions[i], a.sessions[j]))
    && (forall i | 0 <= i < |a.users| :: UserOk(a, a.users[i]))
    && (forall i, j | 0 <= i < j < |a.users| :: UsersApart(a.users[i], a.users[j]))
  }

  /** What never goes back: sessions stay, keep their identity and stay revoked
      once they are; versions, the clock and the token source only grow. */
  predicate SessionLater(s: Session, t: Session) {
    t == s.(revokedAt := t.revokedAt) && (s.revokedAt.Some? ==> t == s)
  }

  /** A membership keeps its place; an invited one may become active, once. */
  predicate MemberLater(m: Membership, n: Membership) {
    n == m || (m.status.Invited? && n.acceptedAt.Some? && n == m.(status := Active, acceptedAt := n.acceptedAt))
  }

  ghost predicate Later(a: Auth, b: Auth) {
    && |a.users| <= |b.users| && |a.sessions| <= |b.sessions| && a.nextToken <= b.nextToken && a.now <= b.now
    && |a.members| <= |b.members|
    && (forall i | 0 <= i < |a.members| :: MemberLater(a.members[i], b.members[i]))
    && (forall i | 0 <= i < |a.sessions| :: SessionLater(a.sessions[i], b.sessions[i]))
    && (forall i | 0 <= i < |a.users| ::
          a.users[i].tokenVersion <= b.users[i].tokenVersion && a.users[i].email == b.users[i].email)
  }

  lemma LaterThrough(a: Auth, b: Auth, c: Auth)
    requires Later(a, b) && Later(b, c)
    ensures Later(a, c)
  {
    forall i | 0 <= i < |a.sessions| ensures SessionLater(a.sessions[i], c.sessions[i]) {
      assert SessionLater(a.sessions[i], b.sessions[i]) && SessionLater(b.sessions[i], c.sessions[i]);
    }
    forall i | 0 <= i < |a.members| ensures MemberLater(a.members[i], c.members[i]) {
      assert MemberLater(a.members[i], b.members[i]) && MemberLater(b.members[i], c.members[i]);
    }
  }

  // ── elementary changes ───────────────────────────────────────────────────

  /** A user row changes; versions do not fall and a new reset hash is fresh. */
  lemma UserChanges(a: Auth, i: nat, u: User, next: nat)
    requires Inv(a) && i < |a.users| && a.nextToken <= next
    requires u.email == a.users[i].email && u.tokenVersion >= a.users[i].tokenVersion
    requires u.resetHash == a.users[i].resetHash
      || (u.resetHash == Some(Sha256(a.nextToken)) && next == a.nextToken + 1)
    ensures var b := a.(users := a.users[i := u], nextToken := next); Inv(b) && Later(a, b)
  {
    var b := a.(users := a.users[i := u], nextToken := next);
    assert UserOk(a, a.users[i]);
    forall j | 0 <= j < |b.users| ensures UserOk(b, b.users[j]) { assert UserOk(a, a.users[j]); }
    forall j, k | 0 <= j < k < |b.users| ensures UsersApart(b.users[j], b.users[k]) {
      assert UsersApart(a.users[j], a.users[k]) && UserOk(a, a.users[j]) && UserOk(a, a.users[k]);
    }
    forall j | 0 <= j < |b.sessions| ensures SessionOk(b, j) { assert SessionOk(a, j); }
  }

  /** Sessions get revoked, and nothing else about them changes. */
  lemma SessionsClose(a: Auth, sessions: seq<Session>)
    requires Inv(a) && |sessions| == |a.sessions|
    requires forall i | 0 <= i < |sessions| :: SessionLater(a.sessions[i], sessions[i])
    ensures Inv(a.(sessions := sessions)) && Later(a, a.(sessions := sessions))
  {
    var b := a.(sessions := sessions);
    forall i | 0 <= i < |b.sessions| ensures SessionOk(b, i) {
      assert SessionOk(a, i) && SessionLater(a.sessions[i], b.sessions[i]);
    }
    forall i, j | 0 <= i < j < |b.sessions| ensures SessionsApart(b.sessions[i], b.sessions[j]) {
      assert SessionsApart(a.sessions[i], a.sessions[j]);
      assert SessionLater(a.sessions[i], b.sessions[i]) && SessionLater(a.sessions[j], b.sessions[j]);
    }
  }

  lemma OneCloses(a: Auth, i: nat)
    requires Inv(a) && i < |a.sessions| && a.sessions[i].revokedAt.None?
    ensures var b := SetSession(a, i, Revoke(a.sessions[i], a.now)); Inv(b) && Later(a, b)
  {
    SessionsClose(a, a.sessions[i := Revoke(a.sessions[i], a.now)]);
  }

  lemma AllClose(a: Auth, pkid: nat)
    requires Inv(a)
    ensures var b := a.(sessions := RevokeAll(a.sessions, pkid, a.now)); Inv(b) && Later(a, b)
  {
    SessionsClose(a, RevokeAll(a.sessions, pkid, a.now));
  }

  lemma BumpInv(a: Auth, i: nat, u: User)
    requires Inv(a) && i < |a.users|
    requires u.email == a.users[i].email && u.tokenVersion == a.users[i].tokenVersion
      && u.resetHash == a.users[i].resetHash
    ensures Inv(BumpAndRevoke(a, i, u)) && Later(a, BumpAndRevoke(a, i, u))
  {
    hide Inv, Later;
    var b := a.(users := a.users[i := u.(tokenVersion := u.tokenVersion + 1)]);
    UserChanges(a, i, u.(tokenVersion := u.tokenVersion + 1), a.nextToken);
    AllClose(b, i);
    LaterThrough(a, b, BumpAndRevoke(a, i, u));
  }

  /** A session opens; its family is new or has no open session left. */
  lemma IssueInv(a: Auth, pkid: nat, lastUsedAt: Option<int>, family: nat)
    requires Inv(a) && pkid < |a.users| && family <= |a.sessions|
    requires lastUsedAt.Some? ==> lastUsedAt.value == a.now
    requires forall i | 0 <= i < |a.sessions| && a.sessions[i].family == family ::
      a.sessions[i].userPkid == pkid && a.sessions[i].revokedAt.Some?
    ensures var b := Issue(a, pkid, lastUsedAt, family).auth; Inv(b) && Later(a, b)
  {
    var b := Issue(a, pkid, lastUsedAt, family).auth;
    forall i | 0 <= i < |b.sessions| ensures SessionOk(b, i) {
      if i < |a.sessions| { assert SessionOk(a, i); }
    }
    forall i, j | 0 <= i < j < |b.sessions| ensures SessionsApart(b.sessions[i], b.sessions[j]) {
      assert SessionOk(a, i);
      assert j < |a.sessions| ==> SessionsApart(a.sessions[i], a.sessions[j]);
    }
    forall i | 0 <= i < |b.users| ensures UserOk(b, b.users[i]) { assert UserOk(a, a.users[i]); }
  }

  lemma IssueNewInv(a: Auth, pkid: nat)
    requires Inv(a) && pkid < |a.users|
    ensures Inv(IssueNew(a, pkid).auth) && Later(a, IssueNew(a, pkid).auth)
  {
    hide Later;
    forall i | 0 <= i < |a.sessions| ensures a.sessions[i].family != |a.sessions| { assert SessionOk(a, i); }
    IssueInv(a, pkid, None, |a.sessions|);
  }

  lemma Unchanged(a: Auth)
    ensures Later(a, a)
  {
  }

  // ── every request ────────────────────────────────────────────────────────

  lemma LoginInv(a: Auth, email: string, password: string, code: string)
    requires Inv(a)
    ensures var b := LoginOutcome(a, email, password, code).auth; Inv(b) && Later(a, b)
  {
    hide Inv, Later, BumpAndRevoke, IssueNew;
    Unchanged(a);
    var i := EmailIndex(a.users, email);
    if i < |a.users| {
      var u := a.users[i];
      var failed := u.(failedLogins := u.failedLogins + 1);
      UserChanges(a, i, failed, a.nextToken);
      BumpInv(a, i, failed.(lockedUntil := Some(a.now + LOCK_DURATION_MS)));
      var b := a.(users := a.users[i := u.(failedLogins := 0, lockedUntil := None)]);
      UserChanges(a, i, u.(failedLogins := 0, lockedUntil := None), a.nextToken);
      CodeSent(b, i, code);
      LaterThrough(a, b, WithCode(b, i, code));
      IssueNewInv(b, i);
      LaterThrough(a, b, IssueNew(b, i).auth);
    }
  }

  function WithCode(a: Auth, i: nat, code: string): Auth
    requires i < |a.users|
  {
    a.(users := a.users[i := a.users[i].(otpKey := Hashed(code), otpExpiresAt := Some(a.now + OTP_TTL_MS))])
  }

  lemma CodeSent(a: Auth, i: nat, code: string)
    requires Inv(a) && i < |a.users|
    ensures Inv(WithCode(a, i, code)) && Later(a, WithCode(a, i, code))
  {
    hide Inv, Later;
    UserChanges(a, i, a.users[i].(otpKey := Hashed(code), otpExpiresAt := Some(a.now + OTP_TTL_MS)), a.nextToken);
  }

  lemma OtpInv(a: Auth, email: string, otp: string)
    requires Inv(a)
    ensures var b := OtpOutcome(a, email, otp).auth; Inv(b) && Later(a, b)
  {
    hide Inv, Later, IssueNew;
    Unchanged(a);
    var i := EmailIndex(a.users, email);
    if i < |a.users| {
      var u := a.users[i].(otpKey := UsedUp, otpExpiresAt := Some(a.now));
      var b := a.(users := a.users[i := u]);
      UserChanges(a, i, u, a.nextToken);
      IssueNewInv(b, i);
      LaterThrough(a, b, IssueNew(b, i).auth);
    }
  }

  lemma ActivateInv(a: Auth, pkid: nat)
    requires Inv(a)
    ensures var b := a.(members := Activate(a.members, pkid, a.now)); Inv(b) && Later(a, b)
  {
    var b := a.(members := Activate(a.members, pkid, a.now));
    forall i | 0 <= i < |b.sessions| ensures SessionOk(b, i) { assert SessionOk(a, i); }
    forall i | 0 <= i < |b.users| ensures UserOk(b, b.users[i]) { assert UserOk(a, a.users[i]); }
  }

  lemma InviteInv(a: Auth, pkid: nat, inviteOk: bool, password: string)
    requires Inv(a)
    ensures var b := InviteOutcome(a, pkid, inviteOk, password).auth; Inv(b) && Later(a, b)
  {
    hide Inv, Later, IssueNew, Activate;
    Unchanged(a);
    if pkid < |a.users| {
      var b := a.(users := a.users[pkid := a.users[pkid].(password := password)]);
      UserChanges(a, pkid, a.users[pkid].(password := password), a.nextToken);
      var c := b.(members := Activate(a.members, pkid, a.now));
      ActivateInv(b, pkid);
      LaterThrough(a, b, c);
      IssueNewInv(c, pkid);
      LaterThrough(a, c, IssueNew(c, pkid).auth);
    }
  }

  lemma SessionFacts(a: Auth)
    requires Inv(a)
    ensures forall i, j | 0 <= i < j < |a.sessions| :: a.sessions[i].digest.raw < a.sessions[j].digest.raw
    ensures forall i, j | 0 <= i < j < |a.sessions| && a.sessions[i].family == a.sessions[j].family ::
      a.sessions[i].userPkid == a.sessions[j].userPkid && a.sessions[i].revokedAt.Some?
  {
    forall i, j | 0 <= i < j < |a.sessions| ensures SessionsApart(a.sessions[i], a.sessions[j]) { }
  }

  lemma SameHashSameUser(a: Auth, d: Digest)
    requires Inv(a)
    ensures forall i, j | 0 <= i < |a.users| && 0 <= j < |a.users| ::
      a.users[i].resetHash == Some(d) == a.users[j].resetHash ==> i == j
    ensures forall i, j | 0 <= i < |a.users| && 0 <= j < |a.users| && a.users[i].email == a.users[j].email :: i == j
  {
    forall i, j | 0 <= i < j < |a.users|
      ensures a.users[i].email != a.users[j].email
        && (a.users[i].resetHash.Some? ==> a.users[i].resetHash != a.users[j].resetHash)
    {
      assert UsersApart(a.users[i], a.users[j]);
    }
  }

  lemma FamilyClosed(a: Auth, i: nat)
    requires Inv(a) && i < |a.sessions| && a.sessions[i].revokedAt.None?
    ensures var b := SetSession(a, i, Revoke(a.sessions[i], a.now));
      forall j | 0 <= j < |b.sessions| && b.sessions[j].family == a.sessions[i].family ::
        b.sessions[j].userPkid == a.sessions[i].userPkid && b.sessions[j].revokedAt.Some?
    ensures a.sessions[i].userPkid < |a.users| && a.sessions[i].family <= |a.sessions|
  {
    assert SessionOk(a, i);
    SessionFacts(a);
  }

  lemma RefreshInv(a: Auth, raw: nat)
    requires Inv(a)
    ensures var b := RefreshOutcome(a, raw).auth; Inv(b) && Later(a, b)
  {
    hide Inv, Later, Issue;
    Unchanged(a);
    var i := SessionIndex(a.sessions, Sha256(raw));
    if i < |a.sessions| {
      var s := a.sessions[i];
      AllClose(a, s.userPkid);
      if s.revokedAt.None? {
        var b := SetSession(a, i, Revoke(s, a.now));
        OneCloses(a, i);
        FamilyClosed(a, i);
        IssueInv(b, s.userPkid, Some(a.now), s.family);
        LaterThrough(a, b, Issue(b, s.userPkid, Some(a.now), s.family).auth);
      }
    }
  }

  lemma ResetInv(a: Auth, raw: nat, password: string)
    requires Inv(a)
    ensures var b := ResetOutcome(a, raw, password).auth; Inv(b) && Later(a, b)
  {
    hide Inv, Later, BumpAndRevoke;
    Unchanged(a);
    var i := ResetIndex(a.users, Sha256(raw));
    if i < |a.users| { BumpInv(a, i, a.users[i].(password := password, resetUsedAt := Some(a.now))); }
  }

  lemma RequestResetInv(a: Auth, email: string)
    requires Inv(a)
    ensures var b := RequestResetOutcome(a, email).auth; Inv(b) && Later(a, b)
  {
    hide Inv, Later;
    Unchanged(a);
    var i := EmailIndex(a.users, email);
    if i < |a.users| {
      var expiry := Some(a.now + RESET_TOKEN_TTL_MS);
      var u := a.users[i].(resetHash := Some(Sha256(a.nextToken)), resetExpiresAt := expiry, resetUsedAt := None);
      UserChanges(a, i, u, a.nextToken + 1);
    }
  }

  lemma RegisterInv(a: Auth, u: User, schoolPkid: nat, invited: bool)
    requires Inv(a) && EmailIndex(a.users, u.email) == |a.users|
    ensures var b := Enlist(a, u, schoolPkid, invited); Inv(b) && Later(a, b)
  {
    var b := Enlist(a, u, schoolPkid, invited);
    forall i | 0 <= i < |b.users| ensures UserOk(b, b.users[i]) {
      if i < |a.users| { assert UserOk(a, a.users[i]); }
    }
    forall i, j | 0 <= i < j < |b.users| ensures UsersApart(b.users[i], b.users[j]) {
      if j < |a.users| { assert UsersApart(a.users[i], a.users[j]); }
    }
    forall i | 0 <= i < |b.sessions| ensures SessionOk(b, i) { assert SessionOk(a, i); }
  }

  lemma WaitInv(a: Auth, ms: nat)
    requires Inv(a)
    ensures Inv(a.(now := a.now + ms)) && Later(a, a.(now := a.now + ms))
  {
    var b := a.(now := a.now + ms);
    forall i | 0 <= i < |b.sessions| ensures SessionOk(b, i) { assert SessionOk(a, i); }
    forall i | 0 <= i < |b.users| ensures UserOk(b, b.users[i]) { assert UserOk(a, a.users[i]); }
  }

  lemma RespondInv(a: Auth, r: Request)
    requires Inv(a)
    ensures Inv(Respond(a, r).auth) && Later(a, Respond(a, r).auth)
  {
    hide Inv, Later, LoginOutcome, OtpOutcome, InviteOutcome, RefreshOutcome;
    hide ResetOutcome, RequestResetOutcome, BumpAndRevoke, Enlist;
    Unchanged(a);
    match r
    case Login(email, password, code) => LoginInv(a, email, password, code);
    case VerifyOtp(email, otp) => OtpInv(a, email, otp);
    case AcceptInvite(pkid, inviteOk, password) => InviteInv(a, pkid, inviteOk, password);
    case Refresh(raw) => RefreshInv(a, raw);
    case LogoutOne(raw) =>
      var i := SessionIndex(a.sessions, Sha256(raw));
      if i < |a.sessions| && a.sessions[i].revokedAt.None? { OneCloses(a, i); }
    case LogoutAll(pkid) => if pkid < |a.users| { BumpInv(a, pkid, a.users[pkid]); }
    case RevokeOne(pkid, sessionId) =>
      if sessionId < |a.sessions| && a.sessions[sessionId].revokedAt.None? { OneCloses(a, sessionId); }
    case RequestReset(email) => RequestResetInv(a, email);
    case ResetPassword(raw, password) => ResetInv(a, raw, password);
    case ChangePassword(pkid, current, password) =>
      if pkid < |a.users| { BumpInv(a, pkid, a.users[pkid].(password := password)); }
    case Register(u, schoolPkid, invited) =>
      if EmailIndex(a.users, u.email) == |a.users| { RegisterInv(a, u, schoolPkid, invited); }
    case SetStatus(pkid, status) =>
      if pkid < |a.users| { UserChanges(a, pkid, a.users[pkid].(status := status), a.nextToken); }
    case SetTwoFactor(pkid, on) =>
      if pkid < |a.users| { UserChanges(a, pkid, a.users[pkid].(twoFactor := on), a.nextToken); }
    case Wait(ms) => WaitInv(a, ms);
  }

  lemma {:induction false} RunInv(a: Auth, rs: seq<Request>)
    requires Inv(a)
    ensures Inv(Run(a, rs)) && Later(a, Run(a, rs))
  {
    hide Inv, Later, Respond;
    Unchanged(a);
    if rs != [] {
      var b := Run(a, rs[..|rs| - 1]);
      RunInv(a, rs[..|rs| - 1]);
      RespondInv(b, rs[|rs| - 1]);
      LaterThrough(a, b, Run(a, rs));
    }
  }

  lemma {:induction false} RunSplits(a: Auth, rs: seq<Request>, k: nat)
    requires k <= |rs|
    ensures Run(a, rs) == Run(Run(a, rs[..k]), rs[k..])
  {
    hide Respond;
    if k == |rs| {
      assert rs[..k] == rs;
    } else {
      var front := rs[..|rs| - 1];
      RunSplits(a, front, k);
      assert front[..k] == rs[..k] && front[k..] == rs[k..][..|rs[k..]| - 1];
    }
  }

  lemma StartInv(users: seq<User>, members: seq<Membership>)
    requires forall i, j | 0 <= i < j < |users| :: users[i].email != users[j].email
    requires forall u | u in users :: u.resetHash.None?
    ensures Inv(Auth(users, members, [], 0, 0))
  {
    forall i | 0 <= i < |users| ensures UserOk(Auth(users, members, [], 0, 0), users[i]) { assert users[i] in users; }
    forall i, j | 0 <= i < j < |users| ensures UsersApart(users[i], users[j]) { assert users[i] in users; }
  }

  // ── rotation safety ──────────────────────────────────────────────────────

  function OpenIn(family: nat): Session -> bool { (s: Session) => s.family == family && s.revokedAt.None? }

  lemma {:induction false} AtMostOneOpen(s: seq<Session>, family: nat)
    requires forall i, j | 0 <= i < j < |s| :: SessionsApart(s[i], s[j])
    ensures |Filter(s, OpenIn(family))| <= 1
  {
    if s != [] {
      AtMostOneOpen(s[1..], family);
      if OpenIn(family)(s[0]) {
        forall t | t in s[1..] ensures !OpenIn(family)(t) {
          var j :| 0 <= j < |s[1..]| && s[1..][j] == t;
          assert SessionsApart(s[0], s[j + 1]);
        }
        FilterNone(s[1..], OpenIn(family));
      }
    }
  }

  /** In every reachable state a login has at most one open session. */
  lemma OneOpenSessionPerLogin(a: Auth, rs: seq<Request>, family: nat)
    requires Inv(a)
    ensures |Filter(Run(a, rs).sessions, OpenIn(family))| <= 1
  {
    hide Run, SessionsApart;
    RunInv(a, rs);
    AtMostOneOpen(Run(a, rs).sessions, family);
  }

  /** A refresh token is accepted exactly when its session is open, at most seven
      days old and owned by an active user. The thirty-day expiry does not
      appear: it never changes the verdict. */
  lemma RefreshAccepts(a: Auth, raw: nat)
    requires Inv(a)
    ensures var i := SessionIndex(a.sessions, Sha256(raw));
      RefreshOutcome(a, raw).reply.Signed?
      <==> i < |a.sessions| && a.sessions[i].revokedAt.None?
           && a.now - a.sessions[i].createdAt <= INACTIVITY_MS
           && a.sessions[i].userPkid < |a.users| && a.users[a.sessions[i].userPkid].status
  {
    var i := SessionIndex(a.sessions, Sha256(raw));
    if i < |a.sessions| { assert SessionOk(a, i); }
  }

  lemma TokenUnique(a: Auth, i: nat)
    requires Inv(a) && i < |a.sessions|
    ensures SessionIndex(a.sessions, a.sessions[i].digest) == i
  {
    SessionFacts(a);
  }

  predicate ClosedToken(a: Auth, raw: nat) {
    var i := SessionIndex(a.sessions, Sha256(raw));
    i < |a.sessions| && a.sessions[i].revokedAt.Some?
  }

  /** A revoked token stays revoked. */
  lemma ClosedStays(a: Auth, b: Auth, raw: nat)
    requires Inv(b) && Later(a, b) && ClosedToken(a, raw)
    ensures ClosedToken(b, raw)
    ensures b.sessions[SessionIndex(b.sessions, Sha256(raw))].userPkid
      == a.sessions[SessionIndex(a.sessions, Sha256(raw))].userPkid
  {
    var i := SessionIndex(a.sessions, Sha256(raw));
    assert SessionLater(a.sessions[i], b.sessions[i]);
    TokenUnique(b, i);
  }

  lemma RefreshCloses(a: Auth, raw: nat)
    requires Inv(a) && RefreshOutcome(a, raw).reply.Signed?
    ensures ClosedToken(RefreshOutcome(a, raw).auth, raw)
    ensures var b := RefreshOutcome(a, raw).auth;
      b.sessions[SessionIndex(b.sessions, Sha256(raw))].userPkid
        == a.sessions[SessionIndex(a.sessions, Sha256(raw))].userPkid
  {
    hide Inv, Later;
    var i := SessionIndex(a.sessions, Sha256(raw));
    RefreshInv(a, raw);
    var b := RefreshOutcome(a, raw).auth;
    assert b.sessions[i].digest == Sha256(raw) && b.sessions[i].revokedAt.Some?;
    TokenUnique(b, i);
  }

  lemma AfterAccepted(a: Auth, rs: seq<Request>, j: nat, k: nat, raw: nat)
    requires Inv(a) && j < k <= |rs|
    requires rs[j] == Refresh(raw) && ReplyAt(a, rs, j).Signed?
    ensures ClosedToken(Run(a, rs[..k]), raw)
  {
    hide Inv, Later, ClosedToken, RefreshOutcome;
    var before := Run(a, rs[..j]);
    RunInv(a, rs[..j]);
    RefreshCloses(before, raw);
    RespondInv(before, rs[j]);
    assert rs[..j + 1][..j] == rs[..j];
    var after := Run(a, rs[..j + 1]);
    RunSplits(a, rs[..k], j + 1);
    assert rs[..k][..j + 1] == rs[..j + 1];
    RunInv(after, rs[..k][j + 1..]);
    ClosedStays(after, Run(a, rs[..k]), raw);
  }

  /** Each refresh token is accepted at most once. */
  lemma AcceptedAtMostOnce(a: Auth, rs: seq<Request>, j: nat, k: nat, raw: nat)
    requires Inv(a) && j < k < |rs|
    requires rs[j] == Refresh(raw) && rs[k] == Refresh(raw)
    ensures !(ReplyAt(a, rs, j).Signed? && ReplyAt(a, rs, k).Signed?)
  {
    hide Inv, Run;
    if ReplyAt(a, rs, j).Signed? {
      AfterAccepted(a, rs, j, k, raw);
      assert ClosedToken(Run(a, rs[..k]), raw);
    }
  }

  predicate NoOpenSession(a: Auth, pkid: nat) {
    forall i | 0 <= i < |a.sessions| && a.sessions[i].userPkid == pkid :: a.sessions[i].revokedAt.Some?
  }

  /** Presenting a revoked token is refused and closes every session of its owner. */
  lemma ReplayClosesEverything(a: Auth, raw: nat)
    requires ClosedToken(a, raw)
    ensures RefreshOutcome(a, raw).reply == Rejected(InvalidRefreshToken)
    ensures NoOpenSession(RefreshOutcome(a, raw).auth, a.sessions[SessionIndex(a.sessions, Sha256(raw))].userPkid)
  {
  }

  /** Reuse detection over a run: whenever a token that was rotated earlier turns
      up again, its owner is left without an open session. */
  lemma ReuseIsDetected(a: Auth, rs: seq<Request>, j: nat, k: nat, raw: nat)
    requires Inv(a) && j < k < |rs|
    requires rs[j] == Refresh(raw) && ReplyAt(a, rs, j).Signed? && rs[k] == Refresh(raw)
    ensures ReplyAt(a, rs, k).Rejected?
    ensures NoOpenSession(Run(a, rs[..k + 1]), ReplyAt(a, rs, j).tokens.access.userPkid)
  {
    hide Inv, Later, NoOpenSession, Run, RefreshOutcome;
    AfterAccepted(a, rs, j, k, raw);
    ReplayClosesEverything(Run(a, rs[..k]), raw);
    var last := RunTo(a, rs, k);
    OwnerOfToken(a, rs, j, k, raw);
  }

  lemma OwnerOfToken(a: Auth, rs: seq<Request>, j: nat, k: nat, raw: nat)
    requires Inv(a) && j < k <= |rs|
    requires rs[j] == Refresh(raw) && ReplyAt(a, rs, j).Signed?
    ensures var b := Run(a, rs[..k]); var i := SessionIndex(b.sessions, Sha256(raw));
      i < |b.sessions| && b.sessions[i].userPkid == ReplyAt(a, rs, j).tokens.access.userPkid
  {
    hide Inv, Run;
    var before := Run(a, rs[..j]);
    RunInv(a, rs[..j]);
    var i := SessionIndex(before.sessions, Sha256(raw));
    RunSplits(a, rs[..k], j);
    assert rs[..k][..j] == rs[..j];
    RunInv(before, rs[..k][j..]);
    assert SessionLater(before.sessions[i], Run(a, rs[..k]).sessions[i]);
    TokenUnique(Run(a, rs[..k]), i);
  }

  // ── revocation ───────────────────────────────────────────────────────────

  /** The requests that revoke everything a user holds: logging out everywhere,
      changing or resetting the password, and the failed login that locks. */
  predicate Revokes(a: Auth, r: Request, pkid: nat) {
    && pkid < |a.users|
    && match r
       case LogoutAll(p) => p == pkid
       case ChangePassword(p, _, _) => p == pkid && Respond(a, r).reply == Done
       case ResetPassword(raw, _) => ResetIndex(a.users, Sha256(raw)) == pkid && Respond(a, r).reply == Done
       case Login(email, password, _) =>
         EmailIndex(a.users, email) == pkid && !Locked(a.users[pkid], a.now) && password != a.users[pkid].password
         && a.users[pkid].failedLogins + 1 >= MAX_FAILED_ATTEMPTS
       case _ => false
  }

  /** Afterwards no session of the user is open and the token version is one higher. */
  lemma RevokesEverything(a: Auth, r: Request, pkid: nat)
    requires Revokes(a, r, pkid)
    ensures var b := Respond(a, r).auth;
      && NoOpenSession(b, pkid)
      && |b.sessions| == |a.sessions| && |b.users| == |a.users|
      && b.users[pkid].tokenVersion == a.users[pkid].tokenVersion + 1
  {
  }

  /** What a reply hands out names a session and carries the current version. */
  lemma SignedTokens(a: Auth, r: Request)
    requires Inv(a) && Respond(a, r).reply.Signed?
    ensures var b, t := Respond(a, r).auth, Respond(a, r).reply.tokens;
      && t.access.userPkid < |b.users| && t.access.tokenVersion == Some(b.users[t.access.userPkid].tokenVersion)
      && t.access.sessionId < |b.sessions|
      && b.sessions[t.access.sessionId].digest == Sha256(t.refresh)
      && b.sessions[t.access.sessionId].userPkid == t.access.userPkid
  {
    hide Inv, Revoke, RevokeAll, BumpAndRevoke;
  }

  /** The two checks a token pair has to pass. */
  predicate Usable(a: Auth, t: Tokens) { Validates(a, t.access) || RefreshOutcome(a, t.refresh).reply.Signed? }

  lemma DeadForever(a: Auth, b: Auth, t: Tokens)
    requires Inv(b) && Later(a, b)
    requires t.access.userPkid < |a.users| && t.access.tokenVersion.Some?
    requires t.access.tokenVersion.value < a.users[t.access.userPkid].tokenVersion
    requires t.access.sessionId < |a.sessions| && a.sessions[t.access.sessionId].digest == Sha256(t.refresh)
    requires a.sessions[t.access.sessionId].revokedAt.Some?
    ensures !Usable(b, t)
  {
    assert SessionLater(a.sessions[t.access.sessionId], b.sessions[t.access.sessionId]);
    TokenUnique(b, t.access.sessionId);
  }

  /** Revocation is complete and permanent: of all tokens handed out for a user
      up to a revoking request, none passes any check at any later point of any run. */
  lemma RevocationIsForever(a: Auth, rs: seq<Request>, i: nat, j: nat, k: nat)
    requires Inv(a) && i < j < k <= |rs|
    requires ReplyAt(a, rs, i).Signed?
    requires Revokes(Run(a, rs[..j]), rs[j], ReplyAt(a, rs, i).tokens.access.userPkid)
    ensures !Usable(Run(a, rs[..k]), ReplyAt(a, rs, i).tokens)
  {
    hide Inv, Later, Usable, Revokes, NoOpenSession, Respond, Run;
    var tokens := ReplyAt(a, rs, i).tokens;
    var signed := RunTo(a, rs, i);
    SignedTokens(Run(a, rs[..i]), rs[i]);
    var there := Run(a, rs[..j]);
    RunBetween(a, rs, i + 1, j);
    var revoked := RunTo(a, rs, j);
    RevokesEverything(there, rs[j], tokens.access.userPkid);
    RunBetween(a, rs, i + 1, j + 1);
    RunBetween(a, rs, j + 1, k);
    StillNamed(signed, there, tokens);
    StillNamed(signed, revoked, tokens);
    RevokedNow(revoked, tokens);
    DeadForever(revoked, Run(a, rs[..k]), tokens);
  }

  lemma RunTo(a: Auth, rs: seq<Request>, i: nat) returns (b: Auth)
    requires Inv(a) && i < |rs|
    ensures b == Run(a, rs[..i + 1]) == Respond(Run(a, rs[..i]), rs[i]).auth && Inv(b) && Inv(Run(a, rs[..i]))
  {
    hide Inv, Later, Respond;
    assert rs[..i + 1][..i] == rs[..i];
    RunInv(a, rs[..i]);
    RunInv(a, rs[..i + 1]);
    b := Run(a, rs[..i + 1]);
  }

  lemma RunBetween(a: Auth, rs: seq<Request>, j: nat, k: nat)
    requires Inv(a) && j <= k <= |rs|
    ensures Inv(Run(a, rs[..k])) && Later(Run(a, rs[..j]), Run(a, rs[..k]))
  {
    hide Inv, Later, Respond;
    RunInv(a, rs[..j]);
    RunSplits(a, rs[..k], j);
    assert rs[..k][..j] == rs[..j];
    RunInv(Run(a, rs[..j]), rs[..k][j..]);
  }

  predicate Named(a: Auth, t: Tokens) {
    t.access.sessionId < |a.sessions| && a.sessions[t.access.sessionId].digest == Sha256(t.refresh)
    && a.sessions[t.access.sessionId].userPkid == t.access.userPkid
  }

  lemma StillNamed(a: Auth, b: Auth, t: Tokens)
    requires Later(a, b) && Named(a, t)
    requires t.access.userPkid < |a.users|
    ensures Named(b, t) && t.access.userPkid < |b.users|
      && a.users[t.access.userPkid].tokenVersion <= b.users[t.access.userPkid].tokenVersion
  {
    assert SessionLater(a.sessions[t.access.sessionId], b.sessions[t.access.sessionId]);
  }

  lemma RevokedNow(a: Auth, t: Tokens)
    requires NoOpenSession(a, t.access.userPkid) && Named(a, t)
    ensures a.sessions[t.access.sessionId].revokedAt.Some?
  {
  }

  // ── closing one session ──────────────────────────────────────────────────

  /** A logout with the session's token, or an accepted revocation of the session. */
  predicate ClosesOne(a: Auth, r: Request, id: nat) {
    && id < |a.sessions|
    && match r
       case LogoutOne(raw) => a.sessions[id].digest == Sha256(raw)
       case RevokeOne(_, sessionId) => sessionId == id && Respond(a, r).reply == Done
       case _ => false
  }

  /** Afterwards that session is closed and nothing else has changed: not the
      other sessions, and not what the access tokens of this one are good for. */
  lemma ClosesNoOther(a: Auth, r: Request, id: nat)
    requires Inv(a) && ClosesOne(a, r, id)
    ensures var b := Respond(a, r).auth;
      && id < |b.sessions| && b.sessions[id].revokedAt.Some?
      && b == a.(sessions := a.sessions[id := a.sessions[id].(revokedAt := b.sessions[id].revokedAt)])
      && forall t: AccessToken :: Validates(b, t) <==> Validates(a, t)
  {
    hide Inv;
    TokenUnique(a, id);
  }

  /** A refresh token whose session was closed that way is not accepted at any
      later point of any run. */
  lemma ClosedForever(a: Auth, rs: seq<Request>, i: nat, j: nat, k: nat)
    requires Inv(a) && i < j < k <= |rs| && ReplyAt(a, rs, i).Signed?
    requires ClosesOne(Run(a, rs[..j]), rs[j], ReplyAt(a, rs, i).tokens.access.sessionId)
    ensures RefreshOutcome(Run(a, rs[..k]), ReplyAt(a, rs, i).tokens.refresh).reply == Rejected(InvalidRefreshToken)
  {
    hide Inv, Later, ClosesOne, Respond, Run;
    var tokens := ReplyAt(a, rs, i).tokens;
    var signed := RunTo(a, rs, i);
    SignedTokens(Run(a, rs[..i]), rs[i]);
    var closed := RunTo(a, rs, j);
    ClosesNoOther(Run(a, rs[..j]), rs[j], tokens.access.sessionId);
    RunBetween(a, rs, i + 1, j + 1);
    RunBetween(a, rs, j + 1, k);
    StillNamed(signed, closed, tokens);
    StaysClosed(closed, Run(a, rs[..k]), tokens);
  }

  lemma StaysClosed(a: Auth, b: Auth, t: Tokens)
    requires Inv(b) && Later(a, b) && Named(a, t) && a.sessions[t.access.sessionId].revokedAt.Some?
    ensures RefreshOutcome(b, t.refresh).reply == Rejected(InvalidRefreshToken)
  {
    hide Inv;
    assert SessionLater(a.sessions[t.access.sessionId], b.sessions[t.access.sessionId]);
    TokenUnique(b, t.access.sessionId);
  }

  // ── reset nonces ─────────────────────────────────────────────────────────

  /** No user can still redeem the nonce. */
  predicate Spent(a: Auth, raw: nat) {
    raw < a.nextToken
    && forall i | 0 <= i < |a.users| && a.users[i].resetHash == Some(Sha256(raw)) :: a.users[i].resetUsedAt.Some?
  }

  lemma SpentIsRefused(a: Auth, raw: nat, password: string)
    requires Spent(a, raw)
    ensures ResetOutcome(a, raw, password).reply.Rejected? && ResetOutcome(a, raw, password).auth == a
  {
  }

  /** A nonce stays where it is, and used once it is used, until a fresh one
      replaces it; new users have neither nonce nor code. */
  ghost predicate NonceLater(a: Auth, b: Auth) {
    && a.nextToken <= b.nextToken && |a.users| <= |b.users|
    && (forall i | |a.users| <= i < |b.users| :: b.users[i].resetHash.None? && b.users[i].otpKey.NoKey?)
    && forall i | 0 <= i < |a.users| ::
         && b.users[i].email == a.users[i].email
         && ((b.users[i].resetHash == a.users[i].resetHash && b.users[i].resetExpiresAt == a.users[i].resetExpiresAt
              && (a.users[i].resetUsedAt.Some? ==> b.users[i].resetUsedAt.Some?))
             || b.users[i].resetHash == Some(Sha256(a.nextToken)))
  }

  lemma LoginKeepsNonces(a: Auth, email: string, password: string, code: string)
    ensures NonceLater(a, LoginOutcome(a, email, password, code).auth)
  {
    hide RevokeAll;
  }

  lemma SessionsKeepNonces(a: Auth, r: Request)
    requires r.Refresh? || r.LogoutOne? || r.RevokeOne?
    ensures NonceLater(a, Respond(a, r).auth)
  {
    hide Revoke, RevokeAll, LoginOutcome, OtpOutcome, InviteOutcome, RequestResetOutcome, ResetOutcome, NewSession;
  }

  lemma OtpKeepsNonces(a: Auth, email: string, otp: string)
    ensures NonceLater(a, OtpOutcome(a, email, otp).auth)
  {
    hide NewSession;
  }

  lemma InviteKeepsNonces(a: Auth, pkid: nat, inviteOk: bool, password: string)
    ensures NonceLater(a, InviteOutcome(a, pkid, inviteOk, password).auth)
  {
    hide NewSession, Activate;
  }

  lemma RequestMovesNonce(a: Auth, email: string)
    ensures NonceLater(a, RequestResetOutcome(a, email).auth)
  {
  }

  lemma ResetUsesNonce(a: Auth, raw: nat, password: string)
    ensures NonceLater(a, ResetOutcome(a, raw, password).auth)
  {
    hide RevokeAll;
    var i := ResetIndex(a.users, Sha256(raw));
    if i < |a.users| {
      var u := a.users[i].(password := password, resetUsedAt := Some(a.now),
        tokenVersion := a.users[i].tokenVersion + 1);
      assert u.resetHash == a.users[i].resetHash && u.resetExpiresAt == a.users[i].resetExpiresAt;
    }
  }

  lemma OthersKeepNonces(a: Auth, r: Request)
    requires r.LogoutAll? || r.ChangePassword? || r.Register? || r.SetStatus? || r.SetTwoFactor? || r.Wait?
    ensures NonceLater(a, Respond(a, r).auth)
  {
    hide RevokeAll, LoginOutcome, OtpOutcome, InviteOutcome, RefreshOutcome;
    hide LogoutOutcome, RevokeOutcome, RequestResetOutcome;
    hide ResetOutcome;
  }

  lemma NonceChanges(a: Auth, r: Request)
    ensures NonceLater(a, Respond(a, r).auth)
  {
    hide NonceLater, LoginOutcome, OtpOutcome, InviteOutcome, RequestResetOutcome, ResetOutcome, RevokeAll;
    match r
    case Login(email, password, code) => LoginKeepsNonces(a, email, password, code);
    case VerifyOtp(email, otp) => OtpKeepsNonces(a, email, otp);
    case AcceptInvite(pkid, inviteOk, password) => InviteKeepsNonces(a, pkid, inviteOk, password);
    case RequestReset(email) => RequestMovesNonce(a, email);
    case ResetPassword(raw, password) => ResetUsesNonce(a, raw, password);
    case LogoutAll(_) => OthersKeepNonces(a, r);
    case ChangePassword(_, _, _) => OthersKeepNonces(a, r);
    case Register(_, _, _) => OthersKeepNonces(a, r);
    case SetStatus(_, _) => OthersKeepNonces(a, r);
    case SetTwoFactor(_, _) => OthersKeepNonces(a, r);
    case Wait(_) => OthersKeepNonces(a, r);
    case _ => SessionsKeepNonces(a, r);
  }

  lemma SpentStays(a: Auth, r: Request, raw: nat)
    requires Spent(a, raw)
    ensures Spent(Respond(a, r).auth, raw)
  {
    hide Respond;
    NonceChanges(a, r);
  }

  lemma {:induction false} SpentForever(a: Auth, rs: seq<Request>, raw: nat)
    requires Spent(a, raw)
    ensures Spent(Run(a, rs), raw)
  {
    hide Spent, Respond;
    if rs != [] {
      SpentForever(a, rs[..|rs| - 1], raw);
      SpentStays(Run(a, rs[..|rs| - 1]), rs[|rs| - 1], raw);
    }
  }

  lemma SpentBetween(a: Auth, rs: seq<Request>, j: nat, k: nat, raw: nat)
    requires j <= k <= |rs| && Spent(Run(a, rs[..j]), raw)
    ensures Spent(Run(a, rs[..k]), raw)
  {
    hide Spent, Respond;
    RunSplits(a, rs[..k], j);
    assert rs[..k][..j] == rs[..j];
    SpentForever(Run(a, rs[..j]), rs[..k][j..], raw);
  }

  lemma RedeemingSpends(a: Auth, raw: nat, password: string)
    requires Inv(a) && ResetOutcome(a, raw, password).reply == Done
    ensures Spent(ResetOutcome(a, raw, password).auth, raw)
  {
    var i := ResetIndex(a.users, Sha256(raw));
    assert UserOk(a, a.users[i]);
    SameHashSameUser(a, Sha256(raw));
  }

  lemma NewerSpendsOlder(a: Auth, email: string, raw: nat)
    requires Inv(a) && raw < a.nextToken
    requires forall j | 0 <= j < |a.users| && a.users[j].resetHash == Some(Sha256(raw)) :: a.users[j].email == email
    ensures Spent(RequestResetOutcome(a, email).auth, raw) || RequestResetOutcome(a, email).reply.Rejected?
  {
    SameHashSameUser(a, Sha256(raw));
  }

  /** Each nonce changes a password at most once. */
  lemma NonceWorksOnce(a: Auth, rs: seq<Request>, j: nat, k: nat, raw: nat, first: string, second: string)
    requires Inv(a) && j < k < |rs|
    requires rs[j] == ResetPassword(raw, first) && rs[k] == ResetPassword(raw, second)
    requires ReplyAt(a, rs, j) == Done
    ensures ReplyAt(a, rs, k).Rejected? && Run(a, rs[..k + 1]) == Run(a, rs[..k])
  {
    hide Inv, Later, Spent, ResetOutcome, Run;
    var after := RunTo(a, rs, j);
    RedeemingSpends(Run(a, rs[..j]), raw, first);
    SpentBetween(a, rs, j + 1, k, raw);
    SpentIsRefused(Run(a, rs[..k]), raw, second);
    var last := RunTo(a, rs, k);
  }

  /** The nonce is the user's, unless it is spent. */
  predicate BelongsTo(a: Auth, email: string, raw: nat) {
    && raw < a.nextToken
    && forall i | 0 <= i < |a.users| && a.users[i].resetHash == Some(Sha256(raw)) :: a.users[i].email == email
  }

  lemma SentBelongs(a: Auth, email: string)
    requires Inv(a) && RequestResetOutcome(a, email).reply.ResetSent?
    ensures BelongsTo(RequestResetOutcome(a, email).auth, email, RequestResetOutcome(a, email).reply.nonce)
    ensures EmailIndex(RequestResetOutcome(a, email).auth.users, email) < |RequestResetOutcome(a, email).auth.users|
  {
    forall i | 0 <= i < |a.users| ensures a.users[i].resetHash != Some(Sha256(a.nextToken)) {
      assert UserOk(a, a.users[i]);
    }
    assert RequestResetOutcome(a, email).auth.users[EmailIndex(a.users, email)].email == email;
  }

  lemma BelongsStays(a: Auth, r: Request, email: string, raw: nat)
    requires BelongsTo(a, email, raw)
    ensures BelongsTo(Respond(a, r).auth, email, raw)
  {
    hide Respond;
    NonceChanges(a, r);
  }

  lemma {:induction false} BelongsForever(a: Auth, rs: seq<Request>, email: string, raw: nat)
    requires BelongsTo(a, email, raw)
    ensures BelongsTo(Run(a, rs), email, raw)
  {
    hide BelongsTo, Respond;
    if rs != [] {
      BelongsForever(a, rs[..|rs| - 1], email, raw);
      BelongsStays(Run(a, rs[..|rs| - 1]), rs[|rs| - 1], email, raw);
    }
  }

  lemma BelongsBetween(a: Auth, rs: seq<Request>, j: nat, k: nat, email: string, raw: nat)
    requires j <= k <= |rs| && BelongsTo(Run(a, rs[..j]), email, raw)
    ensures BelongsTo(Run(a, rs[..k]), email, raw)
  {
    hide BelongsTo, Respond;
    RunSplits(a, rs[..k], j);
    assert rs[..k][..j] == rs[..j];
    BelongsForever(Run(a, rs[..j]), rs[..k][j..], email, raw);
  }

  /** A newer reset request kills the older nonce for good. */
  lemma NewerNonceKillsOlder(a: Auth, rs: seq<Request>, i: nat, j: nat, k: nat, email: string, password: string)
    requires Inv(a) && i < j < k < |rs|
    requires rs[i] == RequestReset(email) && rs[j] == RequestReset(email)
    requires ReplyAt(a, rs, i).ResetSent? && rs[k] == ResetPassword(ReplyAt(a, rs, i).nonce, password)
    ensures ReplyAt(a, rs, k).Rejected? && Run(a, rs[..k + 1]) == Run(a, rs[..k])
  {
    hide Inv, Later, Spent, ResetOutcome, BelongsTo, RequestResetOutcome, Run;
    var raw := ReplyAt(a, rs, i).nonce;
    var sent := RunTo(a, rs, i);
    SentBelongs(Run(a, rs[..i]), email);
    BelongsBetween(a, rs, i + 1, j, email, raw);
    RunBetween(a, rs, i + 1, j);
    SecondRequestSpends(sent, Run(a, rs[..j]), email, raw);
    var newer := RunTo(a, rs, j);
    SpentBetween(a, rs, j + 1, k, raw);
    SpentIsRefused(Run(a, rs[..k]), raw, password);
    var last := RunTo(a, rs, k);
  }

  lemma SecondRequestSpends(a: Auth, b: Auth, email: string, raw: nat)
    requires Later(a, b) && Inv(b) && BelongsTo(b, email, raw) && EmailIndex(a.users, email) < |a.users|
    ensures Spent(RequestResetOutcome(b, email).auth, raw)
  {
    var i := EmailIndex(a.users, email);
    assert b.users[i].email == email;
    NewerSpendsOlder(b, email, raw);
  }

  /** Wherever the nonce is, it expires by the given time. */
  predicate ExpiresBy(a: Auth, raw: nat, time: int) {
    raw < a.nextToken
    && forall i | 0 <= i < |a.users| && a.users[i].resetHash == Some(Sha256(raw)) ::
         a.users[i].resetExpiresAt.Some? && a.users[i].resetExpiresAt.value <= time
  }

  lemma SentExpires(a: Auth, email: string)
    requires Inv(a) && RequestResetOutcome(a, email).reply.ResetSent?
    ensures ExpiresBy(RequestResetOutcome(a, email).auth, RequestResetOutcome(a, email).reply.nonce,
      a.now + RESET_TOKEN_TTL_MS)
  {
    forall i | 0 <= i < |a.users| ensures a.users[i].resetHash != Some(Sha256(a.nextToken)) {
      assert UserOk(a, a.users[i]);
    }
  }

  lemma {:induction false} ExpiresForever(a: Auth, rs: seq<Request>, raw: nat, time: int)
    requires ExpiresBy(a, raw, time)
    ensures ExpiresBy(Run(a, rs), raw, time)
  {
    hide Respond;
    if rs != [] {
      ExpiresForever(a, rs[..|rs| - 1], raw, time);
      NonceChanges(Run(a, rs[..|rs| - 1]), rs[|rs| - 1]);
    }
  }

  lemma LateIsRefused(a: Auth, raw: nat, password: string, time: int)
    requires ExpiresBy(a, raw, time) && a.now > time
    ensures ResetOutcome(a, raw, password).reply != Done
  {
  }

  /** A nonce is worth nothing an hour after it was sent. */
  lemma NonceExpires(a: Auth, rs: seq<Request>, i: nat, k: nat, email: string, password: string)
    requires Inv(a) && i < k < |rs|
    requires rs[i] == RequestReset(email) && ReplyAt(a, rs, i).ResetSent?
    requires rs[k] == ResetPassword(ReplyAt(a, rs, i).nonce, password)
    ensures ReplyAt(a, rs, k) == Done ==> Run(a, rs[..k]).now <= Run(a, rs[..i]).now + RESET_TOKEN_TTL_MS
  {
    hide Inv, ExpiresBy, ResetOutcome, RequestResetOutcome, Run;
    var raw, time := ReplyAt(a, rs, i).nonce, Run(a, rs[..i]).now + RESET_TOKEN_TTL_MS;
    var sent := RunTo(a, rs, i);
    SentExpires(Run(a, rs[..i]), email);
    RunSplits(a, rs[..k], i + 1);
    assert rs[..k][..i + 1] == rs[..i + 1];
    ExpiresForever(sent, rs[..k][i + 1..], raw, time);
    if Run(a, rs[..k]).now > time { LateIsRefused(Run(a, rs[..k]), raw, password, time); }
  }

  // ── one-time codes ───────────────────────────────────────────────────────

  /** A login that has a code sent to the address. */
  predicate Asks(a: Auth, r: Request, email: string) {
    r.Login? && r.email == email && Respond(a, r).reply == OtpRequired
  }

  /** A code that opens a session for the address. */
  predicate Opens(a: Auth, r: Request, email: string) {
    r.VerifyOtp? && r.email == email && Respond(a, r).reply.Signed?
  }

  predicate CodeAfter(a: Auth, r: Request, u: User, v: User) {
    && v.email == u.email
    && if Asks(a, r, u.email) then v.otpKey == Hashed(r.code) && v.otpExpiresAt == Some(a.now + OTP_TTL_MS)
       else if Opens(a, r, u.email) then v.otpKey == UsedUp
       else v.otpKey == u.otpKey && v.otpExpiresAt == u.otpExpiresAt
  }

  lemma LoginMovesCode(a: Auth, r: Request, i: nat)
    requires r.Login? && i < |a.users| && EmailIndex(a.users, a.users[i].email) == i
    ensures i < |Respond(a, r).auth.users| && CodeAfter(a, r, a.users[i], Respond(a, r).auth.users[i])
  {
    hide RevokeAll, NewSession, OtpOutcome, EmailIndex;
    assert Respond(a, r) == LoginOutcome(a, r.email, r.password, r.code);
    if r.email != a.users[i].email {
      assert EmailIndex(a.users, r.email) != i;
    }
  }

  lemma OtpMovesCode(a: Auth, r: Request, i: nat)
    requires r.VerifyOtp? && i < |a.users| && EmailIndex(a.users, a.users[i].email) == i
    ensures i < |Respond(a, r).auth.users| && CodeAfter(a, r, a.users[i], Respond(a, r).auth.users[i])
  {
    hide NewSession, LoginOutcome;
  }

  lemma TokensKeepCode(a: Auth, r: Request, i: nat)
    requires i < |a.users| && (r.AcceptInvite? || r.Refresh? || r.LogoutOne? || r.LogoutAll? || r.RevokeOne?)
    ensures i < |Respond(a, r).auth.users| && CodeAfter(a, r, a.users[i], Respond(a, r).auth.users[i])
  {
    hide RevokeAll, Revoke, NewSession, Activate, LoginOutcome, OtpOutcome;
    hide RequestResetOutcome, ResetOutcome, ChangeOutcome;
  }

  lemma OthersKeepCode(a: Auth, r: Request, i: nat)
    requires i < |a.users|
    requires !(r.Login? || r.VerifyOtp? || r.AcceptInvite? || r.Refresh? || r.LogoutOne? || r.LogoutAll?)
    requires !r.RevokeOne?
    ensures i < |Respond(a, r).auth.users| && CodeAfter(a, r, a.users[i], Respond(a, r).auth.users[i])
  {
    hide RevokeAll, LoginOutcome, OtpOutcome, InviteOutcome, RefreshOutcome;
    hide LogoutOutcome, LogoutAllOutcome, RevokeOutcome;
  }

  /** Only a login that asks for a code and a code that opens a session touch the code. */
  lemma RespondMovesCode(a: Auth, r: Request, i: nat)
    requires Inv(a) && i < |a.users|
    ensures i < |Respond(a, r).auth.users| && CodeAfter(a, r, a.users[i], Respond(a, r).auth.users[i])
  {
    SameHashSameUser(a, Sha256(0));
    hide Inv, CodeAfter, Respond;
    if r.Login? {
      LoginMovesCode(a, r, i);
    } else if r.VerifyOtp? {
      OtpMovesCode(a, r, i);
    } else if r.AcceptInvite? || r.Refresh? || r.LogoutOne? || r.LogoutAll? || r.RevokeOne? {
      TokensKeepCode(a, r, i);
    } else {
      OthersKeepCode(a, r, i);
    }
  }

  /** The code was asked for at step `l`, and since then neither used nor replaced. */
  ghost predicate CodeFrom(a: Auth, rs: seq<Request>, l: nat, email: string, code: string, expiry: Option<int>) {
    && l < |rs| && Asks(Run(a, rs[..l]), rs[l], email) && rs[l].code == code
    && expiry == Some(Run(a, rs[..l]).now + OTP_TTL_MS)
    && forall m | l < m < |rs| :: !Asks(Run(a, rs[..m]), rs[m], email) && !Opens(Run(a, rs[..m]), rs[m], email)
  }

  lemma CodeFromStep(a: Auth, rs: seq<Request>, r: Request, l: nat, email: string, code: string, expiry: Option<int>)
    requires l < |rs|
    ensures CodeFrom(a, rs + [r], l, email, code, expiry)
      <==> CodeFrom(a, rs, l, email, code, expiry) && !Asks(Run(a, rs), r, email) && !Opens(Run(a, rs), r, email)
  {
    hide Asks, Opens, Run;
    var u := rs + [r];
    assert u[..|rs|] == rs && u[|rs|] == r;
    forall m | 0 <= m < |rs| ensures u[..m] == rs[..m] && u[m] == rs[m] { }
  }

  /** Whatever code a user has was asked for during the run. */
  lemma {:induction false} CodeOrigin(a: Auth, rs: seq<Request>, i: nat)
    requires Inv(a) && forall u | u in a.users :: !u.otpKey.Hashed?
    requires i < |Run(a, rs).users|
    ensures var u := Run(a, rs).users[i];
      u.otpKey.Hashed? ==> exists l: nat :: CodeFrom(a, rs, l, u.email, u.otpKey.code, u.otpExpiresAt)
  {
    hide Inv, Respond, Asks, Opens, Later;
    if rs == [] {
      assert a.users[i] in a.users;
    } else {
      var front, r := rs[..|rs| - 1], rs[|rs| - 1];
      assert rs == front + [r];
      var b := Run(a, front);
      RunInv(a, front);
      NonceChanges(b, r);
      if i < |b.users| {
        CodeOrigin(a, front, i);
        RespondMovesCode(b, r, i);
        CodeOriginStep(a, front, r, b.users[i], Run(a, rs).users[i]);
      }
    }
  }

  lemma CodeOriginStep(a: Auth, rs: seq<Request>, r: Request, u: User, v: User)
    requires u.otpKey.Hashed? ==> exists l: nat :: CodeFrom(a, rs, l, u.email, u.otpKey.code, u.otpExpiresAt)
    requires CodeAfter(Run(a, rs), r, u, v)
    ensures v.otpKey.Hashed? ==> exists l: nat :: CodeFrom(a, rs + [r], l, v.email, v.otpKey.code, v.otpExpiresAt)
  {
    hide Run, Respond;
    if Asks(Run(a, rs), r, u.email) {
      assert (rs + [r])[..|rs|] == rs;
      assert CodeFrom(a, rs + [r], |rs|, v.email, v.otpKey.code, v.otpExpiresAt);
    } else if !Opens(Run(a, rs), r, u.email) && v.otpKey.Hashed? {
      var l: nat :| CodeFrom(a, rs, l, u.email, u.otpKey.code, u.otpExpiresAt);
      CodeFromStep(a, rs, r, l, v.email, v.otpKey.code, v.otpExpiresAt);
    }
  }

  lemma EmailStays(a: Auth, b: Auth, email: string)
    requires Later(a, b) && Inv(b) && EmailIndex(a.users, email) < |a.users|
    ensures EmailIndex(b.users, email) == EmailIndex(a.users, email)
  {
    var i := EmailIndex(a.users, email);
    assert b.users[i].email == email;
    SameHashSameUser(b, Sha256(0));
  }

  /** A code that was asked for is there until it is used or replaced. */
  lemma {:induction false} CodeHolds(a: Auth, rs: seq<Request>, l: nat, email: string, code: string,
          expiry: Option<int>)
    requires Inv(a) && CodeFrom(a, rs, l, email, code, expiry)
    ensures HasCode(Run(a, rs), email, code, expiry)
  {
    hide Inv, Later, Asks, Opens, HasCode, Respond;
    var front, r := rs[..|rs| - 1], rs[|rs| - 1];
    assert rs == front + [r];
    RunInv(a, front);
    if l == |front| {
      assert rs[..l] == front;
      CodeArrives(Run(a, front), r, email);
    } else {
      CodeFromStep(a, front, r, l, email, code, expiry);
      CodeHolds(a, front, l, email, code, expiry);
      CodeRemains(Run(a, front), r, email, code, expiry);
    }
  }

  predicate HasCode(a: Auth, email: string, code: string, expiry: Option<int>) {
    var i := EmailIndex(a.users, email);
    i < |a.users| && a.users[i].otpKey == Hashed(code) && a.users[i].otpExpiresAt == expiry
  }

  lemma CodeArrives(a: Auth, r: Request, email: string)
    requires Inv(a) && Asks(a, r, email)
    ensures HasCode(Respond(a, r).auth, email, r.code, Some(a.now + OTP_TTL_MS))
  {
    AskerKnown(a, r, email);
    hide Inv, Later, Respond;
    RespondInv(a, r);
    RespondMovesCode(a, r, EmailIndex(a.users, email));
    EmailStays(a, Respond(a, r).auth, email);
  }

  lemma CodeRemains(a: Auth, r: Request, email: string, code: string, expiry: Option<int>)
    requires Inv(a) && HasCode(a, email, code, expiry) && !Asks(a, r, email) && !Opens(a, r, email)
    ensures HasCode(Respond(a, r).auth, email, code, expiry)
  {
    hide Inv, Later, Respond, Asks, Opens;
    RespondInv(a, r);
    RespondMovesCode(a, r, EmailIndex(a.users, email));
    EmailStays(a, Respond(a, r).auth, email);
  }

  lemma AskerKnown(a: Auth, r: Request, email: string)
    requires Asks(a, r, email)
    ensures EmailIndex(a.users, email) < |a.users|
  {
    hide RevokeAll, NewSession;
  }

  /** Asked for at step `l`, neither used nor replaced since, and at most five minutes old. */
  ghost predicate FreshCode(a: Auth, rs: seq<Request>, l: nat, email: string, code: string) {
    && l < |rs| && CodeFrom(a, rs, l, email, code, Some(Run(a, rs[..l]).now + 5 * 60 * 1000))
    && Run(a, rs).now <= Run(a, rs[..l]).now + 5 * 60 * 1000
  }

  /** A code opens a session exactly when a login with the right password asked
      for that very code at most five minutes ago, and since then no code has
      opened a session and none has been sent. So each code works at most once. */
  lemma CodeAccepted(a: Auth, rs: seq<Request>, email: string, otp: string)
    requires Inv(a) && forall u | u in a.users :: !u.otpKey.Hashed?
    ensures OtpOutcome(Run(a, rs), email, otp).reply.Signed? <==> exists l: nat :: FreshCode(a, rs, l, email, otp)
  {
    hide Run, Inv, Asks, Opens, NewSession;
    var b := Run(a, rs);
    var i := EmailIndex(b.users, email);
    if OtpOutcome(b, email, otp).reply.Signed? {
      CodeOrigin(a, rs, i);
      var l: nat :| CodeFrom(a, rs, l, email, otp, b.users[i].otpExpiresAt);
      assert FreshCode(a, rs, l, email, otp);
    }
    if l: nat :| FreshCode(a, rs, l, email, otp) {
      CodeHolds(a, rs, l, email, otp, Some(Run(a, rs[..l]).now + OTP_TTL_MS));
    }
  }

  // ── invitations ──────────────────────────────────────────────────────────

  lemma MembersChange(a: Auth, r: Request)
    ensures var b := Respond(a, r).auth;
      match r
      case AcceptInvite(pkid, _, _) =>
        b.members == if Respond(a, r).reply.Signed? then Activate(a.members, pkid, a.now) else a.members
      case _ => a.members <= b.members
  {
    hide RevokeAll, Revoke, NewSession, Activate;
  }

  /** An invited membership becomes active only by an accepted invitation of its
      user, and carries the time of that acceptance from then on. */
  lemma {:induction false} ActivatedByInvitation(a: Auth, rs: seq<Request>, m: nat)
    requires Inv(a) && m < |a.members| && a.members[m].status.Invited?
    ensures m < |Run(a, rs).members|
    ensures Run(a, rs).members[m] != a.members[m] ==>
      exists k :: 0 <= k < |rs|
        && rs[k].AcceptInvite? && rs[k].pkid == a.members[m].userPkid && ReplyAt(a, rs, k).Signed?
        && Run(a, rs).members[m] == a.members[m].(status := Active, acceptedAt := Some(Run(a, rs[..k]).now))
  {
    hide Inv, Later, Respond;
    if rs != [] {
      var front, r := rs[..|rs| - 1], rs[|rs| - 1];
      var b, n := Run(a, front), |rs| - 1;
      assert rs[..n] == front;
      ActivatedByInvitation(a, front, m);
      MembersChange(b, r);
      if b.members[m] != a.members[m] {
        var k :| 0 <= k < |front| && front[k].AcceptInvite? && front[k].pkid == a.members[m].userPkid
          && ReplyAt(a, front, k).Signed?
          && b.members[m] == a.members[m].(status := Active, acceptedAt := Some(Run(a, front[..k]).now));
        assert rs[..k] == front[..k] && rs[k] == front[k];
      } else if Run(a, rs).members[m] != a.members[m] {
        assert rs[n].AcceptInvite? && ReplyAt(a, rs, n).Signed?;
      }
    }
  }

  // ── who gets in ──────────────────────────────────────────────────────────

  /** A login hands out tokens exactly when the address is known, the account is
      neither locked nor deactivated, the password is right and no second factor
      is asked for; a one-time code is asked for under the same conditions otherwise. */
  lemma LoginAccepts(a: Auth, email: string, password: string, code: string)
    ensures var i, reply := EmailIndex(a.users, email), LoginOutcome(a, email, password, code).reply;
      && (reply.Signed? || reply.OtpRequired?
          <==> i < |a.users| && !Locked(a.users[i], a.now) && a.users[i].password == password && a.users[i].status)
      && (reply.Signed? ==> !a.users[i].twoFactor) && (reply.OtpRequired? ==> a.users[i].twoFactor)
      && (reply.Signed? ==> reply.tokens.access.userPkid == i)
  {
  }

  /** A new password works at the next login, unless the account is locked or
      deactivated, and the old one no longer does. */
  lemma ResetTakesEffect(a: Auth, raw: nat, password: string, attempt: string, code: string)
    requires Inv(a) && ResetOutcome(a, raw, password).reply == Done
    ensures var b, i := ResetOutcome(a, raw, password).auth, ResetIndex(a.users, Sha256(raw));
      && i < |b.users| && EmailIndex(b.users, a.users[i].email) == i
      && (!Locked(b.users[i], b.now) && b.users[i].status ==>
            (LoginOutcome(b, a.users[i].email, attempt, code).reply.Rejected? <==> attempt != password))
  {
    hide RevokeAll;
    var i := ResetIndex(a.users, Sha256(raw));
    var b := ResetOutcome(a, raw, password).auth;
    SameHashSameUser(a, Sha256(raw));
    assert b.users[i].email == a.users[i].email;
  }
}
