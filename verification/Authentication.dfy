/** The authentication service: login with lockout, refresh-token rotation with
    reuse detection (the pattern of section 4.14.2 of RFC 9700), bulk revocation,
    and one-time password-reset nonces. */
module Authentication {
  import opened Collections

  // ── rows ─────────────────────────────────────────────────────────────────

  /** SHA-256 taken as injective: a digest is known by what it digests. */
  datatype Digest = Sha256(raw: nat)

  /** What the column of the one-time code holds: null, the empty text a used
      code leaves behind, or the hash of a code. */
  datatype OtpKey = NoKey | UsedUp | Hashed(code: string)

  /** A user row; its position in the table is its pkid. Password and code stand
      for their bcrypt hashes. */
  datatype User = User(
    email: string,
    password: string,
    status: bool,
    twoFactor: bool,
    failedLogins: nat,
    lockedUntil: Option<int>,
    tokenVersion: nat,
    resetHash: Option<Digest>,
    resetExpiresAt: Option<int>,
    resetUsedAt: Option<int>,
    otpKey: OtpKey,
    otpExpiresAt: Option<int>)

  /** A session row; its position is its id. `family` is the id of the session
      the login opened, which rotation hands on; the program does not store it. */
  datatype Session = Session(
    userPkid: nat,
    digest: Digest,
    createdAt: int,
    expiresAt: int,
    lastUsedAt: Option<int>,
    revokedAt: Option<int>,
    family: nat)

  datatype MemberStatus = Active | Suspended | Left | Invited

  /** A school membership. */
  datatype Membership = Membership(userPkid: nat, schoolPkid: nat, status: MemberStatus, acceptedAt: Option<int>)

  /** The tables, the source of random tokens and the clock (milliseconds). */
  datatype Auth = Auth(users: seq<User>, members: seq<Membership>, sessions: seq<Session>, nextToken: nat, now: int)

  datatype AccessToken = AccessToken(userPkid: nat, tokenVersion: Option<nat>, sessionId: nat)

  datatype Tokens = Tokens(access: AccessToken, refresh: nat)

  datatype AuthError =
    | InvalidCredentials | AccountLocked | Deactivated | InvalidOtp | OtpExpired | InvalidInvite
    | InvalidRefreshToken | SessionNotFound | UserNotFound
    | ResetTokenInvalid | ResetTokenUsed | ResetTokenExpired | InvalidCurrentPassword
    | IllegalArguments | EmailTaken | AlreadySet

  datatype Reply = Rejected(error: AuthError) | Done | OtpRequired | Signed(tokens: Tokens) | ResetSent(nonce: nat)

  datatype Outcome = Outcome(auth: Auth, reply: Reply)

  const REFRESH_TOKEN_TTL_MS := 30 * 24 * 60 * 60 * 1000
  const RESET_TOKEN_TTL_MS := 60 * 60 * 1000
  const MAX_FAILED_ATTEMPTS := 5
  const LOCK_DURATION_MS := 15 * 60 * 1000
  const OTP_TTL_MS := 5 * 60 * 1000
  const INACTIVITY_MS := 7 * 24 * 60 * 60 * 1000

  // ── lookups ──────────────────────────────────────────────────────────────

  function EmailIndex(users: seq<User>, email: string): (i: nat)
    ensures i <= |users|
    ensures i < |users| ==> users[i].email == email
    ensures forall j | 0 <= j < i :: users[j].email != email
  {
    if users == [] then 0 else if users[0].email == email then 0 else 1 + EmailIndex(users[1..], email)
  }

  function SessionIndex(sessions: seq<Session>, d: Digest): (i: nat)
    ensures i <= |sessions|
    ensures i < |sessions| ==> sessions[i].digest == d
    ensures forall j | 0 <= j < i :: sessions[j].digest != d
  {
    if sessions == [] then 0 else if sessions[0].digest == d then 0 else 1 + SessionIndex(sessions[1..], d)
  }

  function ResetIndex(users: seq<User>, d: Digest): (i: nat)
    ensures i <= |users|
    ensures i < |users| ==> users[i].resetHash == Some(d)
    ensures forall j | 0 <= j < i :: users[j].resetHash != Some(d)
  {
    if users == [] then 0 else if users[0].resetHash == Some(d) then 0 else 1 + ResetIndex(users[1..], d)
  }

  // ── sessions ─────────────────────────────────────────────────────────────

  function Revoke(s: Session, now: int): Session { s.(revokedAt := Some(now)) }

  /** The bulk update: every session of the user that is not revoked yet. */
  function RevokeAll(sessions: seq<Session>, userPkid: nat, now: int): (r: seq<Session>)
    ensures |r| == |sessions|
    ensures forall i | 0 <= i < |r| ::
      r[i] == if sessions[i].userPkid == userPkid && sessions[i].revokedAt.None?
              then Revoke(sessions[i], now) else sessions[i]
  {
    seq(|sessions|, i requires 0 <= i < |sessions| =>
      if sessions[i].userPkid == userPkid && sessions[i].revokedAt.None? then Revoke(sessions[i], now) else sessions[i])
  }

  function NewSession(a: Auth, pkid: nat, lastUsedAt: Option<int>, family: nat): Session {
    Session(pkid, Sha256(a.nextToken), a.now, a.now + REFRESH_TOKEN_TTL_MS, lastUsedAt, None, family)
  }

  /** issueTokenPair: a session row and an access token that names it. */
  function Issue(a: Auth, pkid: nat, lastUsedAt: Option<int>, family: nat): Outcome
    requires pkid < |a.users|
  {
    Outcome(a.(sessions := a.sessions + [NewSession(a, pkid, lastUsedAt, family)], nextToken := a.nextToken + 1),
            Signed(Tokens(AccessToken(pkid, Some(a.users[pkid].tokenVersion), |a.sessions|), a.nextToken)))
  }

  /** A new login opens its own family. */
  function IssueNew(a: Auth, pkid: nat): Outcome
    requires pkid < |a.users|
  {
    Issue(a, pkid, None, |a.sessions|)
  }

  function BumpAndRevoke(a: Auth, pkid: nat, u: User): Auth
    requires pkid < |a.users|
  {
    a.(users := a.users[pkid := u.(tokenVersion := u.tokenVersion + 1)], sessions := RevokeAll(a.sessions, pkid, a.now))
  }

  // ── flows ────────────────────────────────────────────────────────────────

  predicate Locked(u: User, now: int) { u.lockedUntil.Some? && u.lockedUntil.value > now }

  function FailedLogin(a: Auth, i: nat): Auth
    requires i < |a.users|
  {
    var n := a.users[i].failedLogins + 1;
    var u := a.users[i].(failedLogins := n);
    if n >= MAX_FAILED_ATTEMPTS then BumpAndRevoke(a, i, u.(lockedUntil := Some(a.now + LOCK_DURATION_MS)))
    else a.(users := a.users[i := u])
  }

  /** `code` is what the generator of one-time codes draws. */
  function LoginOutcome(a: Auth, email: string, password: string, code: string): Outcome {
    var i := EmailIndex(a.users, email);
    if i == |a.users| then Outcome(a, Rejected(InvalidCredentials))
    else if Locked(a.users[i], a.now) then Outcome(a, Rejected(AccountLocked))
    else if password != a.users[i].password then Outcome(FailedLogin(a, i), Rejected(InvalidCredentials))
    else if !a.users[i].status then Outcome(a, Rejected(Deactivated))
    else
      var b := a.(users := a.users[i := a.users[i].(failedLogins := 0, lockedUntil := None)]);
      if b.users[i].twoFactor then
        var u := b.users[i].(otpKey := Hashed(code), otpExpiresAt := Some(a.now + OTP_TTL_MS));
        Outcome(b.(users := b.users[i := u]), OtpRequired)
      else IssueNew(b, i)
  }

  /** Comparing a code with a null hash throws, with an empty one it fails. */
  function OtpOutcome(a: Auth, email: string, otp: string): Outcome {
    var i := EmailIndex(a.users, email);
    if i == |a.users| then Outcome(a, Rejected(InvalidCredentials))
    else
      var u := a.users[i];
      if u.otpKey.NoKey? then Outcome(a, Rejected(IllegalArguments))
      else if u.otpKey != Hashed(otp) then Outcome(a, Rejected(InvalidOtp))
      else if u.otpExpiresAt.None? || a.now > u.otpExpiresAt.value then Outcome(a, Rejected(OtpExpired))
      else IssueNew(a.(users := a.users[i := u.(otpKey := UsedUp, otpExpiresAt := Some(a.now))]), i)
  }

  /** The first membership the user is invited to. */
  function InvitedIndex(members: seq<Membership>, pkid: nat): (i: nat)
    ensures i <= |members|
    ensures i < |members| ==> members[i].userPkid == pkid && members[i].status.Invited?
    ensures forall j | 0 <= j < i :: !(members[j].userPkid == pkid && members[j].status.Invited?)
  {
    if members == [] then 0
    else if members[0].userPkid == pkid && members[0].status.Invited? then 0
    else 1 + InvitedIndex(members[1..], pkid)
  }

  function Activate(members: seq<Membership>, pkid: nat, now: int): (r: seq<Membership>)
    ensures |r| == |members|
  {
    var i := InvitedIndex(members, pkid);
    if i < |members| then members[i := members[i].(status := Active, acceptedAt := Some(now))] else members
  }

  /** `inviteOk` says that the invitation token verified. */
  function InviteOutcome(a: Auth, pkid: nat, inviteOk: bool, password: string): Outcome {
    if !inviteOk then Outcome(a, Rejected(InvalidInvite))
    else if pkid >= |a.users| then Outcome(a, Rejected(UserNotFound))
    else
      var b := a.(users := a.users[pkid := a.users[pkid].(password := password)]);
      IssueNew(b.(members := Activate(a.members, pkid, a.now)), pkid)
  }

  function LastActivity(s: Session): int { if s.lastUsedAt.Some? then s.lastUsedAt.value else s.createdAt }

  function SetSession(a: Auth, i: nat, s: Session): Auth
    requires i < |a.sessions|
  {
    a.(sessions := a.sessions[i := s])
  }

  function RefreshOutcome(a: Auth, raw: nat): Outcome {
    var i := SessionIndex(a.sessions, Sha256(raw));
    if i == |a.sessions| then Outcome(a, Rejected(InvalidRefreshToken))
    else
      var s := a.sessions[i];
      if s.revokedAt.Some? then
        Outcome(a.(sessions := RevokeAll(a.sessions, s.userPkid, a.now)), Rejected(InvalidRefreshToken))
      else if s.expiresAt < a.now then Outcome(a, Rejected(InvalidRefreshToken))
      else
        var b := SetSession(a, i, Revoke(s, a.now));
        if LastActivity(s) < a.now - INACTIVITY_MS then Outcome(b, Rejected(InvalidRefreshToken))
        else if s.userPkid >= |a.users| || !a.users[s.userPkid].status then Outcome(b, Rejected(InvalidRefreshToken))
        else Issue(b, s.userPkid, Some(a.now), s.family)
  }

  function LogoutOutcome(a: Auth, raw: nat): Outcome {
    var i := SessionIndex(a.sessions, Sha256(raw));
    if i < |a.sessions| && a.sessions[i].revokedAt.None?
    then Outcome(SetSession(a, i, Revoke(a.sessions[i], a.now)), Done)
    else Outcome(a, Done)
  }

  function LogoutAllOutcome(a: Auth, pkid: nat): Outcome {
    if pkid < |a.users| then Outcome(BumpAndRevoke(a, pkid, a.users[pkid]), Done) else Outcome(a, Done)
  }

  function RevokeOutcome(a: Auth, pkid: nat, sessionId: nat): Outcome {
    if sessionId < |a.sessions| && a.sessions[sessionId].userPkid == pkid && a.sessions[sessionId].revokedAt.None?
    then Outcome(SetSession(a, sessionId, Revoke(a.sessions[sessionId], a.now)), Done)
    else Outcome(a, Rejected(SessionNotFound))
  }

  function RequestResetOutcome(a: Auth, email: string): Outcome {
    var i := EmailIndex(a.users, email);
    if i == |a.users| then Outcome(a, Rejected(UserNotFound))
    else
      var u := a.users[i].(resetHash := Some(Sha256(a.nextToken)), resetExpiresAt := Some(a.now + RESET_TOKEN_TTL_MS),
        resetUsedAt := None);
      Outcome(a.(users := a.users[i := u], nextToken := a.nextToken + 1), ResetSent(a.nextToken))
  }

  function ResetOutcome(a: Auth, raw: nat, password: string): Outcome {
    var i := ResetIndex(a.users, Sha256(raw));
    if i == |a.users| then Outcome(a, Rejected(ResetTokenInvalid))
    else
      var u := a.users[i];
      if u.resetUsedAt.Some? then Outcome(a, Rejected(ResetTokenUsed))
      else if u.resetExpiresAt.None? || u.resetExpiresAt.value < a.now then Outcome(a, Rejected(ResetTokenExpired))
      else Outcome(BumpAndRevoke(a, i, u.(password := password, resetUsedAt := Some(a.now))), Done)
  }

  function ChangeOutcome(a: Auth, pkid: nat, current: string, password: string): Outcome {
    if pkid >= |a.users| then Outcome(a, Rejected(UserNotFound))
    else if current != a.users[pkid].password then Outcome(a, Rejected(InvalidCurrentPassword))
    else Outcome(BumpAndRevoke(a, pkid, a.users[pkid].(password := password)), Done)
  }

  /** JwtStrategy.validate: a payload without a version passes the version check. */
  predicate Validates(a: Auth, t: AccessToken) {
    && t.userPkid < |a.users| && a.users[t.userPkid].status
    && (t.tokenVersion.Some? ==> a.users[t.userPkid].tokenVersion == t.tokenVersion.value)
  }

  // ── the service ──────────────────────────────────────────────────────────

  class AuthService {
    var users: seq<User>
    var members: seq<Membership>
    var sessions: seq<Session>
    var nextToken: nat

    constructor (users: seq<User>, members: seq<Membership>)
      ensures this.users == users && this.members == members && sessions == [] && nextToken == 0
    {
      this.users, this.members, sessions, nextToken := users, members, [], 0;
    }

    ghost function Tables(now: int): Auth
      reads this
    {
      Auth(users, members, sessions, nextToken, now)
    }

    method RevokeAllSessions(userPkid: nat, now: int)
      modifies this`sessions
      ensures sessions == RevokeAll(old(sessions), userPkid, now)
    {
      ghost var before := sessions;
      for i := 0 to |sessions|
        invariant |sessions| == |before|
        invariant forall j | 0 <= j < i :: sessions[j] == RevokeAll(before, userPkid, now)[j]
        invariant forall j | i <= j < |before| :: sessions[j] == before[j]
      {
        if sessions[i].userPkid == userPkid && sessions[i].revokedAt.None? {
          sessions := sessions[i := sessions[i].(revokedAt := Some(now))];
        }
      }
    }

    method IssueTokenPair(pkid: nat, lastUsedAt: Option<int>, family: nat, now: int) returns (tokens: Tokens)
      requires pkid < |users|
      modifies this
      ensures Outcome(Tables(now), Signed(tokens)) == Issue(old(Tables(now)), pkid, lastUsedAt, family)
    {
      var raw := nextToken;
      var session := Session(pkid, Sha256(raw), now, now + REFRESH_TOKEN_TTL_MS, lastUsedAt, None, family);
      var id := |sessions|;
      sessions, nextToken := sessions + [session], nextToken + 1;
      tokens := Tokens(AccessToken(pkid, Some(users[pkid].tokenVersion), id), raw);
    }

    method Login(email: string, password: string, code: string, now: int) returns (reply: Reply)
      modifies this
      ensures Outcome(Tables(now), reply) == LoginOutcome(old(Tables(now)), email, password, code)
    {
      var i := EmailIndex(users, email);
      if i == |users| { return Rejected(InvalidCredentials); }
      var user := users[i];
      if Locked(user, now) { return Rejected(AccountLocked); }
      if password != user.password {
        user := user.(failedLogins := user.failedLogins + 1);
        if user.failedLogins >= MAX_FAILED_ATTEMPTS {
          user := user.(lockedUntil := Some(now + LOCK_DURATION_MS), tokenVersion := user.tokenVersion + 1);
          RevokeAllSessions(i, now);
        }
        users := users[i := user];
        return Rejected(InvalidCredentials);
      }
      if !user.status { return Rejected(Deactivated); }
      user := user.(failedLogins := 0, lockedUntil := None);
      users := users[i := user];
      if user.twoFactor {
        users := users[i := user.(otpKey := Hashed(code), otpExpiresAt := Some(now + OTP_TTL_MS))];
        return OtpRequired;
      }
      var tokens := IssueTokenPair(i, None, |sessions|, now);
      reply := Signed(tokens);
    }

    method ValidateOtp(email: string, otp: string, now: int) returns (reply: Reply)
      modifies this
      ensures Outcome(Tables(now), reply) == OtpOutcome(old(Tables(now)), email, otp)
    {
      var i := EmailIndex(users, email);
      if i == |users| { return Rejected(InvalidCredentials); }
      var user := users[i];
      if user.otpKey.NoKey? { return Rejected(IllegalArguments); }
      if user.otpKey != Hashed(otp) { return Rejected(InvalidOtp); }
      if user.otpExpiresAt.None? || now > user.otpExpiresAt.value { return Rejected(OtpExpired); }
      user := user.(otpKey := UsedUp, otpExpiresAt := Some(now));
      users := users[i := user];
      var tokens := IssueTokenPair(i, None, |sessions|, now);
      reply := Signed(tokens);
    }

    method AcceptInvite(pkid: nat, inviteOk: bool, password: string, now: int) returns (reply: Reply)
      modifies this
      ensures Outcome(Tables(now), reply) == InviteOutcome(old(Tables(now)), pkid, inviteOk, password)
    {
      if !inviteOk { return Rejected(InvalidInvite); }
      if pkid >= |users| { return Rejected(UserNotFound); }
      users := users[pkid := users[pkid].(password := password)];
      var membership := InvitedIndex(members, pkid);
      if membership < |members| {
        members := members[membership := members[membership].(status := Active, acceptedAt := Some(now))];
      }
      var tokens := IssueTokenPair(pkid, None, |sessions|, now);
      reply := Signed(tokens);
    }

    method RefreshToken(raw: nat, now: int) returns (reply: Reply)
      modifies this
      ensures Outcome(Tables(now), reply) == RefreshOutcome(old(Tables(now)), raw)
    {
      var i := SessionIndex(sessions, Sha256(raw));
      if i == |sessions| { return Rejected(InvalidRefreshToken); }
      var session := sessions[i];
      if session.revokedAt.Some? {
        RevokeAllSessions(session.userPkid, now);
        return Rejected(InvalidRefreshToken);
      }
      if session.expiresAt < now { return Rejected(InvalidRefreshToken); }
      if LastActivity(session) < now - INACTIVITY_MS {
        sessions := sessions[i := session.(revokedAt := Some(now))];
        return Rejected(InvalidRefreshToken);
      }
      sessions := sessions[i := session.(revokedAt := Some(now))];
      if session.userPkid >= |users| || !users[session.userPkid].status { return Rejected(InvalidRefreshToken); }
      var tokens := IssueTokenPair(session.userPkid, Some(now), session.family, now);
      reply := Signed(tokens);
    }

    method RevokeSession(pkid: nat, sessionId: nat, now: int) returns (reply: Reply)
      modifies this
      ensures Outcome(Tables(now), reply) == RevokeOutcome(old(Tables(now)), pkid, sessionId)
    {
      if sessionId >= |sessions| || sessions[sessionId].userPkid != pkid || sessions[sessionId].revokedAt.Some? {
        return Rejected(SessionNotFound);
      }
      sessions := sessions[sessionId := sessions[sessionId].(revokedAt := Some(now))];
      reply := Done;
    }

    method Logout(raw: nat, now: int) returns (reply: Reply)
      modifies this
      ensures Outcome(Tables(now), reply) == LogoutOutcome(old(Tables(now)), raw)
    {
      var i := SessionIndex(sessions, Sha256(raw));
      if i < |sessions| && sessions[i].revokedAt.None? {
        sessions := sessions[i := sessions[i].(revokedAt := Some(now))];
      }
      reply := Done;
    }

    method LogoutAll(pkid: nat, now: int) returns (reply: Reply)
      modifies this
      ensures Outcome(Tables(now), reply) == LogoutAllOutcome(old(Tables(now)), pkid)
    {
      if pkid < |users| {
        users := users[pkid := users[pkid].(tokenVersion := users[pkid].tokenVersion + 1)];
        RevokeAllSessions(pkid, now);
      }
      reply := Done;
    }

    method RequestPasswordReset(email: string, now: int) returns (reply: Reply)
      modifies this
      ensures Outcome(Tables(now), reply) == RequestResetOutcome(old(Tables(now)), email)
    {
      var i := EmailIndex(users, email);
      if i == |users| { return Rejected(UserNotFound); }
      var raw := nextToken;
      nextToken := nextToken + 1;
      users := users[i := users[i].(resetHash := Some(Sha256(raw)), resetExpiresAt := Some(now + RESET_TOKEN_TTL_MS),
        resetUsedAt := None)];
      reply := ResetSent(raw);
    }

    method ResetPassword(raw: nat, password: string, now: int) returns (reply: Reply)
      modifies this
      ensures Outcome(Tables(now), reply) == ResetOutcome(old(Tables(now)), raw, password)
    {
      var i := ResetIndex(users, Sha256(raw));
      if i == |users| { return Rejected(ResetTokenInvalid); }
      var user := users[i];
      if user.resetUsedAt.Some? { return Rejected(ResetTokenUsed); }
      if user.resetExpiresAt.None? || user.resetExpiresAt.value < now { return Rejected(ResetTokenExpired); }
      user := user.(password := password, tokenVersion := user.tokenVersion + 1, resetUsedAt := Some(now));
      users := users[i := user];
      RevokeAllSessions(i, now);
      reply := Done;
    }

    method ChangePassword(pkid: nat, current: string, password: string, now: int) returns (reply: Reply)
      modifies this
      ensures Outcome(Tables(now), reply) == ChangeOutcome(old(Tables(now)), pkid, current, password)
    {
      if pkid >= |users| { return Rejected(UserNotFound); }
      if current != users[pkid].password { return Rejected(InvalidCurrentPassword); }
      users := users[pkid := users[pkid].(password := password, tokenVersion := users[pkid].tokenVersion + 1)];
      RevokeAllSessions(pkid, now);
      reply := Done;
    }
  }
}
