/**
 Desktop sign-in: the app asks for a code, somebody signed in lets it through, and the first exchange of it gives a
 new device its tokens, which rotate. The website's own tokens share the tables.

 Ids, codes, tokens and times are parameters. hash_token and the S256 transform of RFC 7636
 (section 4.2) are arbitrary functions.
 */
module SignIn {
  import opened Prelude

  type UserId = string
  type CodeId = string
  type DeviceId = string
  type Jti = string
  type Secret = string
  type Digest = string

  const CODE_TTL: nat := 10 * 60
  const ACCESS_TTL: nat := 15 * 60
  const REFRESH_TTL: nat := 30 * 24 * 60 * 60

  datatype Hashes = Hashes(token: Secret -> Digest, s256: string -> string)

  datatype Status = Pending | Approved | Exchanged | Denied | Expired
  datatype Client = Web | Desktop
  datatype DeviceInfo = DeviceInfo(name: string, platform: string, appVersion: string)

  datatype CodeRow = CodeRow(
    status: Status, challenge: string, codeHash: Option<Digest>, redirect: string, info: DeviceInfo,
    user: Option<UserId>, device: Option<DeviceId>, expiresAt: int)
  datatype DeviceRow = DeviceRow(user: UserId, info: DeviceInfo, lastSeenAt: int, revokedAt: Option<int>)
  datatype RefreshRow = RefreshRow(user: UserId, expiresAt: int, revoked: bool, client: Client, device: Option<DeviceId>)
  datatype AccessRow = AccessRow(user: UserId, expiresAt: int, revoked: bool, device: Option<DeviceId>)

  /** pending is the in-memory store of plain codes waiting for a poll. */
  datatype Db = Db(
    users: set<UserId>,
    codes: map<CodeId, CodeRow>,
    devices: map<DeviceId, DeviceRow>,
    refresh: map<Digest, RefreshRow>,
    access: map<Jti, AccessRow>,
    pending: map<CodeId, Secret>)

  const EMPTY := Db({}, map[], map[], map[], map[], map[])

  datatype Reply =
    | Created(id: CodeId)
    | CodeStatus(status: Status, carried: Option<Secret>)
    | Approval(code: Secret)
    | Denial
    | Tokens(device: Option<DeviceId>, refresh: Secret, jti: Jti)
    | BadCode
    | SignInAgain
    | SessionEnded
    | Done
    | NotSignedIn
    | NotFound
    | AlreadyAnswered

  datatype Outcome = Outcome(db: Db, reply: Reply)

  // ----- codes -----

  function ExpireIfDue(row: CodeRow, now: int): CodeRow {
    if row.status in {Pending, Approved} && row.expiresAt < now then row.(status := Expired) else row
  }

  function CreateCode(db: Db, id: CodeId, challenge: string, redirect: string, info: DeviceInfo, now: int): Outcome {
    var row := CodeRow(Pending, challenge, None, redirect, info, None, None, now + CODE_TTL);
    Outcome(db.(codes := db.codes[id := row]), Created(id))
  }

  function Poll(db: Db, id: CodeId, now: int): Outcome {
    if id !in db.codes then Outcome(db, NotFound) else
      var row := ExpireIfDue(db.codes[id], now);
      var checked := db.(codes := db.codes[id := row]);
      if row.status == Approved && row.codeHash.Some? && id in db.pending then
        Outcome(checked.(pending := db.pending - {id}), CodeStatus(Approved, Some(db.pending[id])))
      else
        Outcome(checked, CodeStatus(row.status, None))
  }

  /** A live access token of the person, whatever it was issued for. */
  predicate ValidAccess(access: map<Jti, AccessRow>, jti: Jti, user: UserId, now: int) {
    jti in access && !access[jti].revoked && access[jti].user == user && access[jti].expiresAt >= now
  }

  /** session is the access token the request comes with, or the one just rotated for it. */
  function Approve(h: Hashes, db: Db, id: CodeId, user: UserId, session: Jti, code: Secret, now: int): Outcome {
    if !ValidAccess(db.access, session, user, now) || user !in db.users then Outcome(db, NotSignedIn)
    else if id !in db.codes then Outcome(db, NotFound) else
      var row := ExpireIfDue(db.codes[id], now);
      if row.status != Pending then Outcome(db.(codes := db.codes[id := row]), AlreadyAnswered) else
        var approved := row.(status := Approved, user := Some(user), codeHash := Some(h.token(code)));
        Outcome(db.(codes := db.codes[id := approved], pending := db.pending[id := code]), Approval(code))
  }

  function Deny(db: Db, id: CodeId, now: int): Outcome {
    if id !in db.codes then Outcome(db, NotFound) else
      var row := ExpireIfDue(db.codes[id], now);
      if row.status != Pending then Outcome(db.(codes := db.codes[id := row]), AlreadyAnswered)
      else Outcome(db.(codes := db.codes[id := row.(status := Denied)]), Denial)
  }

  predicate HasHash(codes: map<CodeId, CodeRow>, id: CodeId, digest: Digest) {
    id in codes && codes[id].codeHash == Some(digest)
  }

  /** The code with this hash, if there is one. */
  ghost function FindCode(codes: map<CodeId, CodeRow>, digest: Digest): Option<CodeId> {
    if id :| HasHash(codes, id, digest) then Some(id) else None
  }

  // ----- tokens -----

  /** A new pair of tokens for a device. */
  function Issue(h: Hashes, db: Db, user: UserId, device: DeviceId, raw: Secret, jti: Jti, now: int): Db
    requires device in db.devices
  {
    db.(access := db.access[jti := AccessRow(user, now + ACCESS_TTL, false, Some(device))],
      refresh := db.refresh[h.token(raw) := RefreshRow(user, now + REFRESH_TTL, false, Desktop, Some(device))],
      devices := db.devices[device := db.devices[device].(lastSeenAt := now)])
  }

  function IssueWeb(h: Hashes, db: Db, user: UserId, raw: Secret, jti: Jti, now: int): Db {
    db.(access := db.access[jti := AccessRow(user, now + ACCESS_TTL, false, None)],
      refresh := db.refresh[h.token(raw) := RefreshRow(user, now + REFRESH_TTL, false, Web, None)])
  }

  function Spend(db: Db, t: Digest): Db
    requires t in db.refresh
  {
    db.(refresh := db.refresh[t := db.refresh[t].(revoked := true)])
  }

  function RevokeDevice(db: Db, device: DeviceId, now: int): Db
    requires device in db.devices
  {
    var row := db.devices[device];
    db.(devices := db.devices[device := if row.revokedAt.None? then row.(revokedAt := Some(now)) else row],
      refresh := map t | t in db.refresh ::
        if db.refresh[t].device == Some(device) then db.refresh[t].(revoked := true) else db.refresh[t],
      access := map t | t in db.access ::
        if db.access[t].device == Some(device) then db.access[t].(revoked := true) else db.access[t])
  }

  function RevokeUser(db: Db, user: UserId): Db {
    db.(
      refresh := map t | t in db.refresh ::
        if db.refresh[t].user == user then db.refresh[t].(revoked := true) else db.refresh[t],
      access := map t | t in db.access ::
        if db.access[t].user == user then db.access[t].(revoked := true) else db.access[t])
  }

  /** A new device for the approver of a code, and the code marked exchanged. */
  function Exchanging(h: Hashes, db: Db, id: CodeId, user: UserId, device: DeviceId, raw: Secret, jti: Jti, now: int): Db
    requires id in db.codes
  {
    var row := db.codes[id];
    var added := db.(
      devices := db.devices[device := DeviceRow(user, row.info, now, None)],
      codes := db.codes[id := row.(status := Exchanged, device := Some(device))],
      pending := db.pending - {id});
    Issue(h, added, user, device, raw, jti, now)
  }

  ghost function Exchange(h: Hashes, db: Db, code: Secret, verifier: string, device: DeviceId, raw: Secret, jti: Jti, now: int): Outcome {
    var found := FindCode(db.codes, h.token(code));
    if found.None? then Outcome(db, BadCode) else
      var id := found.value;
      var row := ExpireIfDue(db.codes[id], now);
      if row.status != Approved then Outcome(db.(codes := db.codes[id := row]), BadCode)
      else if h.s256(verifier) != row.challenge then
        Outcome(db.(codes := db.codes[id := row.(status := Denied)]), BadCode)
      else if row.user.None? || row.user.value !in db.users then Outcome(db, BadCode)
      else Outcome(Exchanging(h, db, id, row.user.value, device, raw, jti, now), Tokens(Some(device), raw, jti))
  }

  function Refresh(h: Hashes, db: Db, presented: Secret, raw: Secret, jti: Jti, now: int): Outcome {
    var t := h.token(presented);
    if t !in db.refresh || db.refresh[t].client != Desktop || db.refresh[t].device.None?
      || db.refresh[t].device.value !in db.devices
    then Outcome(db, SignInAgain)
    else
      var row := db.refresh[t];
      var device := row.device.value;
      if row.revoked then Outcome(RevokeDevice(db, device, now), SessionEnded)
      else if db.devices[device].revokedAt.Some? || row.expiresAt < now || row.user !in db.users then Outcome(db, SignInAgain)
      else
        Outcome(Issue(h, Spend(db, t), row.user, device, raw, jti, now), Tokens(Some(device), raw, jti))
  }

  function Logout(h: Hashes, db: Db, presented: Secret, now: int): Outcome {
    var t := h.token(presented);
    if t in db.refresh && db.refresh[t].device.Some? && db.refresh[t].device.value in db.devices
    then Outcome(RevokeDevice(db, db.refresh[t].device.value, now), Done)
    else Outcome(db, Done)
  }

  function RemoveDevice(db: Db, device: DeviceId, user: UserId, now: int): Outcome {
    if device !in db.devices || db.devices[device].user != user then Outcome(db, NotFound)
    else Outcome(RevokeDevice(db, device, now), Done)
  }

  // ----- the website's sessions, on the same tables -----

  predicate ValidRefresh(db: Db, t: Digest, now: int) {
    t in db.refresh && !db.refresh[t].revoked && db.refresh[t].expiresAt >= now
  }

  function WebSignIn(h: Hashes, db: Db, user: UserId, raw: Secret, jti: Jti, now: int): Outcome {
    Outcome(IssueWeb(h, db.(users := db.users + {user}), user, raw, jti, now), Tokens(None, raw, jti))
  }

  /** The website's rotation takes any live refresh token, and always gives website tokens. */
  function WebRotate(h: Hashes, db: Db, presented: Secret, raw: Secret, jti: Jti, now: int): Outcome {
    var t := h.token(presented);
    if !ValidRefresh(db, t, now) || db.refresh[t].user !in db.users then Outcome(db, SignInAgain)
    else
      var row := db.refresh[t];
      Outcome(IssueWeb(h, Spend(db, t), row.user, raw, jti, now), Tokens(None, raw, jti))
  }

  /** Signing out names the person by the access token, or else by a live refresh token. */
  function WebSignOut(h: Hashes, db: Db, bearer: Option<UserId>, presented: Option<Secret>, now: int): Outcome {
    if bearer.Some? then Outcome(RevokeUser(db, bearer.value), Done)
    else if presented.Some? && ValidRefresh(db, h.token(presented.value), now)
    then Outcome(RevokeUser(db, db.refresh[h.token(presented.value)].user), Done)
    else Outcome(db, Done)
  }

  // ----- runs -----

  datatype Op =
    | CreateCodeOp(id: CodeId, challenge: string, redirect: string, info: DeviceInfo, now: int)
    | PollOp(id: CodeId, now: int)
    | ApproveOp(id: CodeId, user: UserId, session: Jti, code: Secret, now: int)
    | DenyOp(id: CodeId, now: int)
    | ExchangeOp(code: Secret, verifier: string, device: DeviceId, raw: Secret, jti: Jti, now: int)
    | RefreshOp(presented: Secret, raw: Secret, jti: Jti, now: int)
    | LogoutOp(presented: Secret, now: int)
    | RemoveDeviceOp(device: DeviceId, user: UserId, now: int)
    | WebSignInOp(user: UserId, raw: Secret, jti: Jti, now: int)
    | WebRotateOp(presented: Secret, raw: Secret, jti: Jti, now: int)
    | WebSignOutOp(bearer: Option<UserId>, refresh: Option<Secret>, now: int)

  /** Generated ids, codes and tokens are new. */
  ghost predicate Possible(h: Hashes, db: Db, op: Op) {
    match op
    case CreateCodeOp(id, _, _, _, _) => id !in db.codes
    case PollOp(_, _) => true
    case ApproveOp(_, _, _, code, _) => forall id :: !HasHash(db.codes, id, h.token(code))
    case DenyOp(_, _) => true
    case ExchangeOp(_, _, device, raw, jti, _) => device !in db.devices && h.token(raw) !in db.refresh && jti !in db.access
    case RefreshOp(_, raw, jti, _) => h.token(raw) !in db.refresh && jti !in db.access
    case LogoutOp(_, _) => true
    case RemoveDeviceOp(_, _, _) => true
    case WebSignInOp(_, raw, jti, _) => h.token(raw) !in db.refresh && jti !in db.access
    case WebRotateOp(_, raw, jti, _) => h.token(raw) !in db.refresh && jti !in db.access
    case WebSignOutOp(_, _, _) => true
  }

  ghost function Run(h: Hashes, db: Db, op: Op): Outcome {
    match op
    case CreateCodeOp(id, challenge, redirect, info, now) => CreateCode(db, id, challenge, redirect, info, now)
    case PollOp(id, now) => Poll(db, id, now)
    case ApproveOp(id, user, session, code, now) => Approve(h, db, id, user, session, code, now)
    case DenyOp(id, now) => Deny(db, id, now)
    case ExchangeOp(code, verifier, device, raw, jti, now) => Exchange(h, db, code, verifier, device, raw, jti, now)
    case RefreshOp(presented, raw, jti, now) => Refresh(h, db, presented, raw, jti, now)
    case LogoutOp(presented, now) => Logout(h, db, presented, now)
    case RemoveDeviceOp(device, user, now) => RemoveDevice(db, device, user, now)
    case WebSignInOp(user, raw, jti, now) => WebSignIn(h, db, user, raw, jti, now)
    case WebRotateOp(presented, raw, jti, now) => WebRotate(h, db, presented, raw, jti, now)
    case WebSignOutOp(bearer, refresh, now) => WebSignOut(h, db, bearer, refresh, now)
  }

  ghost function After(h: Hashes, ops: seq<Op>): Db {
    if ops == [] then EMPTY else Run(h, After(h, ops[..|ops| - 1]), ops[|ops| - 1]).db
  }

  /** Every request of the run is possible where it stands. */
  ghost predicate History(h: Hashes, ops: seq<Op>) {
    ops == [] || (History(h, ops[..|ops| - 1]) && Possible(h, After(h, ops[..|ops| - 1]), ops[|ops| - 1]))
  }
}
