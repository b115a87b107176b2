/** What holds of the sign-in tables in every reachable state. */
module SignInInvariant {
  import opened Prelude
  import opened SignIn

  type Devices = map<DeviceId, DeviceRow>
  type RefreshTable = map<Digest, RefreshRow>
  type AccessTable = map<Jti, AccessRow>

  predicate LiveRefresh(refresh: RefreshTable, t: Digest, d: DeviceId) {
    t in refresh && !refresh[t].revoked && refresh[t].device == Some(d)
  }

  predicate LiveAccess(access: AccessTable, t: Jti, d: DeviceId) {
    t in access && !access[t].revoked && access[t].device == Some(d)
  }

  predicate Ended(devices: Devices, d: DeviceId) { d in devices && devices[d].revokedAt.Some? }

  /** Token rows belong to people and devices that exist, and a device's tokens to its own person. */
  ghost predicate TokensOwned(users: set<UserId>, devices: Devices, refresh: RefreshTable, access: AccessTable) {
    && (forall d | d in devices :: devices[d].user in users)
    && (forall t | t in refresh :: refresh[t].user in users)
    && (forall t | t in refresh && refresh[t].device.Some? ::
          refresh[t].device.value in devices && devices[refresh[t].device.value].user == refresh[t].user)
    && (forall t | t in refresh :: refresh[t].client == Desktop <==> refresh[t].device.Some?)
    && (forall t | t in access && access[t].device.Some? ::
          access[t].device.value in devices && devices[access[t].device.value].user == access[t].user)
  }

  ghost predicate OneLiveRefresh(refresh: RefreshTable) {
    forall t, u, d | LiveRefresh(refresh, t, d) && LiveRefresh(refresh, u, d) :: t == u
  }

  ghost predicate EndedHasNoTokens(devices: Devices, refresh: RefreshTable, access: AccessTable) {
    && (forall t, d | Ended(devices, d) :: !LiveRefresh(refresh, t, d))
    && (forall t, d | Ended(devices, d) :: !LiveAccess(access, t, d))
  }

  ghost predicate TokensOk(db: Db) {
    && TokensOwned(db.users, db.devices, db.refresh, db.access)
    && OneLiveRefresh(db.refresh)
    && EndedHasNoTokens(db.devices, db.refresh, db.access)
  }

  /** A code's fields are set step by step with its status. */
  ghost predicate CodeRowOk(users: set<UserId>, devices: Devices, row: CodeRow) {
    && (row.user.Some? <==> row.codeHash.Some?)
    && (row.user.Some? ==> row.user.value in users)
    && (row.status == Pending ==> row.user.None?)
    && (row.status in {Approved, Exchanged} ==> row.user.Some?)
    && (row.status == Exchanged <==> row.device.Some?)
    && (row.device.Some? ==> row.device.value in devices && row.user == Some(devices[row.device.value].user))
  }

  predicate MadeBy(codes: map<CodeId, CodeRow>, d: DeviceId, id: CodeId) { id in codes && codes[id].device == Some(d) }

  /** Exchanged codes and devices correspond one to one. */
  ghost predicate CodesMatchDevices(codes: map<CodeId, CodeRow>, devices: Devices) {
    && (forall d | d in devices :: exists id :: MadeBy(codes, d, id))
    && (forall id, other, d | MadeBy(codes, d, id) && MadeBy(codes, d, other) :: id == other)
  }

  ghost predicate HashesUnique(codes: map<CodeId, CodeRow>) {
    forall id, other, digest | HasHash(codes, id, digest) && HasHash(codes, other, digest) :: id == other
  }

  /** A plain code waits only for its own row, once approved. */
  ghost predicate PendingOk(h: Hashes, codes: map<CodeId, CodeRow>, pending: map<CodeId, Secret>) {
    forall id | id in pending :: HasHash(codes, id, h.token(pending[id]))
  }

  ghost predicate CodesOk(h: Hashes, db: Db) {
    && (forall id | id in db.codes :: CodeRowOk(db.users, db.devices, db.codes[id]))
    && CodesMatchDevices(db.codes, db.devices)
    && HashesUnique(db.codes)
    && PendingOk(h, db.codes, db.pending)
  }

  ghost predicate Inv(h: Hashes, db: Db) { TokensOk(db) && CodesOk(h, db) }

  // ----- tokens -----

  /** The same device for the same person, whatever else changed. */
  ghost predicate SameOwners(before: Devices, after: Devices) {
    before.Keys == after.Keys && forall d | d in before :: after[d].user == before[d].user
  }

  lemma IssueKeepsTokens(h: Hashes, db: Db, user: UserId, device: DeviceId, raw: Secret, jti: Jti, now: int)
    requires TokensOk(db) && device in db.devices && db.devices[device].user == user
    requires db.devices[device].revokedAt.None? && h.token(raw) !in db.refresh
    requires forall t :: !LiveRefresh(db.refresh, t, device)
    ensures TokensOk(Issue(h, db, user, device, raw, jti, now))
    ensures SameOwners(db.devices, Issue(h, db, user, device, raw, jti, now).devices)
  {
    var after := Issue(h, db, user, device, raw, jti, now);
    forall t, d | LiveRefresh(after.refresh, t, d) && t != h.token(raw) ensures LiveRefresh(db.refresh, t, d) {
    }
    forall t, d | LiveAccess(after.access, t, d) && t != jti ensures LiveAccess(db.access, t, d) {
    }
    forall d | Ended(after.devices, d) ensures Ended(db.devices, d) && d != device {
    }
  }

  lemma IssueWebKeepsTokens(h: Hashes, db: Db, user: UserId, raw: Secret, jti: Jti, now: int)
    requires TokensOk(db) && user in db.users
    ensures TokensOk(IssueWeb(h, db, user, raw, jti, now))
  {
    var after := IssueWeb(h, db, user, raw, jti, now);
    forall t, d | LiveRefresh(after.refresh, t, d) ensures LiveRefresh(db.refresh, t, d) {
    }
    forall t, d | LiveAccess(after.access, t, d) ensures LiveAccess(db.access, t, d) {
    }
  }

  /** Token rows that only lose their liveness. */
  ghost predicate OnlyRevoked(db: Db, after: Db) {
    && after.refresh.Keys == db.refresh.Keys && after.access.Keys == db.access.Keys
    && (forall t | t in db.refresh :: after.refresh[t].(revoked := false) == db.refresh[t].(revoked := false)
          && (db.refresh[t].revoked ==> after.refresh[t].revoked))
    && (forall t | t in db.access :: after.access[t].(revoked := false) == db.access[t].(revoked := false)
          && (db.access[t].revoked ==> after.access[t].revoked))
  }

  lemma OnlyRevokedLive(db: Db, after: Db)
    requires OnlyRevoked(db, after)
    ensures forall t, d | LiveRefresh(after.refresh, t, d) :: LiveRefresh(db.refresh, t, d)
    ensures forall t, d | LiveAccess(after.access, t, d) :: LiveAccess(db.access, t, d)
  {
    forall t, d | LiveRefresh(after.refresh, t, d) ensures LiveRefresh(db.refresh, t, d) {
      assert after.refresh[t].(revoked := false) == db.refresh[t].(revoked := false);
    }
    forall t, d | LiveAccess(after.access, t, d) ensures LiveAccess(db.access, t, d) {
      assert after.access[t].(revoked := false) == db.access[t].(revoked := false);
    }
  }

  lemma OnlyRevokedOwned(db: Db, after: Db)
    requires TokensOwned(db.users, db.devices, db.refresh, db.access) && OnlyRevoked(db, after)
    requires after.users == db.users && SameOwners(db.devices, after.devices)
    ensures TokensOwned(after.users, after.devices, after.refresh, after.access)
  {
    forall t | t in after.refresh
      ensures after.refresh[t].user == db.refresh[t].user && after.refresh[t].device == db.refresh[t].device
      ensures after.refresh[t].client == db.refresh[t].client
    {
      assert after.refresh[t].(revoked := false) == db.refresh[t].(revoked := false);
    }
    forall t | t in after.access
      ensures after.access[t].user == db.access[t].user && after.access[t].device == db.access[t].device
    {
      assert after.access[t].(revoked := false) == db.access[t].(revoked := false);
    }
  }

  lemma RevokingKeepsTokens(db: Db, after: Db)
    requires TokensOk(db) && OnlyRevoked(db, after) && after.users == db.users && SameOwners(db.devices, after.devices)
    requires forall d | Ended(after.devices, d) && !Ended(db.devices, d) ::
      (forall t :: !LiveRefresh(after.refresh, t, d)) && (forall t :: !LiveAccess(after.access, t, d))
    ensures TokensOk(after)
  {
    hide OnlyRevoked, TokensOwned, Ended, LiveRefresh, LiveAccess;
    OnlyRevokedLive(db, after);
    OnlyRevokedOwned(db, after);
  }

  lemma RevokeDeviceKeepsTokens(db: Db, device: DeviceId, now: int)
    requires TokensOk(db) && device in db.devices
    ensures var after := RevokeDevice(db, device, now);
      && TokensOk(after) && OnlyRevoked(db, after) && SameOwners(db.devices, after.devices)
      && Ended(after.devices, device)
  {
    hide TokensOk;
    RevokingKeepsTokens(db, RevokeDevice(db, device, now));
  }

  lemma RevokeUserKeepsTokens(db: Db, user: UserId)
    requires TokensOk(db)
    ensures TokensOk(RevokeUser(db, user)) && OnlyRevoked(db, RevokeUser(db, user))
  {
    hide TokensOk;
    RevokingKeepsTokens(db, RevokeUser(db, user));
  }

  lemma SpendKeepsTokens(db: Db, t: Digest)
    requires TokensOk(db) && t in db.refresh
    ensures TokensOk(Spend(db, t)) && OnlyRevoked(db, Spend(db, t))
    ensures db.refresh[t].device.Some? && !db.refresh[t].revoked ==>
      forall u :: !LiveRefresh(Spend(db, t).refresh, u, db.refresh[t].device.value)
  {
    var after := Spend(db, t);
    RevokingKeepsTokens(db, after);
    if db.refresh[t].device.Some? && !db.refresh[t].revoked {
      var d := db.refresh[t].device.value;
      forall u ensures !LiveRefresh(after.refresh, u, d) {
        if LiveRefresh(after.refresh, u, d) {
          assert LiveRefresh(db.refresh, u, d) && LiveRefresh(db.refresh, t, d);
        }
      }
    }
  }

  // ----- codes -----

  /** Codes do not care about the tokens, or when a device was seen or revoked. */
  lemma OwnersKeepCodes(h: Hashes, db: Db, after: Db)
    requires CodesOk(h, db) && SameOwners(db.devices, after.devices)
    requires after.codes == db.codes && after.pending == db.pending && db.users <= after.users
    ensures CodesOk(h, after)
  {
    hide HashesUnique, PendingOk, MadeBy;
  }

  /** A code row that moves on without getting a device, and its entry among the pending codes. */
  lemma CodeMoves(h: Hashes, db: Db, id: CodeId, row: CodeRow, pending: map<CodeId, Secret>)
    requires CodesOk(h, db)
    requires CodeRowOk(db.users, db.devices, row) && row.device.None? && (id in db.codes ==> db.codes[id].device.None?)
    requires row.codeHash.Some? ==> forall other | HasHash(db.codes, other, row.codeHash.value) :: other == id
    requires forall other | other in pending && other != id :: other in db.pending && pending[other] == db.pending[other]
    requires id in pending ==> row.codeHash == Some(h.token(pending[id]))
    ensures CodesOk(h, db.(codes := db.codes[id := row], pending := pending))
  {
    var codes := db.codes[id := row];
    forall other, digest | other != id ensures HasHash(codes, other, digest) == HasHash(db.codes, other, digest) {
    }
    forall other, d ensures MadeBy(codes, d, other) == MadeBy(db.codes, d, other) {
    }
  }

  lemma ExpiringKeepsCodes(h: Hashes, db: Db, id: CodeId, now: int)
    requires CodesOk(h, db) && id in db.codes
    ensures CodesOk(h, db.(codes := db.codes[id := ExpireIfDue(db.codes[id], now)]))
  {
    hide PendingOk, CodesMatchDevices;
    var row := ExpireIfDue(db.codes[id], now);
    assert CodeRowOk(db.users, db.devices, db.codes[id]);
    if row == db.codes[id] {
      assert db.codes[id := row] == db.codes;
      return;
    }
    if row.codeHash.Some? { assert HasHash(db.codes, id, row.codeHash.value); }
    PendingHash(h, db, id);
    CodeMoves(h, db, id, row, db.pending);
  }

  lemma PendingHash(h: Hashes, db: Db, id: CodeId)
    requires PendingOk(h, db.codes, db.pending) && id in db.codes
    ensures id in db.pending ==> db.codes[id].codeHash == Some(h.token(db.pending[id]))
  {
  }

  /** Exchanging pairs the code with a device that did not exist before. */
  lemma PairKeepsCodes(h: Hashes, db: Db, id: CodeId, device: DeviceId, row: DeviceRow)
    requires CodesOk(h, db) && id in db.codes && db.codes[id].status == Approved
    requires device !in db.devices && db.codes[id].user == Some(row.user)
    ensures CodesOk(h, db.(
      devices := db.devices[device := row],
      codes := db.codes[id := db.codes[id].(status := Exchanged, device := Some(device))],
      pending := db.pending - {id}))
  {
    var codes := db.codes[id := db.codes[id].(status := Exchanged, device := Some(device))];
    var devices := db.devices[device := row];
    PairKeepsMatch(h, db, id, device, row);
    forall other, digest ensures HasHash(codes, other, digest) == HasHash(db.codes, other, digest) {
    }
    forall other | other in codes ensures CodeRowOk(db.users, devices, codes[other]) {
      assert CodeRowOk(db.users, db.devices, db.codes[other]);
    }
  }

  lemma PairKeepsMatch(h: Hashes, db: Db, id: CodeId, device: DeviceId, row: DeviceRow)
    requires CodesOk(h, db) && id in db.codes && db.codes[id].status == Approved && device !in db.devices
    ensures CodesMatchDevices(db.codes[id := db.codes[id].(status := Exchanged, device := Some(device))], db.devices[device := row])
  {
    hide HashesUnique, PendingOk;
    var codes := db.codes[id := db.codes[id].(status := Exchanged, device := Some(device))];
    assert CodeRowOk(db.users, db.devices, db.codes[id]);
    forall other, d | other != id ensures MadeBy(codes, d, other) == MadeBy(db.codes, d, other) {
    }
    forall other | other in db.codes ensures db.codes[other].device != Some(device) {
      assert CodeRowOk(db.users, db.devices, db.codes[other]);
    }
    assert MadeBy(codes, device, id);
    forall d | d in db.devices ensures exists other :: MadeBy(codes, d, other) {
      var other :| MadeBy(db.codes, d, other);
      assert MadeBy(codes, d, other);
    }
  }

  lemma NewDeviceKeepsTokens(db: Db, after: Db, device: DeviceId)
    requires TokensOk(db) && device !in db.devices && device in after.devices && after.devices[device].user in db.users
    requires after.devices == db.devices[device := after.devices[device]] && after.devices[device].revokedAt.None?
    requires after.refresh == db.refresh && after.access == db.access && after.users == db.users
    ensures TokensOk(after) && forall t :: !LiveRefresh(after.refresh, t, device)
  {
  }

  lemma ExchangingKeeps(h: Hashes, db: Db, id: CodeId, user: UserId, device: DeviceId, raw: Secret, jti: Jti, now: int)
    requires Inv(h, db) && id in db.codes && db.codes[id].status == Approved && db.codes[id].user == Some(user)
    requires user in db.users && device !in db.devices && h.token(raw) !in db.refresh && jti !in db.access
    ensures Inv(h, Exchanging(h, db, id, user, device, raw, jti, now))
  {
    hide TokensOk, CodesOk;
    var row := DeviceRow(user, db.codes[id].info, now, None);
    var added := db.(
      devices := db.devices[device := row],
      codes := db.codes[id := db.codes[id].(status := Exchanged, device := Some(device))],
      pending := db.pending - {id});
    PairKeepsCodes(h, db, id, device, row);
    NewDeviceKeepsTokens(db, added, device);
    IssueKeepsTokens(h, added, user, device, raw, jti, now);
    OwnersKeepCodes(h, added, Issue(h, added, user, device, raw, jti, now));
  }

  // ----- every request keeps the invariant -----

  lemma CodeRequestKeeps(h: Hashes, db: Db, op: Op)
    requires Inv(h, db) && Possible(h, db, op)
    requires op.CreateCodeOp? || op.PollOp? || op.ApproveOp? || op.DenyOp?
    ensures Inv(h, Run(h, db, op).db)
  {
    hide TokensOwned, OneLiveRefresh, EndedHasNoTokens, CodesMatchDevices;
    match op
    case CreateCodeOp(id, challenge, redirect, info, now) =>
      CodeMoves(h, db, id, CodeRow(Pending, challenge, None, redirect, info, None, None, now + CODE_TTL), db.pending);
    case PollOp(id, now) =>
      if id in db.codes {
        ExpiringKeepsCodes(h, db, id, now);
        PopKeepsCodes(h, db.(codes := db.codes[id := ExpireIfDue(db.codes[id], now)]), id);
      }
    case ApproveOp(id, user, session, code, now) =>
      if id in db.codes && ValidAccess(db.access, session, user, now) && user in db.users {
        ExpiringKeepsCodes(h, db, id, now);
        var row := ExpireIfDue(db.codes[id], now);
        if row.status == Pending {
          assert CodeRowOk(db.users, db.devices, db.codes[id]);
          CodeMoves(h, db, id, row.(status := Approved, user := Some(user), codeHash := Some(h.token(code))), db.pending[id := code]);
        }
      }
    case DenyOp(id, now) =>
      if id in db.codes {
        ExpiringKeepsCodes(h, db, id, now);
        if ExpireIfDue(db.codes[id], now).status == Pending {
          DenyingKeepsCodes(h, db, id);
        }
      }
  }

  lemma PopKeepsCodes(h: Hashes, db: Db, id: CodeId)
    requires CodesOk(h, db)
    ensures CodesOk(h, db.(pending := db.pending - {id}))
  {
    hide CodesMatchDevices, HashesUnique, CodeRowOk;
  }

  lemma DenyingKeepsCodes(h: Hashes, db: Db, id: CodeId)
    requires CodesOk(h, db) && id in db.codes && db.codes[id].status in {Pending, Approved}
    ensures CodesOk(h, db.(codes := db.codes[id := db.codes[id].(status := Denied)]))
  {
    hide CodesMatchDevices;
    assert CodeRowOk(db.users, db.devices, db.codes[id]);
    var row := db.codes[id].(status := Denied);
    if row.codeHash.Some? { assert HasHash(db.codes, id, row.codeHash.value); }
    PendingHash(h, db, id);
    CodeMoves(h, db, id, row, db.pending);
  }

  lemma ExchangeKeeps(h: Hashes, db: Db, op: Op)
    requires Inv(h, db) && op.ExchangeOp? && Possible(h, db, op)
    ensures Inv(h, Run(h, db, op).db)
  {
    hide TokensOwned, OneLiveRefresh, EndedHasNoTokens, CodesMatchDevices, HashesUnique, PendingOk, Exchanging;
    var found := FindCode(db.codes, h.token(op.code));
    if found.Some? {
      var id := found.value;
      ExpiringKeepsCodes(h, db, id, op.now);
      var row := ExpireIfDue(db.codes[id], op.now);
      if row.status == Approved {
        assert row == db.codes[id];
        if h.s256(op.verifier) != row.challenge {
          DenyingKeepsCodes(h, db, id);
        } else if row.user.Some? && row.user.value in db.users {
          ExchangingKeeps(h, db, id, row.user.value, op.device, op.raw, op.jti, op.now);
        }
      }
    }
  }

  lemma RefreshKeeps(h: Hashes, db: Db, op: Op)
    requires Inv(h, db) && op.RefreshOp? && Possible(h, db, op)
    ensures Inv(h, Run(h, db, op).db)
  {
    hide CodesOk, OneLiveRefresh, EndedHasNoTokens;
    var t := h.token(op.presented);
    if t in db.refresh && db.refresh[t].device.Some? && db.refresh[t].device.value in db.devices {
      var device := db.refresh[t].device.value;
      RevokeDeviceKeepsTokens(db, device, op.now);
      OwnersKeepCodes(h, db, RevokeDevice(db, device, op.now));
      if !db.refresh[t].revoked && db.devices[device].revokedAt.None? {
        SpendKeepsTokens(db, t);
        IssueKeepsTokens(h, Spend(db, t), db.refresh[t].user, device, op.raw, op.jti, op.now);
        OwnersKeepCodes(h, db, Issue(h, Spend(db, t), db.refresh[t].user, device, op.raw, op.jti, op.now));
      }
    }
  }

  lemma OtherRequestKeeps(h: Hashes, db: Db, op: Op)
    requires Inv(h, db) && Possible(h, db, op)
    requires op.LogoutOp? || op.RemoveDeviceOp? || op.WebSignInOp? || op.WebRotateOp? || op.WebSignOutOp?
    ensures Inv(h, Run(h, db, op).db)
  {
    hide CodesOk, OneLiveRefresh, EndedHasNoTokens, OnlyRevoked, TokensOwned;
    var after := Run(h, db, op).db;
    match op {
      case LogoutOp(presented, now) =>
        var t := h.token(presented);
        if t in db.refresh && db.refresh[t].device.Some? && db.refresh[t].device.value in db.devices {
          RevokeDeviceKeepsTokens(db, db.refresh[t].device.value, now);
        }
      case RemoveDeviceOp(device, user, now) =>
        if device in db.devices { RevokeDeviceKeepsTokens(db, device, now); }
      case WebSignInOp(user, raw, jti, now) =>
        NewUserKeepsTokens(db, user);
        IssueWebKeepsTokens(h, db.(users := db.users + {user}), user, raw, jti, now);
      case WebRotateOp(presented, raw, jti, now) =>
        var t := h.token(presented);
        if ValidRefresh(db, t, now) && db.refresh[t].user in db.users {
          SpendKeepsTokens(db, t);
          IssueWebKeepsTokens(h, Spend(db, t), db.refresh[t].user, raw, jti, now);
        }
      case WebSignOutOp(bearer, refresh, now) =>
        if bearer.Some? { RevokeUserKeepsTokens(db, bearer.value); }
        else if refresh.Some? && ValidRefresh(db, h.token(refresh.value), now) {
          RevokeUserKeepsTokens(db, db.refresh[h.token(refresh.value)].user);
        }
    }
    OwnersKeepCodes(h, db, after);
  }

  lemma NewUserKeepsTokens(db: Db, user: UserId)
    requires TokensOk(db)
    ensures TokensOk(db.(users := db.users + {user}))
  {
    hide OneLiveRefresh, EndedHasNoTokens;
  }

  lemma StepKeeps(h: Hashes, db: Db, op: Op)
    requires Inv(h, db) && Possible(h, db, op)
    ensures Inv(h, Run(h, db, op).db)
  {
    hide Inv, Possible, Run;
    match op
    case ExchangeOp(_, _, _, _, _, _) => ExchangeKeeps(h, db, op);
    case RefreshOp(_, _, _, _) => RefreshKeeps(h, db, op);
    case CreateCodeOp(_, _, _, _, _) => CodeRequestKeeps(h, db, op);
    case PollOp(_, _) => CodeRequestKeeps(h, db, op);
    case ApproveOp(_, _, _, _, _) => CodeRequestKeeps(h, db, op);
    case DenyOp(_, _) => CodeRequestKeeps(h, db, op);
    case _ => OtherRequestKeeps(h, db, op);
  }

  lemma {:induction false} Reachable(h: Hashes, ops: seq<Op>)
    requires History(h, ops)
    ensures Inv(h, After(h, ops))
  {
    if ops != [] {
      hide Inv, Possible, Run;
      Reachable(h, ops[..|ops| - 1]);
      StepKeeps(h, After(h, ops[..|ops| - 1]), ops[|ops| - 1]);
    }
  }
}
