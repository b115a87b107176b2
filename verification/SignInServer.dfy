/** The sign-in handlers, which change the tables row by row. */
module SignInServer {
  import opened Prelude
  import opened SignIn
  import opened SignInInvariant

  /** The table with some of its rows revoked. */
  function RefreshRevoked(refresh: RefreshTable, rows: set<Digest>): RefreshTable {
    map t | t in refresh :: if t in rows then refresh[t].(revoked := true) else refresh[t]
  }

  function AccessRevoked(access: AccessTable, rows: set<Jti>): AccessTable {
    map t | t in access :: if t in rows then access[t].(revoked := true) else access[t]
  }

  class Server {
    const h: Hashes
    var users: set<UserId>
    var codes: map<CodeId, CodeRow>
    var devices: map<DeviceId, DeviceRow>
    var refresh: map<Digest, RefreshRow>
    var access: map<Jti, AccessRow>
    var pending: map<CodeId, Secret>

    ghost function Tables(): Db
      reads this
    {
      Db(users, codes, devices, refresh, access, pending)
    }

    ghost predicate Valid()
      reads this
    {
      Inv(h, Tables())
    }

    constructor (h: Hashes)
      ensures Valid() && Tables() == EMPTY && this.h == h
    {
      this.h := h;
      users, codes, devices, refresh, access, pending := {}, map[], map[], map[], map[], map[];
      new;
      Reachable(h, []);
    }

    method CreateCode(id: CodeId, challenge: string, redirect: string, info: DeviceInfo, now: int) returns (reply: Reply)
      requires Valid() && Possible(h, Tables(), CreateCodeOp(id, challenge, redirect, info, now))
      modifies this`codes
      ensures Outcome(Tables(), reply) == Run(h, old(Tables()), CreateCodeOp(id, challenge, redirect, info, now))
      ensures Valid()
    {
      hide Inv;
      StepKeeps(h, Tables(), CreateCodeOp(id, challenge, redirect, info, now));
      codes := codes[id := CodeRow(Pending, challenge, None, redirect, info, None, None, now + CODE_TTL)];
      reply := Created(id);
    }

    /** A code's row, marked expired if its time is over. */
    method Checked(id: CodeId, now: int) returns (row: CodeRow)
      requires id in codes
      modifies this`codes
      ensures row == ExpireIfDue(old(codes)[id], now) && codes == old(codes)[id := row]
    {
      if codes[id].status in {Pending, Approved} && codes[id].expiresAt < now {
        codes := codes[id := codes[id].(status := Expired)];
      }
      row := codes[id];
    }

    method CodeStatus(id: CodeId, now: int) returns (reply: Reply)
      requires Valid()
      modifies this`codes, this`pending
      ensures Outcome(Tables(), reply) == Run(h, old(Tables()), PollOp(id, now))
      ensures Valid()
    {
      hide Inv, ExpireIfDue;
      StepKeeps(h, Tables(), PollOp(id, now));
      if id !in codes {
        return NotFound;
      }
      var row := Checked(id, now);
      var carried := None;
      if row.status == Approved && row.codeHash.Some? && id in pending {
        carried := Some(pending[id]);
        pending := pending - {id};
      }
      reply := Reply.CodeStatus(row.status, carried);
    }

    method ApproveCode(id: CodeId, user: UserId, session: Jti, code: Secret, now: int) returns (reply: Reply)
      requires Valid() && Possible(h, Tables(), ApproveOp(id, user, session, code, now))
      modifies this`codes, this`pending
      ensures Outcome(Tables(), reply) == Run(h, old(Tables()), ApproveOp(id, user, session, code, now))
      ensures Valid()
    {
      hide Inv, ExpireIfDue;
      StepKeeps(h, Tables(), ApproveOp(id, user, session, code, now));
      if !ValidAccess(access, session, user, now) || user !in users {
        return NotSignedIn;
      }
      if id !in codes {
        return NotFound;
      }
      var row := Checked(id, now);
      if row.status != Pending {
        return AlreadyAnswered;
      }
      codes := codes[id := row.(status := Approved, user := Some(user), codeHash := Some(h.token(code)))];
      pending := pending[id := code];
      reply := Approval(code);
    }

    method DenyCode(id: CodeId, now: int) returns (reply: Reply)
      requires Valid()
      modifies this`codes
      ensures Outcome(Tables(), reply) == Run(h, old(Tables()), DenyOp(id, now))
      ensures Valid()
    {
      hide Inv, ExpireIfDue;
      StepKeeps(h, Tables(), DenyOp(id, now));
      if id !in codes {
        return NotFound;
      }
      var row := Checked(id, now);
      if row.status != Pending {
        return AlreadyAnswered;
      }
      codes := codes[id := row.(status := Denied)];
      reply := Denial;
    }

    method FindByHash(digest: Digest) returns (found: Option<CodeId>)
      requires HashesUnique(codes)
      ensures found == FindCode(codes, digest) && (found.Some? ==> found.value in codes)
    {
      var todo := codes.Keys;
      while todo != {}
        invariant todo <= codes.Keys
        invariant forall id | id in codes && id !in todo :: !HasHash(codes, id, digest)
        decreases |todo|
      {
        var id :| id in todo;
        if codes[id].codeHash == Some(digest) {
          assert HasHash(codes, id, digest);
          return Some(id);
        }
        todo := todo - {id};
      }
      found := None;
    }

    method IssueDeviceTokens(user: UserId, device: DeviceId, raw: Secret, jti: Jti, now: int) returns (reply: Reply)
      requires device in devices
      modifies this`access, this`refresh, this`devices
      ensures Tables() == Issue(h, old(Tables()), user, device, raw, jti, now) && reply == Tokens(Some(device), raw, jti)
    {
      access := access[jti := AccessRow(user, now + ACCESS_TTL, false, Some(device))];
      refresh := refresh[h.token(raw) := RefreshRow(user, now + REFRESH_TTL, false, Desktop, Some(device))];
      devices := devices[device := devices[device].(lastSeenAt := now)];
      reply := Tokens(Some(device), raw, jti);
    }

    method ExchangeCode(code: Secret, verifier: string, device: DeviceId, raw: Secret, jti: Jti, now: int) returns (reply: Reply)
      requires Valid() && Possible(h, Tables(), ExchangeOp(code, verifier, device, raw, jti, now))
      modifies this
      ensures Outcome(Tables(), reply) == Run(h, old(Tables()), ExchangeOp(code, verifier, device, raw, jti, now))
      ensures Valid()
    {
      hide Inv, Exchanging, FindCode, HashesUnique, Possible;
      UniqueHashes();
      StepKeeps(h, Tables(), ExchangeOp(code, verifier, device, raw, jti, now));
      var found := FindByHash(h.token(code));
      if found.None? {
        return BadCode;
      }
      var id := found.value;
      var row := Checked(id, now);
      if row.status != Approved {
        return BadCode;
      }
      if h.s256(verifier) != row.challenge {
        codes := codes[id := row.(status := Denied)];
        return BadCode;
      }
      assert codes == old(codes);
      if row.user.None? || row.user.value !in users {
        return BadCode;
      }
      reply := PairDevice(id, row.user.value, device, raw, jti, now);
    }

    lemma UniqueHashes()
      requires Valid()
      ensures HashesUnique(codes)
    {
    }

    /** The device of an accepted exchange, and its tokens. */
    method PairDevice(id: CodeId, user: UserId, device: DeviceId, raw: Secret, jti: Jti, now: int) returns (reply: Reply)
      requires id in codes
      modifies this
      ensures Tables() == Exchanging(h, old(Tables()), id, user, device, raw, jti, now) && reply == Tokens(Some(device), raw, jti)
    {
      hide Issue;
      devices := devices[device := DeviceRow(user, codes[id].info, now, None)];
      codes := codes[id := codes[id].(status := Exchanged, device := Some(device))];
      pending := pending - {id};
      reply := IssueDeviceTokens(user, device, raw, jti, now);
    }

    method MarkRefresh(rows: set<Digest>)
      requires rows <= refresh.Keys
      modifies this`refresh
      ensures refresh == RefreshRevoked(old(refresh), rows)
    {
      var todo := rows;
      while todo != {}
        invariant todo <= rows
        invariant refresh == RefreshRevoked(old(refresh), rows - todo)
        decreases |todo|
      {
        var t :| t in todo;
        refresh := refresh[t := refresh[t].(revoked := true)];
        todo := todo - {t};
      }
    }

    method MarkAccess(rows: set<Jti>)
      requires rows <= access.Keys
      modifies this`access
      ensures access == AccessRevoked(old(access), rows)
    {
      var todo := rows;
      while todo != {}
        invariant todo <= rows
        invariant access == AccessRevoked(old(access), rows - todo)
        decreases |todo|
      {
        var t :| t in todo;
        access := access[t := access[t].(revoked := true)];
        todo := todo - {t};
      }
    }

    method EndDevice(device: DeviceId, now: int)
      requires device in devices
      modifies this`devices, this`refresh, this`access
      ensures Tables() == SignIn.RevokeDevice(old(Tables()), device, now)
    {
      if devices[device].revokedAt.None? {
        devices := devices[device := devices[device].(revokedAt := Some(now))];
      }
      MarkRefresh(set t | t in refresh && refresh[t].device == Some(device) && !refresh[t].revoked);
      MarkAccess(set t | t in access && access[t].device == Some(device) && !access[t].revoked);
    }

    method RefreshDesktop(presented: Secret, raw: Secret, jti: Jti, now: int) returns (reply: Reply)
      requires Valid() && Possible(h, Tables(), RefreshOp(presented, raw, jti, now))
      modifies this`devices, this`refresh, this`access
      ensures Outcome(Tables(), reply) == Run(h, old(Tables()), RefreshOp(presented, raw, jti, now))
      ensures Valid()
    {
      hide Inv, Possible, SignIn.RevokeDevice, Issue;
      StepKeeps(h, Tables(), RefreshOp(presented, raw, jti, now));
      var t := h.token(presented);
      if t !in refresh || refresh[t].client != Desktop || refresh[t].device.None? {
        return SignInAgain;
      }
      var row := refresh[t];
      var device := row.device.value;
      if device !in devices {
        return SignInAgain;
      }
      if row.revoked {
        EndDevice(device, now);
        return SessionEnded;
      }
      if devices[device].revokedAt.Some? || row.expiresAt < now {
        return SignInAgain;
      }
      if row.user !in users {
        return SignInAgain;
      }
      refresh := refresh[t := row.(revoked := true)];
      reply := IssueDeviceTokens(row.user, device, raw, jti, now);
    }

    method LogoutDesktop(presented: Secret, now: int) returns (reply: Reply)
      requires Valid()
      modifies this`devices, this`refresh, this`access
      ensures Outcome(Tables(), reply) == Run(h, old(Tables()), LogoutOp(presented, now))
      ensures Valid()
    {
      hide Inv, SignIn.RevokeDevice;
      StepKeeps(h, Tables(), LogoutOp(presented, now));
      var t := h.token(presented);
      if t in refresh && refresh[t].device.Some? && refresh[t].device.value in devices {
        EndDevice(refresh[t].device.value, now);
      }
      reply := Done;
    }

    method RevokeDevice(device: DeviceId, user: UserId, now: int) returns (reply: Reply)
      requires Valid()
      modifies this`devices, this`refresh, this`access
      ensures Outcome(Tables(), reply) == Run(h, old(Tables()), RemoveDeviceOp(device, user, now))
      ensures Valid()
    {
      hide Inv, SignIn.RevokeDevice;
      StepKeeps(h, Tables(), RemoveDeviceOp(device, user, now));
      if device !in devices || devices[device].user != user {
        return NotFound;
      }
      EndDevice(device, now);
      reply := Done;
    }

    method IssueWebTokens(user: UserId, raw: Secret, jti: Jti, now: int) returns (reply: Reply)
      modifies this`access, this`refresh
      ensures Tables() == IssueWeb(h, old(Tables()), user, raw, jti, now) && reply == Tokens(None, raw, jti)
    {
      access := access[jti := AccessRow(user, now + ACCESS_TTL, false, None)];
      refresh := refresh[h.token(raw) := RefreshRow(user, now + REFRESH_TTL, false, Web, None)];
      reply := Tokens(None, raw, jti);
    }

    method SignInWeb(user: UserId, raw: Secret, jti: Jti, now: int) returns (reply: Reply)
      requires Valid() && Possible(h, Tables(), WebSignInOp(user, raw, jti, now))
      modifies this`users, this`access, this`refresh
      ensures Outcome(Tables(), reply) == Run(h, old(Tables()), WebSignInOp(user, raw, jti, now))
      ensures Valid()
    {
      hide Inv, Possible, IssueWeb;
      StepKeeps(h, Tables(), WebSignInOp(user, raw, jti, now));
      users := users + {user};
      reply := IssueWebTokens(user, raw, jti, now);
    }

    method RotateRefresh(presented: Secret, raw: Secret, jti: Jti, now: int) returns (reply: Reply)
      requires Valid() && Possible(h, Tables(), WebRotateOp(presented, raw, jti, now))
      modifies this`access, this`refresh
      ensures Outcome(Tables(), reply) == Run(h, old(Tables()), WebRotateOp(presented, raw, jti, now))
      ensures Valid()
    {
      hide Inv, Possible, IssueWeb;
      StepKeeps(h, Tables(), WebRotateOp(presented, raw, jti, now));
      var t := h.token(presented);
      if t !in refresh || refresh[t].revoked || refresh[t].expiresAt < now {
        return SignInAgain;
      }
      var row := refresh[t];
      if row.user !in users {
        return SignInAgain;
      }
      refresh := refresh[t := row.(revoked := true)];
      reply := IssueWebTokens(row.user, raw, jti, now);
    }

    method RevokeUserSessions(user: UserId)
      modifies this`refresh, this`access
      ensures Tables() == RevokeUser(old(Tables()), user)
    {
      MarkRefresh(set t | t in refresh && refresh[t].user == user && !refresh[t].revoked);
      MarkAccess(set t | t in access && access[t].user == user && !access[t].revoked);
    }

    method SignOutWeb(bearer: Option<UserId>, presented: Option<Secret>, now: int) returns (reply: Reply)
      requires Valid()
      modifies this`refresh, this`access
      ensures Outcome(Tables(), reply) == Run(h, old(Tables()), WebSignOutOp(bearer, presented, now))
      ensures Valid()
    {
      hide Inv, RevokeUser;
      StepKeeps(h, Tables(), WebSignOutOp(bearer, presented, now));
      var user := bearer;
      if user.None? && presented.Some? && ValidRefresh(Db(users, codes, devices, refresh, access, pending), h.token(presented.value), now) {
        user := Some(refresh[h.token(presented.value)].user);
      }
      if user.Some? {
        RevokeUserSessions(user.value);
      }
      reply := Done;
    }
  }
}
