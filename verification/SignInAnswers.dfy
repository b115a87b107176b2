/** When a sign-in request succeeds, and what it gives, in every reachable state. */
module SignInAnswers {
  import opened Prelude
  import opened SignIn
  import opened SignInInvariant
  import opened SignInSafety
  import opened SignInOutlives
  import opened SignInCodes

  // ----- tokens -----

  /** A new pair of tokens, alive from now on for this person and device, or for the website. */
  ghost predicate Gives(db: Db, after: Db, t: Digest, j: Jti, user: UserId, device: Option<DeviceId>, now: int) {
    && t !in db.refresh && j !in db.access
    && t in after.refresh && j in after.access
    && after.refresh[t] == RefreshRow(user, now + REFRESH_TTL, false, if device.Some? then Desktop else Web, device)
    && after.access[j] == AccessRow(user, now + ACCESS_TTL, false, device)
  }

  ghost predicate Spends(db: Db, after: Db, t: Digest) {
    t in db.refresh && !db.refresh[t].revoked && t in after.refresh && after.refresh[t] == db.refresh[t].(revoked := true)
  }

  /**
   The desktop refresh gives tokens if and only if it is sent a live refresh token of a device that has not expired;
   they are the same person's and device's, and the token sent is spent. A spent one ends the session, anything else
   changes nothing.
   */
  lemma {:induction false} RefreshAnswers(h: Hashes, ops: seq<Op>, op: Op)
    requires History(h, ops) && Possible(h, After(h, ops), op) && op.RefreshOp?
    ensures var db, t := After(h, ops), h.token(op.presented);
      var out := Run(h, db, op);
      && (out.reply.Tokens? <==> (exists d :: LiveRefresh(db.refresh, t, d)) && op.now <= db.refresh[t].expiresAt)
      && (out.reply.Tokens? ==> var row := db.refresh[t];
            && row.device.Some? && !Ended(db.devices, row.device.value) && out.reply == Tokens(row.device, op.raw, op.jti)
            && Gives(db, out.db, h.token(op.raw), op.jti, row.user, row.device, op.now) && Spends(db, out.db, t)
            && out.db.devices == db.devices[row.device.value := db.devices[row.device.value].(lastSeenAt := op.now)])
      && (out.reply == SessionEnded <==> t in db.refresh && db.refresh[t].device.Some? && db.refresh[t].revoked)
      && (!out.reply.Tokens? && out.reply != SessionEnded ==> out == Outcome(db, SignInAgain))
  {
    Reachable(h, ops);
    hide After, History, CodesOk, RevokeDevice, OneLiveRefresh;
    var db, t := After(h, ops), h.token(op.presented);
    if t in db.refresh && db.refresh[t].device.Some? {
      var d := db.refresh[t].device.value;
      assert LiveRefresh(db.refresh, t, d) <==> !db.refresh[t].revoked;
    }
  }

  /** The website's rotation gives tokens if and only if it is sent any refresh token that is live and has not expired. */
  lemma {:induction false} RotationAnswers(h: Hashes, ops: seq<Op>, op: Op)
    requires History(h, ops) && Possible(h, After(h, ops), op) && op.WebRotateOp?
    ensures var db, t := After(h, ops), h.token(op.presented);
      var out := Run(h, db, op);
      && (out.reply.Tokens? <==> t in db.refresh && !db.refresh[t].revoked && op.now <= db.refresh[t].expiresAt)
      && (out.reply.Tokens? ==>
            && out.reply == Tokens(None, op.raw, op.jti)
            && Gives(db, out.db, h.token(op.raw), op.jti, db.refresh[t].user, None, op.now) && Spends(db, out.db, t))
      && (!out.reply.Tokens? ==> out == Outcome(db, SignInAgain))
  {
    Reachable(h, ops);
    hide After, History, CodesOk, OneLiveRefresh, EndedHasNoTokens;
  }

  lemma WebSignInAnswers(h: Hashes, db: Db, op: Op)
    requires Possible(h, db, op) && op.WebSignInOp?
    ensures var out := Run(h, db, op);
      && out.reply == Tokens(None, op.raw, op.jti) && Gives(db, out.db, h.token(op.raw), op.jti, op.user, None, op.now)
  {
  }

  // ----- codes -----

  /** The request looks at this code: by its id, and signed in to approve it, or by its hash. */
  ghost predicate LooksAt(h: Hashes, db: Db, op: Op, id: CodeId) {
    || ((op.PollOp? || op.DenyOp?) && op.id == id)
    || (op.ApproveOp? && op.id == id && !Unsigned(db, op))
    || (op.ExchangeOp? && HasHash(db.codes, id, h.token(op.code)))
  }

  /** The next status of a code a request looks at. A pending code has no hash yet, so no exchange finds it. */
  function Following(h: Hashes, row: CodeRow, op: Op): Status
    requires op.PollOp? || op.DenyOp? || op.ApproveOp? || op.ExchangeOp?
  {
    if row.status !in {Pending, Approved} then row.status
    else if op.now > row.expiresAt then Expired
    else match op
      case ApproveOp(_, _, _, _, _) => Approved
      case DenyOp(_, _) => if row.status == Pending then Denied else Approved
      case ExchangeOp(_, verifier, _, _, _, _) => if h.s256(verifier) == row.challenge then Exchanged else Denied
      case PollOp(_, _) => row.status
  }

  lemma StatusFollows(h: Hashes, db: Db, op: Op, id: CodeId)
    requires Inv(h, db) && Possible(h, db, op) && id in db.codes
    ensures var after := Run(h, db, op).db;
      && id in after.codes
      && after.codes[id].status == if LooksAt(h, db, op, id) then Following(h, db.codes[id], op) else db.codes[id].status
  {
    hide TokensOk, CodesMatchDevices, PendingOk, Run;
    assert CodeRowOk(db.users, db.devices, db.codes[id]);
    if op.ExchangeOp? {
      hide Possible;
      ExchangeCodes(h, db, op);
      FoundIfHashed(h, db, op, id);
    } else if op.CreateCodeOp? || op.PollOp? || op.ApproveOp? || op.DenyOp? {
      CodeRequestCodes(h, db, op);
    } else {
      TokenRequestKeepsCodes(h, db, op);
    }
  }

  lemma FoundIfHashed(h: Hashes, db: Db, op: Op, id: CodeId)
    requires op.ExchangeOp? && HashesUnique(db.codes)
    ensures HasHash(db.codes, id, h.token(op.code)) <==> FindCode(db.codes, h.token(op.code)) == Some(id)
  {
  }

  /** In every run a code goes pending, approved, exchanged, or ends denied or expired, exactly as its requests say. */
  lemma {:induction false} CodeStatusMoves(h: Hashes, ops: seq<Op>, k: nat, id: CodeId)
    requires History(h, ops) && k < |ops| && id in After(h, ops[..k]).codes
    ensures var db, after := After(h, ops[..k]), After(h, ops[..k + 1]);
      && id in after.codes
      && after.codes[id].status == if LooksAt(h, db, ops[k], id) then Following(h, db.codes[id], ops[k]) else db.codes[id].status
  {
    hide After, Run, Possible, Inv, LooksAt, Following;
    HistoryPrefix(h, ops, k);
    Reachable(h, ops[..k]);
    AfterNext(h, ops, k);
    StatusFollows(h, After(h, ops[..k]), ops[k], id);
  }

  /** A code begins pending. */
  lemma CreateAnswers(h: Hashes, db: Db, op: Op)
    requires op.CreateCodeOp?
    ensures var out := Run(h, db, op);
      && out.reply == Created(op.id) && out.db == db.(codes := out.db.codes) && op.id in out.db.codes
      && out.db.codes[op.id].status == Pending && out.db.codes[op.id].info == op.info && out.db.codes[op.id].redirect == op.redirect
  {
  }

  /**
   An exchange gives tokens if and only if it is sent an approved code that has not expired with a verifier of its
   challenge; they are the approver's, for a new device that is what the code was asked for.
   */
  lemma {:induction false} ExchangeAnswers(h: Hashes, ops: seq<Op>, op: Op, id: CodeId)
    requires History(h, ops) && Possible(h, After(h, ops), op) && op.ExchangeOp?
    requires HasHash(After(h, ops).codes, id, h.token(op.code))
    ensures var db := After(h, ops);
      var row, out := db.codes[id], Run(h, db, op);
      && (out.reply.Tokens? <==> row.status == Approved && op.now <= row.expiresAt && h.s256(op.verifier) == row.challenge)
      && (out.reply.Tokens? ==>
            && row.user.Some? && out.reply == Tokens(Some(op.device), op.raw, op.jti)
            && Gives(db, out.db, h.token(op.raw), op.jti, row.user.value, Some(op.device), op.now)
            && op.device in out.db.devices && out.db.devices[op.device] == DeviceRow(row.user.value, row.info, op.now, None))
      && (!out.reply.Tokens? ==> out.reply == BadCode && out.db == db.(codes := out.db.codes))
  {
    Reachable(h, ops);
    hide After, History, TokensOk, CodesMatchDevices, PendingOk;
    var db := After(h, ops);
    assert CodeRowOk(db.users, db.devices, db.codes[id]);
    FoundIfHashed(h, db, op, id);
    hide FindCode, HashesUnique, ExpireIfDue;
    Expiry(db.codes[id], op.now);
    if db.codes[id].user.Some? {
      NewDevice(h, db, id, db.codes[id].user.value, op.device, op.raw, op.jti, op.now);
    }
    hide Exchanging;
  }

  lemma Expiry(row: CodeRow, now: int)
    ensures ExpireIfDue(row, now) ==
      if row.status in {Pending, Approved} && now > row.expiresAt then row.(status := Expired) else row
  {
  }

  lemma NewDevice(h: Hashes, db: Db, id: CodeId, user: UserId, device: DeviceId, raw: Secret, jti: Jti, now: int)
    requires id in db.codes && h.token(raw) !in db.refresh && jti !in db.access
    ensures var after := Exchanging(h, db, id, user, device, raw, jti, now);
      && Gives(db, after, h.token(raw), jti, user, Some(device), now)
      && device in after.devices && after.devices[device] == DeviceRow(user, db.codes[id].info, now, None)
  {
  }

  /** No code with this hash: nothing happens. */
  lemma UnknownCode(h: Hashes, db: Db, op: Op)
    requires op.ExchangeOp? && forall id :: !HasHash(db.codes, id, h.token(op.code))
    ensures Run(h, db, op) == Outcome(db, BadCode)
  {
  }

  // ----- devices -----

  /** What ends a device: its owner removing it, signing out with a token of it, or sending a spent one. */
  ghost predicate EndsIt(h: Hashes, db: Db, op: Op, d: DeviceId) {
    match op
    case RemoveDeviceOp(device, user, _) => device == d && d in db.devices && db.devices[d].user == user
    case LogoutOp(presented, _) => var t := h.token(presented); t in db.refresh && db.refresh[t].device == Some(d)
    case RefreshOp(presented, _, _, _) =>
      var t := h.token(presented); t in db.refresh && db.refresh[t].device == Some(d) && db.refresh[t].revoked
    case _ => false
  }

  lemma {:induction false} EndsExactly(h: Hashes, ops: seq<Op>, op: Op, d: DeviceId)
    requires History(h, ops) && Possible(h, After(h, ops), op) && d in After(h, ops).devices && !Ended(After(h, ops).devices, d)
    ensures var db := After(h, ops);
      var after := Run(h, db, op).db;
      && d in after.devices
      && (after.devices[d].revokedAt.Some? <==> EndsIt(h, db, op, d))
      && (EndsIt(h, db, op, d) ==> after.devices[d] == db.devices[d].(revokedAt := Some(op.now)))
  {
    Reachable(h, ops);
    hide After, History, CodesOk, OneLiveRefresh, EndedHasNoTokens, Run;
    var db := After(h, ops);
    if op.CreateCodeOp? || op.PollOp? || op.ApproveOp? || op.DenyOp? {
      CodesKeepOwners(h, db, op);
    } else if op.WebSignOutOp? || op.WebSignInOp? || op.WebRotateOp? {
      WebKeepsDevices(h, db, op);
    } else if op.ExchangeOp? {
      ExchangeEndsNone(h, db, op, d);
    } else {
      hide EndsIt;
      EndingEnds(h, db, op, d);
    }
  }

  lemma ExchangeEndsNone(h: Hashes, db: Db, op: Op, d: DeviceId)
    requires op.ExchangeOp? && op.device !in db.devices && d in db.devices
    ensures var after := Run(h, db, op).db; d in after.devices && after.devices[d] == db.devices[d]
  {
    hide FindCode, ExpireIfDue;
  }

  lemma EndingEnds(h: Hashes, db: Db, op: Op, d: DeviceId)
    requires TokensOwned(db.users, db.devices, db.refresh, db.access) && (op.RefreshOp? || op.LogoutOp? || op.RemoveDeviceOp?)
    requires d in db.devices && !Ended(db.devices, d)
    ensures var after := Run(h, db, op).db;
      && d in after.devices && (after.devices[d].revokedAt.Some? <==> EndsIt(h, db, op, d))
      && (EndsIt(h, db, op, d) ==> after.devices[d] == db.devices[d].(revokedAt := Some(op.now)))
  {
    if op.RefreshOp? {
      var t := h.token(op.presented);
      hide RevokeDevice;
      if t in db.refresh && db.refresh[t].device.Some? { RevokedDevices(db, db.refresh[t].device.value, op.now); }
    }
  }

  lemma RevokedDevices(db: Db, device: DeviceId, now: int)
    requires device in db.devices
    ensures var row := db.devices[device];
      RevokeDevice(db, device, now).devices == db.devices[device := if row.revokedAt.None? then row.(revokedAt := Some(now)) else row]
  {
  }

  /** Removing a device answers Done to its owner only. */
  lemma RemovalAnswers(h: Hashes, db: Db, op: Op)
    requires op.RemoveDeviceOp?
    ensures var out := Run(h, db, op);
      if op.device in db.devices && db.devices[op.device].user == op.user then out.reply == Done else out == Outcome(db, NotFound)
  {
  }
}
