/** Safety over whole runs of sign-in requests. */
module SignInSafety {
  import opened Prelude
  import opened SignIn
  import opened SignInInvariant

  lemma AfterNext(h: Hashes, ops: seq<Op>, k: nat)
    requires k < |ops|
    ensures After(h, ops[..k + 1]) == Run(h, After(h, ops[..k]), ops[k]).db
  {
    hide Run;
    assert ops[..k + 1][..k] == ops[..k];
  }

  lemma {:induction false} HistoryPrefix(h: Hashes, ops: seq<Op>, k: nat)
    requires History(h, ops) && k <= |ops|
    ensures History(h, ops[..k])
    ensures k < |ops| ==> Possible(h, After(h, ops[..k]), ops[k])
    decreases |ops|
  {
    hide Possible, After;
    if k < |ops| - 1 {
      var before := ops[..|ops| - 1];
      HistoryPrefix(h, before, k);
      assert before[..k] == ops[..k];
    } else if k == |ops| {
      assert ops[..k] == ops;
    }
  }

  // ----- devices -----

  /** In every reachable state a device has at most one live refresh token, and a revoked one no live token. */
  lemma {:induction false} DeviceTokens(h: Hashes, ops: seq<Op>, d: DeviceId)
    requires History(h, ops) && d in After(h, ops).devices
    ensures var db := After(h, ops);
      && (forall t, u | LiveRefresh(db.refresh, t, d) && LiveRefresh(db.refresh, u, d) :: t == u)
      && (db.devices[d].revokedAt.Some? ==>
            (forall t | t in db.refresh && db.refresh[t].device == Some(d) :: db.refresh[t].revoked)
            && (forall t | t in db.access && db.access[t].device == Some(d) :: db.access[t].revoked))
  {
    hide After, CodesOk, TokensOwned;
    Reachable(h, ops);
    var db := After(h, ops);
    forall t | t in db.refresh && db.refresh[t].device == Some(d) && db.devices[d].revokedAt.Some?
      ensures db.refresh[t].revoked
    {
      assert !LiveRefresh(db.refresh, t, d);
    }
    forall t | t in db.access && db.access[t].device == Some(d) && db.devices[d].revokedAt.Some?
      ensures db.access[t].revoked
    {
      assert !LiveAccess(db.access, t, d);
    }
  }

  /** The token rows of a device. */
  function RefreshOf(refresh: RefreshTable, d: DeviceId): set<Digest> {
    set t | t in refresh && refresh[t].device == Some(d)
  }

  function AccessOf(access: AccessTable, d: DeviceId): set<Jti> {
    set t | t in access && access[t].device == Some(d)
  }

  ghost predicate SameTokensOf(db: Db, after: Db, d: DeviceId) {
    && Ended(after.devices, d)
    && (forall t :: t in db.refresh && db.refresh[t].device == Some(d) <==> t in after.refresh && after.refresh[t].device == Some(d))
    && (forall t :: t in db.access && db.access[t].device == Some(d) <==> t in after.access && after.access[t].device == Some(d))
  }

  /** A revoked device stays revoked, and gets no token. */
  lemma EndedStaysEnded(h: Hashes, db: Db, op: Op, d: DeviceId)
    requires Possible(h, db, op) && Ended(db.devices, d)
    ensures SameTokensOf(db, Run(h, db, op).db, d)
  {
    hide SameTokensOf, Possible, Run;
    match op
    case CreateCodeOp(_, _, _, _, _) => CodesTouchNoTokens(h, db, op, d);
    case PollOp(_, _) => CodesTouchNoTokens(h, db, op, d);
    case ApproveOp(_, _, _, _, _) => CodesTouchNoTokens(h, db, op, d);
    case DenyOp(_, _) => CodesTouchNoTokens(h, db, op, d);
    case ExchangeOp(_, _, _, _, _, _) => ExchangeTouchesNoEnded(h, db, op, d);
    case RefreshOp(_, _, _, _) => RefreshTouchesNoEnded(h, db, op, d);
    case _ => OthersTouchNoEnded(h, db, op, d);
  }

  lemma CodesTouchNoTokens(h: Hashes, db: Db, op: Op, d: DeviceId)
    requires op.CreateCodeOp? || op.PollOp? || op.ApproveOp? || op.DenyOp?
    requires Ended(db.devices, d)
    ensures SameTokensOf(db, Run(h, db, op).db, d)
  {
    hide ExpireIfDue;
  }

  lemma ExchangeTouchesNoEnded(h: Hashes, db: Db, op: Op, d: DeviceId)
    requires op.ExchangeOp? && Possible(h, db, op) && Ended(db.devices, d)
    ensures SameTokensOf(db, Run(h, db, op).db, d)
  {
    hide Exchanging, ExpireIfDue, SameTokensOf;
    NothingTouchesNothing(db, d);
    var found := FindCode(db.codes, h.token(op.code));
    if found.Some? {
      var id := found.value;
      var row := ExpireIfDue(db.codes[id], op.now);
      CodeRowTouchesNothing(db, id, row, d);
      CodeRowTouchesNothing(db, id, row.(status := Denied), d);
      if row.user.Some? { PairingTouchesNoEnded(h, db, id, row.user.value, op.device, op.raw, op.jti, op.now, d); }
    }
  }

  lemma CodeRowTouchesNothing(db: Db, id: CodeId, row: CodeRow, d: DeviceId)
    requires Ended(db.devices, d)
    ensures SameTokensOf(db, db.(codes := db.codes[id := row]), d)
  {
  }

  lemma PairingTouchesNoEnded(h: Hashes, db: Db, id: CodeId, user: UserId, device: DeviceId, raw: Secret, jti: Jti, now: int, d: DeviceId)
    requires id in db.codes && device !in db.devices && h.token(raw) !in db.refresh && jti !in db.access && Ended(db.devices, d)
    ensures SameTokensOf(db, Exchanging(h, db, id, user, device, raw, jti, now), d)
  {
  }

  lemma RefreshTouchesNoEnded(h: Hashes, db: Db, op: Op, d: DeviceId)
    requires op.RefreshOp? && Possible(h, db, op) && Ended(db.devices, d)
    ensures SameTokensOf(db, Run(h, db, op).db, d)
  {
    hide SameTokensOf, RevokeDevice, Spend, Issue;
    NothingTouchesNothing(db, d);
    var t := h.token(op.presented);
    if t in db.refresh && db.refresh[t].device.Some? && db.refresh[t].device.value in db.devices {
      var row := db.refresh[t];
      RevokeTouchesNoEnded(db, row.device.value, op.now, d);
      if row.device.value != d {
        RotationTouchesNoEnded(h, db, t, row.device.value, op, d);
      }
    }
  }

  lemma NothingTouchesNothing(db: Db, d: DeviceId)
    requires Ended(db.devices, d)
    ensures SameTokensOf(db, db, d)
  {
  }

  lemma RotationTouchesNoEnded(h: Hashes, db: Db, t: Digest, device: DeviceId, op: Op, d: DeviceId)
    requires op.RefreshOp? && Possible(h, db, op) && Ended(db.devices, d) && t in db.refresh
    requires device in db.devices && device != d
    ensures Spend(db, t).devices == db.devices
    ensures SameTokensOf(db, Issue(h, Spend(db, t), db.refresh[t].user, device, op.raw, op.jti, op.now), d)
  {
  }

  lemma OthersTouchNoEnded(h: Hashes, db: Db, op: Op, d: DeviceId)
    requires op.LogoutOp? || op.RemoveDeviceOp? || op.WebSignInOp? || op.WebRotateOp? || op.WebSignOutOp?
    requires Possible(h, db, op) && Ended(db.devices, d)
    ensures SameTokensOf(db, Run(h, db, op).db, d)
  {
    hide SameTokensOf, RevokeDevice, RevokeUser, Spend, IssueWeb;
    NothingTouchesNothing(db, d);
    match op
    case LogoutOp(presented, now) =>
      var t := h.token(presented);
      if t in db.refresh && db.refresh[t].device.Some? && db.refresh[t].device.value in db.devices {
        RevokeTouchesNoEnded(db, db.refresh[t].device.value, now, d);
      }
    case RemoveDeviceOp(device, user, now) =>
      if device in db.devices { RevokeTouchesNoEnded(db, device, now, d); }
    case WebSignInOp(user, raw, jti, now) =>
      WebTokensTouchNoEnded(h, db, db.(users := db.users + {user}), user, raw, jti, now, d);
    case WebRotateOp(presented, raw, jti, now) =>
      var t := h.token(presented);
      if t in db.refresh {
        SpendTouchesNoEnded(db, t, d);
        WebTokensTouchNoEnded(h, db, Spend(db, t), db.refresh[t].user, raw, jti, now, d);
      }
    case WebSignOutOp(bearer, presented, now) =>
      forall user ensures SameTokensOf(db, RevokeUser(db, user), d) {
        UserTouchesNoEnded(db, user, d);
      }
  }

  lemma SpendTouchesNoEnded(db: Db, t: Digest, d: DeviceId)
    requires Ended(db.devices, d) && t in db.refresh
    ensures SameTokensOf(db, Spend(db, t), d)
    ensures Spend(db, t).refresh.Keys == db.refresh.Keys && Spend(db, t).access == db.access
  {
  }

  lemma WebTokensTouchNoEnded(h: Hashes, db: Db, mid: Db, user: UserId, raw: Secret, jti: Jti, now: int, d: DeviceId)
    requires Ended(db.devices, d) && h.token(raw) !in mid.refresh && jti !in mid.access
    requires SameTokensOf(db, mid, d) || (mid.devices == db.devices && mid.refresh == db.refresh && mid.access == db.access)
    ensures SameTokensOf(db, IssueWeb(h, mid, user, raw, jti, now), d)
  {
  }

  lemma UserTouchesNoEnded(db: Db, user: UserId, d: DeviceId)
    requires Ended(db.devices, d)
    ensures SameTokensOf(db, RevokeUser(db, user), d)
  {
  }

  lemma RevokeTouchesNoEnded(db: Db, device: DeviceId, now: int, d: DeviceId)
    requires Ended(db.devices, d) && device in db.devices
    ensures SameTokensOf(db, RevokeDevice(db, device, now), d)
  {
  }

  lemma SameTokensSameSets(db: Db, after: Db, d: DeviceId)
    requires SameTokensOf(db, after, d)
    ensures Ended(after.devices, d)
    ensures RefreshOf(after.refresh, d) == RefreshOf(db.refresh, d) && AccessOf(after.access, d) == AccessOf(db.access, d)
  {
    hide Ended;
  }

  /** From request k on, device d is revoked, and the tokens it then has, all dead, are all it ever gets. */
  ghost predicate EndedForGood(h: Hashes, ops: seq<Op>, k: nat, d: DeviceId)
    requires k <= |ops|
  {
    forall j | k <= j <= |ops| ::
      var now, earlier := After(h, ops[..j]), After(h, ops[..k]);
      && Ended(now.devices, d)
      && RefreshOf(now.refresh, d) == RefreshOf(earlier.refresh, d)
      && AccessOf(now.access, d) == AccessOf(earlier.access, d)
      && (forall t | t in RefreshOf(now.refresh, d) :: now.refresh[t].revoked)
      && (forall t | t in AccessOf(now.access, d) :: now.access[t].revoked)
  }

  lemma {:induction false} EndedKeeps(h: Hashes, ops: seq<Op>, k: nat, j: nat, d: DeviceId)
    requires History(h, ops) && k <= j <= |ops| && Ended(After(h, ops[..k]).devices, d)
    ensures var now, earlier := After(h, ops[..j]), After(h, ops[..k]);
      && Ended(now.devices, d)
      && RefreshOf(now.refresh, d) == RefreshOf(earlier.refresh, d)
      && AccessOf(now.access, d) == AccessOf(earlier.access, d)
    decreases j
  {
    hide Run, After, Possible, Inv, Ended, RefreshOf, AccessOf, SameTokensOf;
    if k < j {
      EndedKeeps(h, ops, k, j - 1, d);
      HistoryPrefix(h, ops, j - 1);
      AfterNext(h, ops, j - 1);
      EndedStaysEnded(h, After(h, ops[..j - 1]), ops[j - 1], d);
      SameTokensSameSets(After(h, ops[..j - 1]), After(h, ops[..j]), d);
    }
  }

  lemma {:induction false} RevokedIsForGood(h: Hashes, ops: seq<Op>, k: nat, d: DeviceId)
    requires History(h, ops) && k <= |ops| && Ended(After(h, ops[..k]).devices, d)
    ensures EndedForGood(h, ops, k, d)
  {
    hide After, History;
    forall j | k <= j <= |ops|
      ensures var now, earlier := After(h, ops[..j]), After(h, ops[..k]);
        && Ended(now.devices, d)
        && RefreshOf(now.refresh, d) == RefreshOf(earlier.refresh, d)
        && AccessOf(now.access, d) == AccessOf(earlier.access, d)
        && (forall t | t in RefreshOf(now.refresh, d) :: now.refresh[t].revoked)
        && (forall t | t in AccessOf(now.access, d) :: now.access[t].revoked)
    {
      EndedKeeps(h, ops, k, j, d);
      HistoryPrefix(h, ops, j);
      DeviceTokens(h, ops[..j], d);
    }
  }

  /** A token spent stays spent. */
  lemma SpentStaysSpent(h: Hashes, db: Db, op: Op, t: Digest)
    requires Possible(h, db, op) && t in db.refresh && db.refresh[t].revoked
    ensures var after := Run(h, db, op).db;
      t in after.refresh && after.refresh[t] == db.refresh[t]
  {
    hide Run, Possible;
    if op.CreateCodeOp? || op.PollOp? || op.ApproveOp? || op.DenyOp? || op.ExchangeOp? {
      CodesSpareSpent(h, db, op, t);
    } else {
      TokensSpareSpent(h, db, op, t);
    }
  }

  lemma CodesSpareSpent(h: Hashes, db: Db, op: Op, t: Digest)
    requires op.CreateCodeOp? || op.PollOp? || op.ApproveOp? || op.DenyOp? || op.ExchangeOp?
    requires Possible(h, db, op) && t in db.refresh
    ensures t in Run(h, db, op).db.refresh && Run(h, db, op).db.refresh[t] == db.refresh[t]
  {
    hide FindCode, ExpireIfDue;
  }

  lemma TokensSpareSpent(h: Hashes, db: Db, op: Op, t: Digest)
    requires !op.CreateCodeOp? && !op.PollOp? && !op.ApproveOp? && !op.DenyOp? && !op.ExchangeOp?
    requires Possible(h, db, op) && t in db.refresh && db.refresh[t].revoked
    ensures t in Run(h, db, op).db.refresh && Run(h, db, op).db.refresh[t] == db.refresh[t]
  {
    hide FindCode, ExpireIfDue;
  }

  lemma {:induction false} SpentKeeps(h: Hashes, ops: seq<Op>, i: nat, k: nat, t: Digest)
    requires History(h, ops) && i <= k <= |ops|
    requires t in After(h, ops[..i]).refresh && After(h, ops[..i]).refresh[t].revoked
    ensures t in After(h, ops[..k]).refresh && After(h, ops[..k]).refresh[t] == After(h, ops[..i]).refresh[t]
    decreases k
  {
    hide Run, After, Possible;
    if i < k {
      SpentKeeps(h, ops, i, k - 1, t);
      HistoryPrefix(h, ops, k - 1);
      AfterNext(h, ops, k - 1);
      SpentStaysSpent(h, After(h, ops[..k - 1]), ops[k - 1], t);
    }
  }

  /**
   Replaying a token that was spent at any earlier time ends its device: no live token
   carries it from then on, and none is ever issued for it again.
   */
  lemma {:induction false} ReplayEndsDevice(h: Hashes, ops: seq<Op>, i: nat, k: nat, d: DeviceId)
    requires History(h, ops) && i <= k < |ops| && ops[k].RefreshOp?
    requires var t := h.token(ops[k].presented);
      t in After(h, ops[..i]).refresh && After(h, ops[..i]).refresh[t].revoked && After(h, ops[..i]).refresh[t].device == Some(d)
    ensures Run(h, After(h, ops[..k]), ops[k]).reply == SessionEnded
    ensures EndedForGood(h, ops, k + 1, d)
  {
    hide After, History, CodesOk, OneLiveRefresh, EndedHasNoTokens, EndedForGood, RevokeDevice;
    var t := h.token(ops[k].presented);
    SpentKeeps(h, ops, i, k, t);
    HistoryPrefix(h, ops, k);
    Reachable(h, ops[..k]);
    AfterNext(h, ops, k);
    RevokedDeviceEnded(After(h, ops[..k]), d, ops[k].now);
    RevokedIsForGood(h, ops, k + 1, d);
  }

  lemma RevokedDeviceEnded(db: Db, d: DeviceId, now: int)
    requires d in db.devices
    ensures Ended(RevokeDevice(db, d, now).devices, d)
  {
  }

  /** Signing out on the computer, or removing it on the website, ends it the same way. */
  lemma {:induction false} SignOutEndsDevice(h: Hashes, ops: seq<Op>, k: nat, d: DeviceId)
    requires History(h, ops) && k < |ops| && d in After(h, ops[..k]).devices
    requires
      || (ops[k].RemoveDeviceOp? && ops[k].device == d && After(h, ops[..k]).devices[d].user == ops[k].user)
      || (ops[k].LogoutOp? && h.token(ops[k].presented) in After(h, ops[..k]).refresh
            && After(h, ops[..k]).refresh[h.token(ops[k].presented)].device == Some(d))
    ensures EndedForGood(h, ops, k + 1, d)
  {
    hide After, History, EndedForGood, RevokeDevice;
    HistoryPrefix(h, ops, k);
    AfterNext(h, ops, k);
    RevokedDeviceEnded(After(h, ops[..k]), d, ops[k].now);
    RevokedIsForGood(h, ops, k + 1, d);
  }

  // ----- the website's sessions and the device's -----

  /** Ending a device leaves every website token as it was. */
  lemma EndingDeviceSparesWebsite(db: Db, device: DeviceId, now: int)
    requires device in db.devices
    ensures var after := RevokeDevice(db, device, now);
      && (forall t | t in db.refresh && db.refresh[t].device.None? :: t in after.refresh && after.refresh[t] == db.refresh[t])
      && (forall t | t in db.access && db.access[t].device.None? :: t in after.access && after.access[t] == db.access[t])
  {
  }

  /** A device's tokens are the same rows in both states. */
  ghost predicate Spared(db: Db, after: Db, d: DeviceId) {
    && (forall t | t in db.refresh && db.refresh[t].device == Some(d) :: t in after.refresh && after.refresh[t] == db.refresh[t])
    && (forall t | t in db.access && db.access[t].device == Some(d) :: t in after.access && after.access[t] == db.access[t])
  }

  /** Whom a website sign-out names: by the access token, or else by a live refresh token. */
  function Named(h: Hashes, db: Db, bearer: Option<UserId>, presented: Option<Secret>, now: int): Option<UserId> {
    if bearer.Some? then bearer
    else if presented.Some? && ValidRefresh(db, h.token(presented.value), now)
    then Some(db.refresh[h.token(presented.value)].user) else None
  }

  lemma RevokingPersonSpares(h: Hashes, db: Db, user: UserId, d: DeviceId)
    requires Inv(h, db) && d in db.devices
    ensures Spared(db, RevokeUser(db, user), d) <==>
      db.devices[d].user != user || ((forall t :: !LiveRefresh(db.refresh, t, d)) && (forall t :: !LiveAccess(db.access, t, d)))
  {
    hide CodesOk, OneLiveRefresh, EndedHasNoTokens;
    var after := RevokeUser(db, user);
    if t :| LiveRefresh(db.refresh, t, d) {
      assert db.refresh[t].user == user ==> after.refresh[t] != db.refresh[t];
    } else if t :| LiveAccess(db.access, t, d) {
      assert db.access[t].user == user ==> after.access[t] != db.access[t];
    } else {
      forall t | t in db.refresh && db.refresh[t].device == Some(d) ensures after.refresh[t] == db.refresh[t] {
        assert !LiveRefresh(db.refresh, t, d);
      }
      forall t | t in db.access && db.access[t].device == Some(d) ensures after.access[t] == db.access[t] {
        assert !LiveAccess(db.access, t, d);
      }
    }
  }

  /**
   The other way round: a website sign-out spares a device's tokens exactly when it names nobody, or
   somebody else, or the device has no live token to lose.
   */
  lemma WebSignOutSpares(h: Hashes, db: Db, bearer: Option<UserId>, presented: Option<Secret>, now: int, d: DeviceId)
    requires Inv(h, db) && d in db.devices
    ensures Spared(db, WebSignOut(h, db, bearer, presented, now).db, d) <==>
      || Named(h, db, bearer, presented, now) != Some(db.devices[d].user)
      || ((forall t :: !LiveRefresh(db.refresh, t, d)) && (forall t :: !LiveAccess(db.access, t, d)))
  {
    hide Inv, LiveRefresh, LiveAccess, RevokeUser;
    assert Spared(db, db, d);
    var named := Named(h, db, bearer, presented, now);
    if named.Some? { RevokingPersonSpares(h, db, named.value, d); }
  }
}
