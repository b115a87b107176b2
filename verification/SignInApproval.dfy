/** Whose session lets a new computer in, and what becomes of it when that session's own computer is ended. */
module SignInApproval {
  import opened Prelude
  import opened SignIn
  import opened SignInInvariant
  import opened SignInSafety
  import opened SignInLineage
  import opened SignInOutlives

  /** Where an access token comes from: rows that name no device are those the website's requests made. */
  lemma {:induction false} SessionFrom(h: Hashes, ops: seq<Op>, j: Jti) returns (k: nat)
    requires History(h, ops) && j in After(h, ops).access
    ensures k < |ops| && Issued(h, After(h, ops[..k]), ops[k]) && ops[k].jti == j
    ensures After(h, ops).access[j].device.None? <==> ops[k].WebSignInOp? || ops[k].WebRotateOp?
  {
    hide Run, Possible, Issued;
    var before, op := ops[..|ops| - 1], ops[|ops| - 1];
    var db := After(h, before);
    RunChanges(h, db, op);
    ChangesStay(h, db, op, After(h, ops));
    if j in db.access {
      k := SessionFrom(h, before, j);
      assert before[..k] == ops[..k];
    } else {
      k := |before|;
      NewSession(h, db, op, After(h, ops));
    }
  }

  lemma NewSession(h: Hashes, db: Db, op: Op, after: Db)
    requires Changed(h, db, op, after) && Issued(h, db, op)
    ensures MayIssue(op) && op.jti in after.access
    ensures after.access[op.jti].device.None? <==> op.WebSignInOp? || op.WebRotateOp?
  {
  }

  /**
   An approval goes through for whatever live access token of the person it comes with: the website's, or that of a
   computer of theirs that has not been ended.
   */
  lemma {:induction false} AnySessionApproves(h: Hashes, ops: seq<Op>, op: Op)
    requires History(h, ops) && op.ApproveOp?
    ensures var db := After(h, ops);
      Run(h, db, op).reply == Approval(op.code) <==>
        && op.id in db.codes && db.codes[op.id].status == Pending && op.now <= db.codes[op.id].expiresAt
        && op.user in db.users && op.session in db.access && var row := db.access[op.session];
        && row.user == op.user && op.now <= row.expiresAt && !row.revoked
        && (row.device.None?
            || (row.device.value in db.devices && db.devices[row.device.value].user == op.user && !Ended(db.devices, row.device.value)))
  {
    Reachable(h, ops);
    hide CodesOk, OneLiveRefresh, After, History;
    var db := After(h, ops);
    if op.session in db.access && db.access[op.session].device.Some? && !db.access[op.session].revoked {
      assert LiveAccess(db.access, op.session, db.access[op.session].device.value);
    }
  }

  /** A request that ends one device changes nothing of any other, whoever let the other in. */
  lemma {:induction false} EndingSparesOtherDevices(h: Hashes, db: Db, op: Op, d: DeviceId, other: DeviceId)
    requires Possible(h, db, op) && !Ended(db.devices, d) && Ended(Run(h, db, op).db.devices, d)
    requires other in db.devices && other != d
    ensures var after := Run(h, db, op).db;
      other in after.devices && after.devices[other] == db.devices[other] && Spared(db, after, other)
  {
    EndedBy(h, db, op, d);
    hide Run, Possible;
    RevokingSparesOthers(db, d, op.now, other);
  }

  lemma RevokingSparesOthers(db: Db, d: DeviceId, now: int, other: DeviceId)
    requires d in db.devices && other in db.devices && other != d
    ensures var after := RevokeDevice(db, d, now);
      other in after.devices && after.devices[other] == db.devices[other] && Spared(db, after, other)
  {
  }

  /** Only revoking a device ends it. */
  lemma EndedBy(h: Hashes, db: Db, op: Op, d: DeviceId)
    requires Possible(h, db, op) && !Ended(db.devices, d) && Ended(Run(h, db, op).db.devices, d)
    ensures d in db.devices && Run(h, db, op).db == RevokeDevice(db, d, op.now)
  {
    hide FindCode, ExpireIfDue, RevokeDevice, Exchanging;
    if op.CreateCodeOp? || op.PollOp? || op.ApproveOp? || op.DenyOp? {
      hide Run;
      CodesKeepOwners(h, db, op);
    } else if op.WebSignOutOp? || op.WebSignInOp? || op.WebRotateOp? {
      hide Run;
      WebKeepsDevices(h, db, op);
    } else if op.ExchangeOp? {
      hide Run;
      ExchangeEndsNone(h, db, op, d);
    } else {
      RevokeEndsOne(db, op.now);
    }
  }

  lemma ExchangeEndsNone(h: Hashes, db: Db, op: Op, d: DeviceId)
    requires op.ExchangeOp? && Ended(Run(h, db, op).db.devices, d)
    ensures Ended(db.devices, d)
  {
    hide FindCode, ExpireIfDue;
  }

  lemma RevokeEndsOne(db: Db, now: int)
    ensures forall e, other | e in db.devices && other != e && Ended(RevokeDevice(db, e, now).devices, other) :: Ended(db.devices, other)
  {
  }
}
