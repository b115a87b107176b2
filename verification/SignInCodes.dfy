/** What a one-time code can do, over whole runs. */
module SignInCodes {
  import opened Prelude
  import opened SignIn
  import opened SignInInvariant
  import opened SignInSafety

  predicate Final(status: Status) { status in {Exchanged, Denied, Expired} }

  /** How a code row may change from one request to a later one. */
  ghost predicate Moves(a: CodeRow, b: CodeRow) {
    && b.challenge == a.challenge && b.expiresAt == a.expiresAt
    && (a.codeHash.Some? ==> b.codeHash == a.codeHash && b.user == a.user && (b.status == Pending ==> a.status == Pending))
    && (Final(a.status) ==> b == a)
  }

  /** Requests about tokens do not touch the codes. */
  lemma TokenRequestKeepsCodes(h: Hashes, db: Db, op: Op)
    requires !op.CreateCodeOp? && !op.PollOp? && !op.ApproveOp? && !op.DenyOp? && !op.ExchangeOp?
    ensures Run(h, db, op).db.codes == db.codes && Run(h, db, op).db.pending == db.pending
  {
    hide ValidRefresh;
  }

  lemma ExchangingCodes(h: Hashes, db: Db, id: CodeId, user: UserId, device: DeviceId, raw: Secret, jti: Jti, now: int)
    requires id in db.codes
    ensures var after := Exchanging(h, db, id, user, device, raw, jti, now);
      && after.codes == db.codes[id := db.codes[id].(status := Exchanged, device := Some(device))]
      && after.pending == db.pending - {id}
  {
  }

  /** An approval by nobody signed in. */
  predicate Unsigned(db: Db, op: Op) {
    op.ApproveOp? && (!ValidAccess(db.access, op.session, op.user, op.now) || op.user !in db.users)
  }

  /** Everything creating, polling, approving and denying do to the codes. */
  lemma CodeRequestCodes(h: Hashes, db: Db, op: Op)
    requires op.CreateCodeOp? || op.PollOp? || op.ApproveOp? || op.DenyOp?
    ensures Run(h, db, op).db.codes ==
      if op.CreateCodeOp? then
        db.codes[op.id := CodeRow(Pending, op.challenge, None, op.redirect, op.info, None, None, op.now + CODE_TTL)]
      else if op.id !in db.codes || Unsigned(db, op) then db.codes
      else
        var row := ExpireIfDue(db.codes[op.id], op.now);
        db.codes[op.id :=
          if op.PollOp? || row.status != Pending then row
          else if op.DenyOp? then row.(status := Denied)
          else row.(status := Approved, user := Some(op.user), codeHash := Some(h.token(op.code)))]
  {
    hide ExpireIfDue;
  }

  /** Everything an exchange does to the codes. */
  lemma ExchangeCodes(h: Hashes, db: Db, op: Op)
    requires op.ExchangeOp?
    ensures var after, found := Run(h, db, op).db, FindCode(db.codes, h.token(op.code));
      if found.None? then after.codes == db.codes && after.pending == db.pending
      else
        var id, row := found.value, ExpireIfDue(db.codes[found.value], op.now);
        if row.status != Approved then after.codes == db.codes[id := row] && after.pending == db.pending
        else if h.s256(op.verifier) != row.challenge then
          after.codes == db.codes[id := row.(status := Denied)] && after.pending == db.pending
        else if row.user.None? || row.user.value !in db.users then after.codes == db.codes && after.pending == db.pending
        else after.codes == db.codes[id := row.(status := Exchanged, device := Some(op.device))] && after.pending == db.pending - {id}
  {
    hide Exchanging;
    var found := FindCode(db.codes, h.token(op.code));
    if found.Some? && db.codes[found.value].user.Some? {
      ExchangingCodes(h, db, found.value, db.codes[found.value].user.value, op.device, op.raw, op.jti, op.now);
    }
  }

  lemma CodeMovesOn(h: Hashes, db: Db, op: Op, id: CodeId)
    requires Inv(h, db) && Possible(h, db, op) && id in db.codes
    ensures var after := Run(h, db, op).db;
      id in after.codes && Moves(db.codes[id], after.codes[id])
  {
    hide TokensOk, CodesMatchDevices, HashesUnique, PendingOk, Run, Possible, Moves;
    assert CodeRowOk(db.users, db.devices, db.codes[id]);
    if op.ExchangeOp? {
      ExchangeMoves(h, db, op, id);
    } else if op.CreateCodeOp? || op.PollOp? || op.ApproveOp? || op.DenyOp? {
      CodeRequestMoves(h, db, op, id);
    } else {
      TokenRequestKeepsCodes(h, db, op);
      assert Moves(db.codes[id], db.codes[id]) by { StayingMoves(db.codes[id]); }
    }
  }

  lemma StayingMoves(row: CodeRow)
    ensures Moves(row, row)
  {
  }

  lemma ExchangeMoves(h: Hashes, db: Db, op: Op, id: CodeId)
    requires op.ExchangeOp? && id in db.codes
    ensures id in Run(h, db, op).db.codes && Moves(db.codes[id], Run(h, db, op).db.codes[id])
  {
    hide Run;
    ExchangeCodes(h, db, op);
  }

  lemma CodeRequestMoves(h: Hashes, db: Db, op: Op, id: CodeId)
    requires Possible(h, db, op) && id in db.codes && CodeRowOk(db.users, db.devices, db.codes[id])
    requires op.CreateCodeOp? || op.PollOp? || op.ApproveOp? || op.DenyOp?
    ensures id in Run(h, db, op).db.codes && Moves(db.codes[id], Run(h, db, op).db.codes[id])
  {
    hide Run;
    CodeRequestCodes(h, db, op);
  }

  lemma {:induction false} CodeKeepsMoving(h: Hashes, ops: seq<Op>, i: nat, j: nat, id: CodeId)
    requires History(h, ops) && i <= j <= |ops| && id in After(h, ops[..i]).codes
    ensures id in After(h, ops[..j]).codes && Moves(After(h, ops[..i]).codes[id], After(h, ops[..j]).codes[id])
    decreases j
  {
    hide Run, After, Possible, Inv;
    if i < j {
      CodeKeepsMoving(h, ops, i, j - 1, id);
      HistoryPrefix(h, ops, j - 1);
      Reachable(h, ops[..j - 1]);
      AfterNext(h, ops, j - 1);
      CodeMovesOn(h, After(h, ops[..j - 1]), ops[j - 1], id);
    }
  }

  // ----- where a code comes from -----

  /** What one request can have done to a code's challenge, expiry, approver and hash. */
  lemma WhoSetsCode(h: Hashes, db: Db, op: Op, id: CodeId)
    requires Inv(h, db) && Possible(h, db, op) && id in Run(h, db, op).db.codes
    ensures var row := Run(h, db, op).db.codes[id];
      if id !in db.codes then
        op.CreateCodeOp? && op.id == id && row.challenge == op.challenge && row.expiresAt == op.now + CODE_TTL && row.user.None?
      else
        && row.challenge == db.codes[id].challenge && row.expiresAt == db.codes[id].expiresAt
        && ((row.user == db.codes[id].user && row.codeHash == db.codes[id].codeHash)
            || (op.ApproveOp? && op.id == id && row.user == Some(op.user) && row.codeHash == Some(h.token(op.code))
                && op.now <= row.expiresAt && Run(h, db, op).reply == Approval(op.code)))
  {
    hide TokensOk, CodesOk, Run;
    if op.ExchangeOp? {
      ExchangeCodes(h, db, op);
    } else if op.CreateCodeOp? || op.PollOp? || op.ApproveOp? || op.DenyOp? {
      CodeRequestCodes(h, db, op);
      if op.ApproveOp? { ApprovalReply(h, db, op); }
    } else {
      TokenRequestKeepsCodes(h, db, op);
    }
  }

  lemma ApprovalReply(h: Hashes, db: Db, op: Op)
    requires op.ApproveOp?
    ensures !Unsigned(db, op) && op.id in db.codes && ExpireIfDue(db.codes[op.id], op.now).status == Pending ==>
      Run(h, db, op).reply == Approval(op.code)
  {
    hide ExpireIfDue;
  }

  ghost predicate CreatedAt(ops: seq<Op>, i: nat, id: CodeId, row: CodeRow) {
    && i < |ops| && ops[i].CreateCodeOp? && ops[i].id == id
    && row.challenge == ops[i].challenge && row.expiresAt == ops[i].now + CODE_TTL
  }

  ghost predicate ApprovedAt(h: Hashes, ops: seq<Op>, i: nat, id: CodeId, row: CodeRow) {
    && i < |ops| && ops[i].ApproveOp? && ops[i].id == id
    && row.user == Some(ops[i].user) && row.codeHash == Some(h.token(ops[i].code)) && ops[i].now <= row.expiresAt
    && Run(h, After(h, ops[..i]), ops[i]).reply == Approval(ops[i].code)
  }

  /** Every code row was created by a request, and approved, if it is, by a later one in time. */
  lemma {:induction false} Provenance(h: Hashes, ops: seq<Op>, id: CodeId) returns (created: nat, approved: nat)
    requires History(h, ops) && id in After(h, ops).codes
    ensures CreatedAt(ops, created, id, After(h, ops).codes[id])
    ensures After(h, ops).codes[id].user.Some? ==> created < approved && ApprovedAt(h, ops, approved, id, After(h, ops).codes[id])
  {
    hide Run, Possible, Inv;
    var before, op := ops[..|ops| - 1], ops[|ops| - 1];
    var db := After(h, before);
    Reachable(h, before);
    WhoSetsCode(h, db, op, id);
    if id !in db.codes {
      created, approved := |before|, 0;
    } else {
      created, approved := Provenance(h, before, id);
      assert CreatedAt(ops, created, id, After(h, ops).codes[id]);
      if After(h, ops).codes[id].user == db.codes[id].user && After(h, ops).codes[id].codeHash == db.codes[id].codeHash {
        if db.codes[id].user.Some? {
          assert before[..approved] == ops[..approved];
        }
      } else {
        approved := |before|;
      }
    }
  }

  /**
   Tokens are first issued for a code only when somebody approved it in time, it has not expired,
   and the verifier hashes to the challenge it was created with; the new device is the approver's.
   */
  lemma {:induction false} TokensNeedApproval(h: Hashes, ops: seq<Op>, j: nat) returns (id: CodeId, created: nat, approved: nat)
    requires History(h, ops) && j < |ops| && ops[j].ExchangeOp?
    requires Run(h, After(h, ops[..j]), ops[j]).reply.Tokens?
    ensures created < approved < j
    ensures ops[created].CreateCodeOp? && ops[created].id == id && ops[approved].ApproveOp? && ops[approved].id == id
    ensures h.token(ops[j].code) == h.token(ops[approved].code)
    ensures Run(h, After(h, ops[..approved]), ops[approved]).reply == Approval(ops[approved].code)
    ensures ValidAccess(After(h, ops[..approved]).access, ops[approved].session, ops[approved].user, ops[approved].now)
    ensures ops[approved].now <= ops[created].now + CODE_TTL && ops[j].now <= ops[created].now + CODE_TTL
    ensures h.s256(ops[j].verifier) == ops[created].challenge
    ensures var after := After(h, ops[..j + 1]);
      && ops[j].device in after.devices && after.devices[ops[j].device].user == ops[approved].user
      && id in after.codes && after.codes[id].status == Exchanged && after.codes[id].device == Some(ops[j].device)
  {
    hide After, Possible, Inv, Issue;
    HistoryPrefix(h, ops, j);
    var db := After(h, ops[..j]);
    AfterNext(h, ops, j);
    var found := FindCode(db.codes, h.token(ops[j].code));
    id := found.value;
    created, approved := Provenance(h, ops[..j], id);
    assert ops[..j][..approved] == ops[..approved];
    IssuedFor(h, db, id, ops[j]);
  }

  lemma IssuedFor(h: Hashes, db: Db, id: CodeId, op: Op)
    requires op.ExchangeOp? && id in db.codes && db.codes[id].user.Some?
    ensures var after := Exchanging(h, db, id, db.codes[id].user.value, op.device, op.raw, op.jti, op.now);
      && op.device in after.devices && after.devices[op.device].user == db.codes[id].user.value
      && id in after.codes && after.codes[id].status == Exchanged && after.codes[id].device == Some(op.device)
  {
  }

  // ----- a code is good for one attempt -----

  ghost predicate Used(db: Db, digest: Digest) {
    exists id :: HasHash(db.codes, id, digest) && Final(db.codes[id].status)
  }

  /** Presenting a known code, rightly or wrongly, uses it up. */
  lemma AttemptUses(h: Hashes, db: Db, op: Op)
    requires Inv(h, db) && op.ExchangeOp? && (exists id :: HasHash(db.codes, id, h.token(op.code)))
    ensures Used(Run(h, db, op).db, h.token(op.code))
  {
    hide TokensOk, CodesMatchDevices, HashesUnique, PendingOk, Exchange;
    ExchangeCodes(h, db, op);
    var id := FindCode(db.codes, h.token(op.code)).value;
    assert CodeRowOk(db.users, db.devices, db.codes[id]);
    var after := Run(h, db, op).db;
    assert HasHash(after.codes, id, h.token(op.code)) && Final(after.codes[id].status);
  }

  lemma UsedIsRefused(h: Hashes, db: Db, op: Op)
    requires Inv(h, db) && op.ExchangeOp? && Used(db, h.token(op.code))
    ensures Run(h, db, op).reply == BadCode
  {
    hide TokensOk, CodesMatchDevices, PendingOk;
    var id :| HasHash(db.codes, id, h.token(op.code)) && Final(db.codes[id].status);
    assert FindCode(db.codes, h.token(op.code)) == Some(id);
  }

  /**
   Once a code has been presented, with the right verifier or a wrong one, nobody exchanges it again:
   so each code is exchanged at most once, and a wrong verifier burns it.
   */
  lemma {:induction false} OneAttemptPerCode(h: Hashes, ops: seq<Op>, i: nat, j: nat)
    requires History(h, ops) && i < j < |ops| && ops[i].ExchangeOp? && ops[j].ExchangeOp?
    requires h.token(ops[i].code) == h.token(ops[j].code)
    requires exists id :: HasHash(After(h, ops[..i]).codes, id, h.token(ops[i].code))
    ensures Run(h, After(h, ops[..j]), ops[j]).reply == BadCode
  {
    hide After, Run, Possible, Inv;
    HistoryPrefix(h, ops, i);
    HistoryPrefix(h, ops, j);
    Reachable(h, ops[..i]);
    Reachable(h, ops[..j]);
    AfterNext(h, ops, i);
    AttemptUses(h, After(h, ops[..i]), ops[i]);
    var id :| HasHash(After(h, ops[..i + 1]).codes, id, h.token(ops[i].code)) && Final(After(h, ops[..i + 1]).codes[id].status);
    CodeKeepsMoving(h, ops, i + 1, j, id);
    assert HasHash(After(h, ops[..j]).codes, id, h.token(ops[j].code));
    UsedIsRefused(h, After(h, ops[..j]), ops[j]);
  }

  /** Exchanged codes and devices: each device has exactly one code, approved by its own person. */
  lemma DevicesMatchCodes(h: Hashes, ops: seq<Op>, d: DeviceId)
    requires History(h, ops) && d in After(h, ops).devices
    ensures var db := After(h, ops);
      exists id :: MadeBy(db.codes, d, id) && db.codes[id].status == Exchanged && db.codes[id].user == Some(db.devices[d].user)
        && forall other | MadeBy(db.codes, d, other) :: other == id
  {
    hide After, TokensOk, HashesUnique, PendingOk;
    Reachable(h, ops);
    var db := After(h, ops);
    var id :| MadeBy(db.codes, d, id);
    assert CodeRowOk(db.users, db.devices, db.codes[id]);
  }

  // ----- the plain code is handed to one poll -----

  ghost predicate Collected(db: Db, id: CodeId) { id in db.codes && db.codes[id].user.Some? && id !in db.pending }

  lemma CollectedStays(h: Hashes, db: Db, op: Op, id: CodeId)
    requires Inv(h, db) && Possible(h, db, op) && Collected(db, id)
    ensures Collected(Run(h, db, op).db, id)
  {
    hide TokensOk, CodesMatchDevices, HashesUnique, PendingOk, Run, Possible;
    assert CodeRowOk(db.users, db.devices, db.codes[id]);
    if id in Run(h, db, op).db.pending {
      OnlyApprovalAddsPending(h, db, op, id);
    }
    CodeMovesOn(h, db, op, id);
  }

  lemma OnlyApprovalAddsPending(h: Hashes, db: Db, op: Op, id: CodeId)
    requires id in Run(h, db, op).db.pending && id !in db.pending
    ensures op.ApproveOp? && op.id == id && id in db.codes && db.codes[id].status == Pending
  {
    if op.ExchangeOp? {
      hide Run;
      ExchangeCodes(h, db, op);
    } else if !op.CreateCodeOp? && !op.PollOp? && !op.ApproveOp? && !op.DenyOp? {
      hide Run;
      TokenRequestKeepsCodes(h, db, op);
    }
  }

  lemma {:induction false} CollectedKeeps(h: Hashes, ops: seq<Op>, i: nat, j: nat, id: CodeId)
    requires History(h, ops) && i <= j <= |ops| && Collected(After(h, ops[..i]), id)
    ensures Collected(After(h, ops[..j]), id)
    decreases j
  {
    hide Run, After, Possible, Inv, Collected;
    if i < j {
      CollectedKeeps(h, ops, i, j - 1, id);
      HistoryPrefix(h, ops, j - 1);
      Reachable(h, ops[..j - 1]);
      AfterNext(h, ops, j - 1);
      CollectedStays(h, After(h, ops[..j - 1]), ops[j - 1], id);
    }
  }

  ghost predicate CarriesCode(h: Hashes, ops: seq<Op>, i: nat, id: CodeId)
    requires i < |ops|
  {
    && ops[i].PollOp? && ops[i].id == id
    && Poll(After(h, ops[..i]), id, ops[i].now).reply.CodeStatus?
    && Poll(After(h, ops[..i]), id, ops[i].now).reply.carried.Some?
  }

  /** At most one poll carries the plain code, and it is the code the row holds the hash of. */
  lemma OnePollCarriesTheCode(h: Hashes, ops: seq<Op>, i: nat, j: nat, id: CodeId)
    requires History(h, ops) && i < |ops| && j < |ops|
    requires CarriesCode(h, ops, i, id) && CarriesCode(h, ops, j, id)
    ensures i == j
    ensures HasHash(After(h, ops[..i]).codes, id, h.token(Poll(After(h, ops[..i]), id, ops[i].now).reply.carried.value))
  {
    hide After, Possible, TokensOk, CodesMatchDevices, HashesUnique;
    var first, last := if i <= j then i else j, if i <= j then j else i;
    HistoryPrefix(h, ops, first);
    HistoryPrefix(h, ops, i);
    Reachable(h, ops[..first]);
    Reachable(h, ops[..i]);
    AfterNext(h, ops, first);
    var db := After(h, ops[..first]);
    assert CodeRowOk(db.users, db.devices, db.codes[id]);
    assert Collected(After(h, ops[..first + 1]), id);
    if first < last {
      CollectedKeeps(h, ops, first + 1, last, id);
      assert false;
    }
  }
}
