/** What a poll answers: the status of the code, and once, after an approval, the plain code. */
module SignInPolls {
  import opened Prelude
  import opened SignIn
  import opened SignInInvariant
  import opened SignInSafety
  import opened SignInCodes
  import opened SignInAnswers

  /** The plain code waits for a poll. */
  ghost predicate Waiting(h: Hashes, db: Db, id: CodeId, code: Secret) {
    && id in db.codes && db.codes[id].status == Approved && db.codes[id].codeHash == Some(h.token(code))
    && id in db.pending && db.pending[id] == code
  }

  /** It has been handed out, or the code has come to its end. */
  ghost predicate Over(db: Db, id: CodeId) {
    id in db.codes && db.codes[id].user.Some? && (id !in db.pending || Final(db.codes[id].status))
  }

  /** A poll takes it, an exchange uses the code up, and any other look at the code after its time ends it. */
  ghost predicate Takes(h: Hashes, db: Db, op: Op, id: CodeId)
    requires id in db.codes
  {
    LooksAt(h, db, op, id) && (op.PollOp? || op.ExchangeOp? || op.now > db.codes[id].expiresAt)
  }

  /** What a request does to the plain codes. */
  lemma PendingMoves(h: Hashes, db: Db, op: Op, id: CodeId)
    requires Inv(h, db) && Possible(h, db, op) && id in db.codes && db.codes[id].status == Approved
    ensures var after := Run(h, db, op).db;
      && (id in after.pending ==> id in db.pending && after.pending[id] == db.pending[id])
      && (!LooksAt(h, db, op, id) || !(op.PollOp? || op.ExchangeOp?) ==> (id in after.pending <==> id in db.pending))
      && (op.PollOp? && op.id == id && op.now <= db.codes[id].expiresAt ==> id !in after.pending)
  {
    hide TokensOk, CodesMatchDevices, PendingOk, Possible, Run;
    assert CodeRowOk(db.users, db.devices, db.codes[id]);
    if op.ExchangeOp? {
      ExchangeCodes(h, db, op);
      FoundIfHashed(h, db, op, id);
    } else if op.CreateCodeOp? || op.PollOp? || op.ApproveOp? || op.DenyOp? {
      hide HashesUnique;
      CodeRequestPending(h, db, op, id);
    } else {
      TokenRequestKeepsCodes(h, db, op);
    }
  }

  lemma CodeRequestPending(h: Hashes, db: Db, op: Op, id: CodeId)
    requires op.CreateCodeOp? || op.PollOp? || op.ApproveOp? || op.DenyOp?
    requires id in db.codes && db.codes[id].status == Approved && db.codes[id].codeHash.Some?
    ensures var after := Run(h, db, op).db;
      && (id in after.pending ==> id in db.pending && after.pending[id] == db.pending[id])
      && (!(op.PollOp? && op.id == id) ==> (id in after.pending <==> id in db.pending))
      && (op.PollOp? && op.id == id && op.now <= db.codes[id].expiresAt ==> id !in after.pending)
  {
  }

  lemma WaitingStep(h: Hashes, db: Db, op: Op, id: CodeId, code: Secret)
    requires Inv(h, db) && Possible(h, db, op) && Waiting(h, db, id, code)
    ensures var after := Run(h, db, op).db;
      if Takes(h, db, op, id) then Over(after, id) else Waiting(h, after, id, code)
  {
    hide Inv, Run, Possible;
    CodeMovesOn(h, db, op, id);
    StatusFollows(h, db, op, id);
    PendingMoves(h, db, op, id);
    ApprovedHasUser(h, db, id);
  }

  lemma ApprovedHasUser(h: Hashes, db: Db, id: CodeId)
    requires Inv(h, db) && id in db.codes && db.codes[id].status == Approved
    ensures db.codes[id].user.Some? && db.codes[id].codeHash.Some?
  {
    hide TokensOk, CodesMatchDevices, PendingOk, HashesUnique;
    assert CodeRowOk(db.users, db.devices, db.codes[id]);
  }

  lemma OverStays(h: Hashes, db: Db, op: Op, id: CodeId)
    requires Inv(h, db) && Possible(h, db, op) && Over(db, id)
    ensures Over(Run(h, db, op).db, id)
  {
    hide Inv, Run, Possible;
    CodeMovesOn(h, db, op, id);
    UserStays(h, db, id);
    if id !in db.pending { CollectedStays(h, db, op, id); }
  }

  lemma UserStays(h: Hashes, db: Db, id: CodeId)
    requires Inv(h, db) && id in db.codes && db.codes[id].user.Some?
    ensures db.codes[id].codeHash.Some?
  {
    hide TokensOk, CodesMatchDevices, PendingOk, HashesUnique;
    assert CodeRowOk(db.users, db.devices, db.codes[id]);
  }

  /** Request a of the run approves the code, which is this one. */
  ghost predicate ApprovesAt(h: Hashes, ops: seq<Op>, a: nat, id: CodeId) {
    && a < |ops| && ops[a].ApproveOp? && ops[a].id == id
    && id in After(h, ops[..a]).codes && Run(h, After(h, ops[..a]), ops[a]).reply == Approval(ops[a].code)
  }

  lemma ApprovalWaits(h: Hashes, db: Db, op: Op)
    requires op.ApproveOp? && Run(h, db, op).reply == Approval(op.code)
    ensures Waiting(h, Run(h, db, op).db, op.id, op.code)
  {
  }

  ghost predicate TakenAt(h: Hashes, ops: seq<Op>, m: nat, id: CodeId) {
    m < |ops| && id in After(h, ops[..m]).codes && Takes(h, After(h, ops[..m]), ops[m], id)
  }

  /** From its approval on, the code waits until something takes it. */
  lemma {:induction false} WaitsUntilTaken(h: Hashes, ops: seq<Op>, a: nat, j: nat, id: CodeId)
    requires History(h, ops) && ApprovesAt(h, ops, a, id) && a < j <= |ops|
    ensures Waiting(h, After(h, ops[..j]), id, ops[a].code) || Over(After(h, ops[..j]), id)
    ensures Waiting(h, After(h, ops[..j]), id, ops[a].code) <==> forall m: nat | a < m < j :: !TakenAt(h, ops, m, id)
    decreases j
  {
    hide After, Run, Possible, Inv, Takes;
    AfterNext(h, ops, j - 1);
    if j == a + 1 {
      ApprovalWaits(h, After(h, ops[..a]), ops[a]);
    } else {
      WaitsUntilTaken(h, ops, a, j - 1, id);
      HistoryPrefix(h, ops, j - 1);
      Reachable(h, ops[..j - 1]);
      var db := After(h, ops[..j - 1]);
      if Waiting(h, db, id, ops[a].code) {
        WaitingStep(h, db, ops[j - 1], id, ops[a].code);
        assert TakenAt(h, ops, j - 1, id) <==> Takes(h, db, ops[j - 1], id);
      } else {
        OverStays(h, db, ops[j - 1], id);
      }
    }
  }

  lemma PollIs(h: Hashes, db: Db, id: CodeId, now: int)
    requires id in db.codes
    ensures var out := Poll(db, id, now);
      && out.reply.CodeStatus? && id in out.db.codes && out.reply.status == out.db.codes[id].status
      && (out.reply.carried.Some? <==>
            db.codes[id].status == Approved && now <= db.codes[id].expiresAt && db.codes[id].codeHash.Some? && id in db.pending)
      && (out.reply.carried.Some? ==> out.reply.status == Approved && out.reply.carried.value == db.pending[id])
  {
  }

  /** Any poll shows the code's status as it is after the poll; one of no code answers that there is none. */
  lemma {:induction false} PollShows(h: Hashes, ops: seq<Op>, j: nat)
    requires History(h, ops) && j < |ops| && ops[j].PollOp?
    ensures var db, out := After(h, ops[..j]), Run(h, After(h, ops[..j]), ops[j]);
      var id := ops[j].id;
      if id !in db.codes then out == Outcome(db, NotFound)
      else
        && out.reply.CodeStatus? && out.reply.status == Following(h, db.codes[id], ops[j])
        && (out.reply.carried.Some? ==> out.reply.status == Approved)
  {
    hide After, Possible, Inv, Following;
    HistoryPrefix(h, ops, j);
    Reachable(h, ops[..j]);
    if ops[j].id in After(h, ops[..j]).codes {
      StatusFollows(h, After(h, ops[..j]), ops[j], ops[j].id);
      PollIs(h, After(h, ops[..j]), ops[j].id, ops[j].now);
    }
  }

  /**
   After an approval, a poll carries the approved code if and only if it is in time and nothing has taken the code
   since: no earlier poll, no exchange of it, no look at it past its time.
   */
  lemma {:induction false} FirstPollCarries(h: Hashes, ops: seq<Op>, a: nat, j: nat, id: CodeId)
    requires History(h, ops) && ApprovesAt(h, ops, a, id) && a < j < |ops| && ops[j].PollOp? && ops[j].id == id
    ensures var reply := Run(h, After(h, ops[..j]), ops[j]).reply;
      && reply.CodeStatus?
      && (reply.carried.Some? <==>
            ops[j].now <= After(h, ops[..a]).codes[id].expiresAt && forall m: nat | a < m < j :: !TakenAt(h, ops, m, id))
      && (reply.carried.Some? ==> reply == CodeStatus(Approved, Some(ops[a].code)))
  {
    hide After, Possible, Inv, TakenAt, Poll;
    WaitsUntilTaken(h, ops, a, j, id);
    HistoryPrefix(h, ops, j);
    CodeKeepsMoving(h, ops, a, j, id);
    PollIs(h, After(h, ops[..j]), id, ops[j].now);
  }
}
