/** How long a device stays signed in: thirty days from its newest tokens, over whole runs. */
module SignInLapses {
  import opened Prelude
  import opened SignIn
  import opened SignInInvariant
  import opened SignInSafety
  import opened SignInLineage
  import opened SignInOutlives
  import opened SignInAnswers

  /** Request i gives a device tokens: its exchange, or a rotation. */
  ghost predicate IssuedTo(h: Hashes, ops: seq<Op>, i: nat, d: DeviceId) {
    i < |ops| && Given(Run(h, After(h, ops[..i]), ops[i]).reply, d)
  }

  predicate Given(reply: Reply, d: DeviceId) { reply.Tokens? && reply.device == Some(d) }

  /** What one request does to a device's live refresh token. */
  lemma LiveAfter(h: Hashes, ops: seq<Op>, op: Op, t: Digest, d: DeviceId)
    requires History(h, ops) && Possible(h, After(h, ops), op)
    requires LiveRefresh(Run(h, After(h, ops), op).db.refresh, t, d)
    ensures var db, out := After(h, ops), Run(h, After(h, ops), op);
      if Given(out.reply, d) then
        && (op.ExchangeOp? || op.RefreshOp?) && t == h.token(op.raw) && out.db.refresh[t].expiresAt == op.now + REFRESH_TTL
      else LiveRefresh(db.refresh, t, d) && out.db.refresh[t].expiresAt == db.refresh[t].expiresAt
  {
    hide After, History, Run, Possible, Issued, Named, CodesOk, EndedHasNoTokens;
    var db, out := After(h, ops), Run(h, After(h, ops), op);
    Reachable(h, ops);
    RunChanges(h, db, op);
    GivenTo(h, ops, op);
    hide LiveRefresh;
    if Issued(h, db, op) {
      if Given(out.reply, d) && op.ExchangeOp? { NoneYet(db, d); }
      hide OneLiveRefresh, TokensOwned;
      PairLive(db, out.db, SpentBy(h, op), h.token(op.raw), op.jti, t, d);
    } else {
      RevokedLive(h, db, op, out.db, t, d);
    }
  }

  lemma NoneYet(db: Db, d: DeviceId)
    requires TokensOwned(db.users, db.devices, db.refresh, db.access) && d !in db.devices
    ensures forall u :: !LiveRefresh(db.refresh, u, d)
  {
  }

  /** The new token is live, and of the old ones all but that spent. */
  lemma PairLive(db: Db, after: Db, spent: Option<Digest>, issued: Digest, j: Jti, t: Digest, d: DeviceId)
    requires OneLiveRefresh(db.refresh) && Pairs(db, after, spent, issued, j) && LiveRefresh(after.refresh, t, d)
    ensures t == issued || (LiveRefresh(db.refresh, t, d) && spent != Some(t) && after.refresh[t].expiresAt == db.refresh[t].expiresAt)
    ensures spent.Some? && LiveRefresh(db.refresh, spent.value, d) ==> t == issued
    ensures t == issued ==> after.refresh[issued].device == Some(d)
  {
  }

  lemma RevokedLive(h: Hashes, db: Db, op: Op, after: Db, t: Digest, d: DeviceId)
    requires Changed(h, db, op, after) && !Issued(h, db, op) && LiveRefresh(after.refresh, t, d)
    ensures LiveRefresh(db.refresh, t, d) && after.refresh[t].expiresAt == db.refresh[t].expiresAt
  {
    hide Issued, Named;
  }

  /** Which tokens a reply stands for. */
  lemma GivenTo(h: Hashes, ops: seq<Op>, op: Op)
    requires History(h, ops) && Possible(h, After(h, ops), op)
    ensures var db, out := After(h, ops), Run(h, After(h, ops), op);
      && (out.reply.Tokens? <==> Issued(h, db, op))
      && (out.reply.Tokens? ==>
            && MayIssue(op) && h.token(op.raw) in out.db.refresh && out.db.refresh[h.token(op.raw)].device == out.reply.device
            && out.db.refresh[h.token(op.raw)].expiresAt == op.now + REFRESH_TTL
            && (op.RefreshOp? ==> LiveRefresh(db.refresh, h.token(op.presented), out.reply.device.value) && out.reply.device.Some?)
            && (op.ExchangeOp? ==> out.reply.device == Some(op.device) && op.device !in db.devices)
            && (op.WebSignInOp? || op.WebRotateOp? ==> out.reply.device.None?))
  {
    hide After, History;
    var db := After(h, ops);
    match op
    case RefreshOp(_, _, _, _) => hide Run, Possible; RefreshAnswers(h, ops, op); assert Possible(h, db, op);
    case WebRotateOp(_, _, _, _) => hide Run, Possible; RotationAnswers(h, ops, op);
    case WebSignInOp(_, _, _, _) => WebSignInAnswers(h, db, op);
    case ExchangeOp(_, _, _, _, _, _) =>
    case _ =>
  }

  /** A device's live refresh token is the one it was given last, and expires 30 days after that. */
  lemma {:induction false} LiveFrom(h: Hashes, ops: seq<Op>, t: Digest, d: DeviceId) returns (i: nat)
    requires History(h, ops) && LiveRefresh(After(h, ops).refresh, t, d)
    ensures IssuedTo(h, ops, i, d) && (ops[i].ExchangeOp? || ops[i].RefreshOp?)
    ensures t == h.token(ops[i].raw) && After(h, ops).refresh[t].expiresAt == ops[i].now + REFRESH_TTL
    ensures forall m: nat | i < m < |ops| :: !IssuedTo(h, ops, m, d)
  {
    hide Run, Possible, Given;
    var before, last := ops[..|ops| - 1], |ops| - 1;
    LiveAfter(h, before, ops[last], t, d);
    if IssuedTo(h, ops, last, d) {
      i := last;
    } else {
      i := LiveFrom(h, before, t, d);
      forall m: nat | m < last ensures IssuedTo(h, ops, m, d) == IssuedTo(h, before, m, d) { assert before[..m] == ops[..m]; }
    }
  }

  /** A rotation is of the token given last, and within 30 days of it. */
  lemma {:induction false} RotatesInTime(h: Hashes, ops: seq<Op>, j: nat, d: DeviceId) returns (i: nat)
    requires History(h, ops) && IssuedTo(h, ops, j, d) && ops[j].RefreshOp?
    ensures i < j && IssuedTo(h, ops, i, d) && (ops[i].ExchangeOp? || ops[i].RefreshOp?)
    ensures forall m: nat | i < m < j :: !IssuedTo(h, ops, m, d)
    ensures h.token(ops[j].presented) == h.token(ops[i].raw) && ops[j].now <= ops[i].now + REFRESH_TTL
  {
    hide Run, Possible, After, History;
    HistoryPrefix(h, ops, j);
    var before := ops[..j];
    RefreshAnswers(h, before, ops[j]);
    var t := h.token(ops[j].presented);
    var e :| LiveRefresh(After(h, before).refresh, t, e);
    i := LiveFrom(h, before, t, d);
    forall m: nat | m < j ensures IssuedTo(h, ops, m, d) == IssuedTo(h, before, m, d) { assert before[..m] == ops[..m]; }
  }

  lemma {:induction false} DeviceStays(h: Hashes, ops: seq<Op>, i: nat, j: nat, d: DeviceId)
    requires History(h, ops) && i <= j <= |ops| && d in After(h, ops[..i]).devices
    ensures d in After(h, ops[..j]).devices
    decreases j
  {
    hide Run, Possible, After;
    if i < j {
      DeviceStays(h, ops, i, j - 1, d);
      HistoryPrefix(h, ops, j - 1);
      AfterNext(h, ops, j - 1);
      OwnersStay(h, After(h, ops[..j - 1]), ops[j - 1]);
    }
  }

  /** Only the first tokens of a device come from an exchange. */
  lemma ThenRotations(h: Hashes, ops: seq<Op>, i: nat, j: nat, d: DeviceId)
    requires History(h, ops) && i < j && IssuedTo(h, ops, i, d) && IssuedTo(h, ops, j, d)
    ensures ops[j].RefreshOp?
  {
    hide Run, Possible, After, History, CodesOk;
    HistoryPrefix(h, ops, i);
    HistoryPrefix(h, ops, i + 1);
    HistoryPrefix(h, ops, j);
    AfterNext(h, ops, i);
    GivenTo(h, ops[..i], ops[i]);
    Reachable(h, ops[..i + 1]);
    DeviceStays(h, ops, i + 1, j, d);
    GivenTo(h, ops[..j], ops[j]);
  }

  /** A device that is not heard of for 30 days from its newest tokens gets no more. */
  lemma {:induction false} LapsedForGood(h: Hashes, ops: seq<Op>, i: nat, j: nat, d: DeviceId)
    requires History(h, ops) && i < j < |ops| && IssuedTo(h, ops, i, d)
    requires forall m: nat | i < m <= j :: ops[m].now > ops[i].now + REFRESH_TTL
    ensures !IssuedTo(h, ops, j, d)
    decreases j
  {
    hide Run, Possible, After, History, IssuedTo;
    if IssuedTo(h, ops, j, d) {
      ThenRotations(h, ops, i, j, d);
      var k := RotatesInTime(h, ops, j, d);
      if k > i { LapsedForGood(h, ops, i, k, d); }
      assert false;
    }
  }
}
