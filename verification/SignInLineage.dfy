/** Which tokens descend from which by rotation, and what of a device's session outlives the device. */
module SignInLineage {
  import opened Prelude
  import opened SignIn
  import opened SignInInvariant
  import opened SignInSafety

  /**
   The line of each token: the refresh tokens it comes from by rotation, oldest first. A refresh token is the
   last of its own line, and an access token has the line of the refresh token it was issued with.
   */
  datatype Lines = Lines(refresh: map<Digest, seq<Digest>>, access: map<Jti, seq<Digest>>)

  predicate MayIssue(op: Op) { op.ExchangeOp? || op.RefreshOp? || op.WebSignInOp? || op.WebRotateOp? }

  function ParentLine(h: Hashes, lines: Lines, op: Op): seq<Digest> {
    if (op.RefreshOp? || op.WebRotateOp?) && h.token(op.presented) in lines.refresh
    then lines.refresh[h.token(op.presented)] else []
  }

  ghost predicate Issued(h: Hashes, db: Db, op: Op) { MayIssue(op) && Run(h, db, op).reply.Tokens? }

  /** A rotation continues the line of the token presented; a sign-in or an exchange begins a new one. */
  ghost function Trace(h: Hashes, db: Db, lines: Lines, op: Op): Lines {
    if !Issued(h, db, op) then lines else
      var line := ParentLine(h, lines, op) + [h.token(op.raw)];
      Lines(lines.refresh[h.token(op.raw) := line], lines.access[op.jti := line])
  }

  ghost function LinesOf(h: Hashes, ops: seq<Op>): Lines {
    if ops == [] then Lines(map[], map[]) else
      var before := ops[..|ops| - 1];
      Trace(h, After(h, before), LinesOf(h, before), ops[|ops| - 1])
  }

  /** A token of the device is in the line. */
  predicate Descends(refresh: RefreshTable, line: seq<Digest>, d: DeviceId) {
    exists u :: u in line && u in refresh && refresh[u].device == Some(d)
  }

  /** A refresh token that is not revoked and descends from the device, its own or not. */
  predicate AliveRefresh(db: Db, lines: Lines, d: DeviceId, t: Digest) {
    t in db.refresh && t in lines.refresh && !db.refresh[t].revoked && Descends(db.refresh, lines.refresh[t], d)
  }

  predicate AliveAccess(db: Db, lines: Lines, d: DeviceId, j: Jti) {
    j in db.access && j in lines.access && !db.access[j].revoked && Descends(db.refresh, lines.access[j], d)
  }

  /** The same, in a row that no longer names a device. */
  predicate OutsideRefresh(db: Db, lines: Lines, d: DeviceId, t: Digest) {
    AliveRefresh(db, lines, d, t) && db.refresh[t].device.None?
  }

  predicate OutsideAccess(db: Db, lines: Lines, d: DeviceId, j: Jti) {
    AliveAccess(db, lines, d, j) && db.access[j].device.None?
  }

  // ----- what a line looks like -----

  /** A line ends in its token, stays with one person, and is all of one device if the token is a device's. */
  predicate LineOk(refresh: RefreshTable, line: seq<Digest>, t: Digest) {
    && line != [] && line[|line| - 1] == t && t in refresh
    && (forall u | u in line :: u in refresh && refresh[u].user == refresh[t].user)
    && (refresh[t].device.Some? ==> forall u | u in line :: u in refresh && refresh[u].device == refresh[t].device)
  }

  predicate AccessLineOk(refresh: RefreshTable, line: seq<Digest>, row: AccessRow) {
    && line != [] && LineOk(refresh, line, line[|line| - 1])
    && refresh[line[|line| - 1]].user == row.user && refresh[line[|line| - 1]].device == row.device
  }

  ghost predicate LinesOk(db: Db, lines: Lines) {
    && lines.refresh.Keys == db.refresh.Keys && lines.access.Keys == db.access.Keys
    && (forall t | t in db.refresh :: LineOk(db.refresh, lines.refresh[t], t))
    && (forall j | j in db.access :: AccessLineOk(db.refresh, lines.access[j], db.access[j]))
  }

  // ----- what a request does to the token rows -----

  /** One new pair of rows, and at most one refresh token spent for it. */
  ghost predicate Pairs(db: Db, after: Db, spent: Option<Digest>, t: Digest, j: Jti) {
    && t !in db.refresh && j !in db.access
    && after.refresh.Keys == db.refresh.Keys + {t} && after.access.Keys == db.access.Keys + {j}
    && !after.refresh[t].revoked && !after.access[j].revoked
    && after.access[j].user == after.refresh[t].user && after.access[j].device == after.refresh[t].device
    && (forall u | u in db.refresh :: after.refresh[u] == if spent == Some(u) then db.refresh[u].(revoked := true) else db.refresh[u])
    && (forall k | k in db.access :: after.access[k] == db.access[k])
  }

  /** A person's rows are revoked, and no others. */
  ghost predicate EndsPerson(db: Db, after: Db, user: UserId) {
    && after.refresh.Keys == db.refresh.Keys && after.access.Keys == db.access.Keys
    && (forall u | u in db.refresh :: after.refresh[u] == if db.refresh[u].user == user then db.refresh[u].(revoked := true) else db.refresh[u])
    && (forall k | k in db.access :: after.access[k] == if db.access[k].user == user then db.access[k].(revoked := true) else db.access[k])
  }

  /** At most rows of devices are revoked. */
  ghost predicate EndsDevices(db: Db, after: Db) {
    && after.refresh.Keys == db.refresh.Keys && after.access.Keys == db.access.Keys
    && (forall u | u in db.refresh :: after.refresh[u] == db.refresh[u]
          || (db.refresh[u].device.Some? && after.refresh[u] == db.refresh[u].(revoked := true)))
    && (forall k | k in db.access :: after.access[k] == db.access[k]
          || (db.access[k].device.Some? && after.access[k] == db.access[k].(revoked := true)))
  }

  predicate SignsOut(h: Hashes, db: Db, op: Op, user: UserId) {
    op.WebSignOutOp? && Named(h, db, op.bearer, op.refresh, op.now) == Some(user)
  }

  function SpentBy(h: Hashes, op: Op): Option<Digest> {
    if op.RefreshOp? || op.WebRotateOp? then Some(h.token(op.presented)) else None
  }

  /** The device column of new rows is the new device, that of the token presented, or, for the website, empty. */
  ghost predicate Columns(h: Hashes, db: Db, op: Op, after: Db)
    requires MayIssue(op) && h.token(op.raw) in after.refresh
  {
    var row := after.refresh[h.token(op.raw)];
    && (SpentBy(h, op).Some? ==> var p := SpentBy(h, op).value;
          p in db.refresh && !db.refresh[p].revoked && row.user == db.refresh[p].user)
    && (op.ExchangeOp? ==> row.device == Some(op.device))
    && (op.RefreshOp? ==> row.device == db.refresh[h.token(op.presented)].device && row.device.Some?)
    && (op.WebRotateOp? || op.WebSignInOp? ==> row.device.None?)
  }

  ghost predicate Changed(h: Hashes, db: Db, op: Op, after: Db) {
    if Issued(h, db, op) then Pairs(db, after, SpentBy(h, op), h.token(op.raw), op.jti) && Columns(h, db, op, after)
    else if op.WebSignOutOp? && Named(h, db, op.bearer, op.refresh, op.now).Some?
    then EndsPerson(db, after, Named(h, db, op.bearer, op.refresh, op.now).value)
    else EndsDevices(db, after)
  }

  lemma SameTables(db: Db, after: Db)
    ensures after.refresh == db.refresh && after.access == db.access ==> EndsDevices(db, after)
  {
  }

  lemma IssuePairs(h: Hashes, db: Db, user: UserId, device: DeviceId, raw: Secret, jti: Jti, now: int)
    requires device in db.devices && h.token(raw) !in db.refresh && jti !in db.access
    ensures var after := Issue(h, db, user, device, raw, jti, now);
      && Pairs(db, after, None, h.token(raw), jti)
      && after.refresh[h.token(raw)].user == user && after.refresh[h.token(raw)].device == Some(device)
  {
  }

  lemma IssueWebPairs(h: Hashes, db: Db, user: UserId, raw: Secret, jti: Jti, now: int)
    requires h.token(raw) !in db.refresh && jti !in db.access
    ensures var after := IssueWeb(h, db, user, raw, jti, now);
      && Pairs(db, after, None, h.token(raw), jti)
      && after.refresh[h.token(raw)].user == user && after.refresh[h.token(raw)].device.None?
  {
  }

  /** Spending first, then issuing. */
  lemma SpendThenPairs(db: Db, p: Digest, after: Db, t: Digest, j: Jti)
    requires p in db.refresh && Pairs(Spend(db, p), after, None, t, j)
    ensures Pairs(db, after, Some(p), t, j)
  {
    assert Spend(db, p).refresh.Keys == db.refresh.Keys;
  }

  lemma CodeChanges(h: Hashes, db: Db, op: Op)
    requires op.CreateCodeOp? || op.PollOp? || op.ApproveOp? || op.DenyOp?
    ensures Changed(h, db, op, Run(h, db, op).db)
  {
    hide ExpireIfDue, EndsDevices, EndsPerson, Pairs;
    SameTables(db, Run(h, db, op).db);
  }

  lemma ExchangingPairs(h: Hashes, db: Db, id: CodeId, user: UserId, device: DeviceId, raw: Secret, jti: Jti, now: int)
    requires id in db.codes && h.token(raw) !in db.refresh && jti !in db.access
    ensures var after := Exchanging(h, db, id, user, device, raw, jti, now);
      && Pairs(db, after, None, h.token(raw), jti)
      && after.refresh[h.token(raw)].user == user && after.refresh[h.token(raw)].device == Some(device)
  {
  }

  lemma FoundIsThere(codes: map<CodeId, CodeRow>, digest: Digest)
    ensures FindCode(codes, digest).Some? ==> FindCode(codes, digest).value in codes
  {
  }

  lemma ExchangeChanges(h: Hashes, db: Db, op: Op)
    requires op.ExchangeOp? && Possible(h, db, op)
    ensures Changed(h, db, op, Run(h, db, op).db)
  {
    hide ExpireIfDue, EndsDevices, EndsPerson, Pairs, Exchanging, FindCode, Named;
    SameTables(db, Run(h, db, op).db);
    var found := FindCode(db.codes, h.token(op.code));
    FoundIsThere(db.codes, h.token(op.code));
    if found.Some? {
      var row := ExpireIfDue(db.codes[found.value], op.now);
      if row.user.Some? { ExchangingPairs(h, db, found.value, row.user.value, op.device, op.raw, op.jti, op.now); }
    }
  }

  lemma PairsOfTables(mid: Db, db: Db, after: Db, spent: Option<Digest>, t: Digest, j: Jti)
    requires mid.refresh == db.refresh && mid.access == db.access && Pairs(mid, after, spent, t, j)
    ensures Pairs(db, after, spent, t, j)
  {
  }

  lemma RefreshChanges(h: Hashes, db: Db, op: Op)
    requires op.RefreshOp? && Possible(h, db, op)
    ensures Changed(h, db, op, Run(h, db, op).db)
  {
    hide EndsDevices, EndsPerson, Pairs, Issue, RevokeDevice;
    var p := h.token(op.presented);
    SameTables(db, db);
    if p in db.refresh && db.refresh[p].device.Some? && db.refresh[p].device.value in db.devices {
      var device := db.refresh[p].device.value;
      RevokeEnds(db, device, op.now);
      IssuePairs(h, Spend(db, p), db.refresh[p].user, device, op.raw, op.jti, op.now);
      SpendThenPairs(db, p, Issue(h, Spend(db, p), db.refresh[p].user, device, op.raw, op.jti, op.now), h.token(op.raw), op.jti);
    }
  }

  lemma RevokeEnds(db: Db, device: DeviceId, now: int)
    requires device in db.devices
    ensures EndsDevices(db, RevokeDevice(db, device, now))
  {
  }

  lemma EndingChanges(h: Hashes, db: Db, op: Op)
    requires op.LogoutOp? || op.RemoveDeviceOp?
    ensures Changed(h, db, op, Run(h, db, op).db)
  {
    hide EndsDevices, EndsPerson, Pairs, RevokeDevice;
    SameTables(db, db);
    if op.RemoveDeviceOp? {
      if op.device in db.devices { RevokeEnds(db, op.device, op.now); }
    } else {
      var p := h.token(op.presented);
      if p in db.refresh && db.refresh[p].device.Some? && db.refresh[p].device.value in db.devices {
        RevokeEnds(db, db.refresh[p].device.value, op.now);
      }
    }
  }

  lemma PersonEnds(db: Db, user: UserId)
    ensures EndsPerson(db, RevokeUser(db, user), user)
  {
  }

  lemma SignOutChanges(h: Hashes, db: Db, op: Op)
    requires op.WebSignOutOp?
    ensures Changed(h, db, op, Run(h, db, op).db)
  {
    hide EndsDevices, EndsPerson, Pairs, RevokeUser;
    SameTables(db, db);
    var named := Named(h, db, op.bearer, op.refresh, op.now);
    if named.Some? { PersonEnds(db, named.value); }
  }

  lemma WebChanges(h: Hashes, db: Db, op: Op)
    requires (op.WebSignInOp? || op.WebRotateOp?) && Possible(h, db, op)
    ensures Changed(h, db, op, Run(h, db, op).db)
  {
    hide EndsDevices, EndsPerson, Pairs, IssueWeb;
    SameTables(db, db);
    if op.WebSignInOp? {
      var mid := db.(users := db.users + {op.user});
      IssueWebPairs(h, mid, op.user, op.raw, op.jti, op.now);
      PairsOfTables(mid, db, Run(h, db, op).db, None, h.token(op.raw), op.jti);
    } else {
      var p := h.token(op.presented);
      if p in db.refresh {
        IssueWebPairs(h, Spend(db, p), db.refresh[p].user, op.raw, op.jti, op.now);
        SpendThenPairs(db, p, IssueWeb(h, Spend(db, p), db.refresh[p].user, op.raw, op.jti, op.now), h.token(op.raw), op.jti);
      }
    }
  }

  lemma RunChanges(h: Hashes, db: Db, op: Op)
    requires Possible(h, db, op)
    ensures Changed(h, db, op, Run(h, db, op).db)
  {
    hide Changed, Run, Possible;
    match op
    case ExchangeOp(_, _, _, _, _, _) => ExchangeChanges(h, db, op);
    case RefreshOp(_, _, _, _) => RefreshChanges(h, db, op);
    case WebSignInOp(_, _, _, _) => WebChanges(h, db, op);
    case WebRotateOp(_, _, _, _) => WebChanges(h, db, op);
    case LogoutOp(_, _) => EndingChanges(h, db, op);
    case RemoveDeviceOp(_, _, _) => EndingChanges(h, db, op);
    case WebSignOutOp(_, _, _) => SignOutChanges(h, db, op);
    case _ => CodeChanges(h, db, op);
  }

  /** Rows stay, with their person and device. */
  ghost predicate RowsStay(before: RefreshTable, after: RefreshTable) {
    forall t | t in before :: t in after && after[t].user == before[t].user && after[t].device == before[t].device
  }

  lemma ChangesStay(h: Hashes, db: Db, op: Op, after: Db)
    requires Changed(h, db, op, after)
    ensures RowsStay(db.refresh, after.refresh)
    ensures forall j | j in db.access :: j in after.access && after.access[j].user == db.access[j].user && after.access[j].device == db.access[j].device
    ensures Issued(h, db, op) ==> after.refresh.Keys == db.refresh.Keys + {h.token(op.raw)} && after.access.Keys == db.access.Keys + {op.jti}
    ensures !Issued(h, db, op) ==> after.refresh.Keys == db.refresh.Keys && after.access.Keys == db.access.Keys
  {
    hide Issued, Named, Columns;
  }

  // ----- lines stay good -----

  lemma LineStays(before: RefreshTable, after: RefreshTable, line: seq<Digest>, t: Digest)
    requires RowsStay(before, after) && LineOk(before, line, t)
    ensures LineOk(after, line, t)
    ensures forall d :: Descends(after, line, d) == Descends(before, line, d)
  {
    assert forall u | u in line :: u in before && after[u].device == before[u].device;
  }

  lemma AccessLineStays(before: RefreshTable, after: RefreshTable, line: seq<Digest>, row: AccessRow, now: AccessRow)
    requires RowsStay(before, after) && AccessLineOk(before, line, row) && now.user == row.user && now.device == row.device
    ensures AccessLineOk(after, line, now)
    ensures forall d :: Descends(after, line, d) == Descends(before, line, d)
  {
    hide LineOk, Descends;
    LineStays(before, after, line, line[|line| - 1]);
    assert line[|line| - 1] in before by { LineEnd(before, line); }
  }

  lemma LineEnd(refresh: RefreshTable, line: seq<Digest>)
    requires line != [] && LineOk(refresh, line, line[|line| - 1])
    ensures line[|line| - 1] in refresh
  {
  }

  lemma ExtendLine(before: RefreshTable, after: RefreshTable, parent: seq<Digest>, t: Digest)
    requires RowsStay(before, after) && t in after
    requires parent != [] ==> var p := parent[|parent| - 1];
      LineOk(before, parent, p) && p in before && after[t].user == before[p].user && after[t].device in {None, before[p].device}
    ensures LineOk(after, parent + [t], t)
  {
    if parent != [] { LineStays(before, after, parent, parent[|parent| - 1]); }
    assert forall u | u in parent + [t] :: u in parent || u == t;
  }

  lemma ParentLineOk(h: Hashes, db: Db, lines: Lines, op: Op, after: Db)
    requires LinesOk(db, lines) && Changed(h, db, op, after) && Issued(h, db, op)
    ensures MayIssue(op) && h.token(op.raw) in after.refresh
    ensures var parent := ParentLine(h, lines, op);
      parent != [] ==> var p := parent[|parent| - 1]; (
            && LineOk(db.refresh, parent, p) && p in db.refresh && after.refresh[h.token(op.raw)].user == db.refresh[p].user
            && after.refresh[h.token(op.raw)].device in {None, db.refresh[p].device})
  {
    assert MayIssue(op);
    hide Issued, Pairs, AccessLineOk;
    assert h.token(op.raw) in after.refresh by { ChangesStay(h, db, op, after); }
    if SpentBy(h, op).Some? {
      var p := h.token(op.presented);
      assert LineOk(db.refresh, lines.refresh[p], p);
    }
  }

  lemma NewLineOk(h: Hashes, db: Db, lines: Lines, op: Op, after: Db)
    requires LinesOk(db, lines) && Changed(h, db, op, after) && Issued(h, db, op)
    ensures MayIssue(op)
    ensures var t := h.token(op.raw); var line := ParentLine(h, lines, op) + [t];
      && LineOk(after.refresh, line, t)
      && op.jti in after.access && AccessLineOk(after.refresh, line, after.access[op.jti])
  {
    ParentLineOk(h, db, lines, op, after);
    ChangesStay(h, db, op, after);
    hide Issued, LineOk, ParentLine, Columns;
    ExtendLine(db.refresh, after.refresh, ParentLine(h, lines, op), h.token(op.raw));
  }

  lemma OldLinesOk(h: Hashes, db: Db, lines: Lines, op: Op, after: Db)
    requires LinesOk(db, lines) && Changed(h, db, op, after)
    ensures forall t | t in db.refresh :: LineOk(after.refresh, lines.refresh[t], t)
    ensures forall j | j in db.access :: j in after.access && AccessLineOk(after.refresh, lines.access[j], after.access[j])
  {
    hide LineOk, AccessLineOk, Changed, RowsStay;
    ChangesStay(h, db, op, after);
    forall t | t in db.refresh ensures LineOk(after.refresh, lines.refresh[t], t) {
      LineStays(db.refresh, after.refresh, lines.refresh[t], t);
    }
    forall j | j in db.access ensures AccessLineOk(after.refresh, lines.access[j], after.access[j]) {
      AccessLineStays(db.refresh, after.refresh, lines.access[j], db.access[j], after.access[j]);
    }
  }

  lemma LinesWith(db: Db, lines: Lines, after: Db, line: seq<Digest>, t: Digest, j: Jti)
    requires lines.refresh.Keys == db.refresh.Keys && lines.access.Keys == db.access.Keys
    requires after.refresh.Keys == db.refresh.Keys + {t} && after.access.Keys == db.access.Keys + {j}
    requires forall u | u in db.refresh :: LineOk(after.refresh, lines.refresh[u], u)
    requires forall k | k in db.access :: AccessLineOk(after.refresh, lines.access[k], after.access[k])
    requires LineOk(after.refresh, line, t) && AccessLineOk(after.refresh, line, after.access[j])
    ensures LinesOk(after, Lines(lines.refresh[t := line], lines.access[j := line]))
  {
    hide LineOk, AccessLineOk;
  }

  lemma TraceKeepsLines(h: Hashes, db: Db, lines: Lines, op: Op, after: Db)
    requires LinesOk(db, lines) && Changed(h, db, op, after)
    ensures LinesOk(after, Trace(h, db, lines, op))
  {
    assert Issued(h, db, op) ==> MayIssue(op);
    hide Issued, LineOk, AccessLineOk, Changed, ParentLine, RowsStay;
    OldLinesOk(h, db, lines, op, after);
    ChangesStay(h, db, op, after);
    if Issued(h, db, op) {
      NewLineOk(h, db, lines, op, after);
      LinesWith(db, lines, after, ParentLine(h, lines, op) + [h.token(op.raw)], h.token(op.raw), op.jti);
    }
  }
}
