/** When, exactly, something of a device's session outlives the device. */
module SignInOutlives {
  import opened Prelude
  import opened SignIn
  import opened SignInInvariant
  import opened SignInSafety
  import opened SignInLineage

  /** The website's rotation accepts a token of the device. */
  ghost predicate Crosses(h: Hashes, db: Db, op: Op, d: DeviceId) {
    && op.WebRotateOp? && Issued(h, db, op)
    && h.token(op.presented) in db.refresh && db.refresh[h.token(op.presented)].device == Some(d)
  }

  ghost predicate CrossedAt(h: Hashes, ops: seq<Op>, i: nat, d: DeviceId) {
    i < |ops| && Crosses(h, After(h, ops[..i]), ops[i], d)
  }

  ghost predicate SignedOutAt(h: Hashes, ops: seq<Op>, i: nat, user: UserId) {
    i < |ops| && SignsOut(h, After(h, ops[..i]), ops[i], user)
  }

  /** A token of the device was taken over by the website, and the person has not signed out of the website since. */
  ghost predicate Escaped(h: Hashes, ops: seq<Op>, d: DeviceId, user: UserId) {
    exists i: nat :: CrossedAt(h, ops, i, d) && forall j: nat | i < j < |ops| :: !SignedOutAt(h, ops, j, user)
  }

  lemma PrefixSame(h: Hashes, ops: seq<Op>, i: nat, d: DeviceId, user: UserId)
    requires i < |ops| - 1
    ensures CrossedAt(h, ops, i, d) == CrossedAt(h, ops[..|ops| - 1], i, d)
    ensures SignedOutAt(h, ops, i, user) == SignedOutAt(h, ops[..|ops| - 1], i, user)
  {
    hide After, Crosses, SignsOut;
    assert ops[..|ops| - 1][..i] == ops[..i];
  }

  lemma EscapedStep(h: Hashes, ops: seq<Op>, d: DeviceId, user: UserId)
    requires ops != []
    ensures var before, op := ops[..|ops| - 1], ops[|ops| - 1];
      Escaped(h, ops, d, user) <==>
        Crosses(h, After(h, before), op, d) || (Escaped(h, before, d, user) && !SignsOut(h, After(h, before), op, user))
  {
    hide After, Crosses, SignsOut;
    var last, before := |ops| - 1, ops[..|ops| - 1];
    forall i: nat | i < last
      ensures CrossedAt(h, ops, i, d) == CrossedAt(h, before, i, d) && SignedOutAt(h, ops, i, user) == SignedOutAt(h, before, i, user)
    {
      PrefixSame(h, ops, i, d, user);
    }
    assert CrossedAt(h, ops, last, d) == Crosses(h, After(h, before), ops[last], d);
    assert SignedOutAt(h, ops, last, user) == SignsOut(h, After(h, before), ops[last], user);
    hide CrossedAt, SignedOutAt;
    if Escaped(h, ops, d, user) {
      var i: nat :| CrossedAt(h, ops, i, d) && forall j: nat | i < j < |ops| :: !SignedOutAt(h, ops, j, user);
      assert i < |ops| by { CrossedWithin(h, ops, i, d); }
      if i < last {
        assert !SignedOutAt(h, ops, last, user);
        assert forall j: nat | i < j < |before| :: !SignedOutAt(h, before, j, user);
      }
    }
    if Escaped(h, before, d, user) && !SignsOut(h, After(h, before), ops[last], user) {
      var i: nat :| CrossedAt(h, before, i, d) && forall j: nat | i < j < |before| :: !SignedOutAt(h, before, j, user);
      CrossedWithin(h, before, i, d);
      assert CrossedAt(h, ops, i, d);
    }
  }

  lemma CrossedWithin(h: Hashes, ops: seq<Op>, i: nat, d: DeviceId)
    requires CrossedAt(h, ops, i, d)
    ensures i < |ops|
  {
  }

  // ----- what one request does to the tokens outside -----

  ghost predicate Outside(db: Db, lines: Lines, d: DeviceId, escaped: bool) {
    && (escaped ==> exists t :: OutsideRefresh(db, lines, d, t))
    && (escaped ==> exists j :: OutsideAccess(db, lines, d, j))
    && (forall t | OutsideRefresh(db, lines, d, t) :: escaped)
    && (forall j | OutsideAccess(db, lines, d, j) :: escaped)
  }

  /** Whatever descends from a device is its own person's. */
  lemma DescendantsOfOnePerson(db: Db, line: seq<Digest>, t: Digest, d: DeviceId)
    requires TokensOwned(db.users, db.devices, db.refresh, db.access) && LineOk(db.refresh, line, t) && Descends(db.refresh, line, d)
    ensures d in db.devices && t in db.refresh && db.refresh[t].user == db.devices[d].user
  {
  }

  lemma DeviceLine(refresh: RefreshTable, line: seq<Digest>, t: Digest, d: DeviceId)
    requires LineOk(refresh, line, t) && t in refresh
    ensures refresh[t].device.Some? ==> (Descends(refresh, line, d) <==> refresh[t].device == Some(d))
  {
    assert t in line;
  }

  lemma SignOutOfRefresh(db: Db, lines: Lines, after: Db, d: DeviceId, user: UserId, named: UserId, t: Digest)
    requires TokensOwned(db.users, db.devices, db.refresh, db.access) && LinesOk(db, lines) && t in db.refresh
    requires EndsPerson(db, after, named) && (d in db.devices ==> db.devices[d].user == user)
    ensures OutsideRefresh(after, lines, d, t) <==> OutsideRefresh(db, lines, d, t) && named != user
  {
    hide LineOk, AccessLineOk, TokensOwned, Descends;
    LineStays(db.refresh, after.refresh, lines.refresh[t], t);
    if Descends(db.refresh, lines.refresh[t], d) { DescendantsOfOnePerson(db, lines.refresh[t], t, d); }
  }

  lemma SignOutOfAccess(db: Db, lines: Lines, after: Db, d: DeviceId, user: UserId, named: UserId, j: Jti)
    requires TokensOwned(db.users, db.devices, db.refresh, db.access) && LinesOk(db, lines) && j in db.access
    requires EndsPerson(db, after, named) && (d in db.devices ==> db.devices[d].user == user)
    ensures OutsideAccess(after, lines, d, j) <==> OutsideAccess(db, lines, d, j) && named != user
  {
    hide LineOk, TokensOwned, Descends;
    var line := lines.access[j];
    assert AccessLineOk(db.refresh, line, db.access[j]);
    LineStays(db.refresh, after.refresh, line, line[|line| - 1]);
    if Descends(db.refresh, line, d) { DescendantsOfOnePerson(db, line, line[|line| - 1], d); }
  }

  lemma SignOutEnds(h: Hashes, db: Db, lines: Lines, after: Db, d: DeviceId, escaped: bool, user: UserId, named: UserId)
    requires TokensOwned(db.users, db.devices, db.refresh, db.access) && LinesOk(db, lines) && Outside(db, lines, d, escaped)
    requires EndsPerson(db, after, named) && (d in db.devices ==> db.devices[d].user == user)
    ensures Outside(after, lines, d, escaped && named != user)
  {
    assert after.refresh.Keys == db.refresh.Keys && after.access.Keys == db.access.Keys;
    OutsideInTables(db, lines, d);
    OutsideInTables(after, lines, d);
    hide *;
    forall t | t in db.refresh
      ensures OutsideRefresh(after, lines, d, t) <==> OutsideRefresh(db, lines, d, t) && named != user
    {
      SignOutOfRefresh(db, lines, after, d, user, named, t);
    }
    forall j | j in db.access
      ensures OutsideAccess(after, lines, d, j) <==> OutsideAccess(db, lines, d, j) && named != user
    {
      SignOutOfAccess(db, lines, after, d, user, named, j);
    }
    SameOutside(db, lines, after, lines, d, escaped, named != user);
  }

  lemma OutsideInTables(db: Db, lines: Lines, d: DeviceId)
    ensures forall t | OutsideRefresh(db, lines, d, t) :: t in db.refresh
    ensures forall j | OutsideAccess(db, lines, d, j) :: j in db.access
  {
  }

  /** The same tokens outside, or none. */
  lemma SameOutside(db: Db, lines: Lines, after: Db, traced: Lines, d: DeviceId, escaped: bool, still: bool)
    requires Outside(db, lines, d, escaped)
    requires forall t :: OutsideRefresh(after, traced, d, t) <==> OutsideRefresh(db, lines, d, t) && still
    requires forall j :: OutsideAccess(after, traced, d, j) <==> OutsideAccess(db, lines, d, j) && still
    ensures Outside(after, traced, d, escaped && still)
  {
    hide OutsideRefresh, OutsideAccess;
    if escaped && still {
      var t :| OutsideRefresh(db, lines, d, t);
      var j :| OutsideAccess(db, lines, d, j);
      assert OutsideRefresh(after, traced, d, t) && OutsideAccess(after, traced, d, j);
    }
  }

  lemma EndingSparesRefresh(db: Db, lines: Lines, after: Db, d: DeviceId, t: Digest)
    requires LinesOk(db, lines) && EndsDevices(db, after) && t in db.refresh
    ensures OutsideRefresh(after, lines, d, t) <==> OutsideRefresh(db, lines, d, t)
  {
    hide LineOk, AccessLineOk, Descends;
    assert RowsStay(db.refresh, after.refresh);
    LineStays(db.refresh, after.refresh, lines.refresh[t], t);
  }

  lemma EndingSparesAccess(db: Db, lines: Lines, after: Db, d: DeviceId, j: Jti)
    requires LinesOk(db, lines) && EndsDevices(db, after) && j in db.access
    ensures OutsideAccess(after, lines, d, j) <==> OutsideAccess(db, lines, d, j)
  {
    hide LineOk, Descends;
    assert RowsStay(db.refresh, after.refresh);
    assert AccessLineOk(db.refresh, lines.access[j], db.access[j]);
    LineStays(db.refresh, after.refresh, lines.access[j], lines.access[j][|lines.access[j]| - 1]);
  }

  lemma EndingSparesOutside(db: Db, lines: Lines, after: Db, d: DeviceId, escaped: bool)
    requires LinesOk(db, lines) && Outside(db, lines, d, escaped) && EndsDevices(db, after)
    ensures Outside(after, lines, d, escaped)
  {
    assert after.refresh.Keys == db.refresh.Keys && after.access.Keys == db.access.Keys;
    OutsideInTables(db, lines, d);
    OutsideInTables(after, lines, d);
    hide *;
    forall t | t in db.refresh ensures OutsideRefresh(after, lines, d, t) <==> OutsideRefresh(db, lines, d, t) {
      EndingSparesRefresh(db, lines, after, d, t);
    }
    forall j | j in db.access ensures OutsideAccess(after, lines, d, j) <==> OutsideAccess(db, lines, d, j) {
      EndingSparesAccess(db, lines, after, d, j);
    }
    SameOutside(db, lines, after, lines, d, escaped, true);
  }

  function With(lines: Lines, line: seq<Digest>, t: Digest, j: Jti): Lines {
    Lines(lines.refresh[t := line], lines.access[j := line])
  }

  lemma OldRefreshOutside(db: Db, lines: Lines, after: Db, spent: Option<Digest>, line: seq<Digest>, t: Digest, j: Jti, d: DeviceId, u: Digest)
    requires LinesOk(db, lines) && Pairs(db, after, spent, t, j) && RowsStay(db.refresh, after.refresh) && u in db.refresh
    ensures OutsideRefresh(after, With(lines, line, t, j), d, u) <==> OutsideRefresh(db, lines, d, u) && spent != Some(u)
  {
    hide LineOk, AccessLineOk, Descends;
    assert LineOk(db.refresh, lines.refresh[u], u);
    LineStays(db.refresh, after.refresh, lines.refresh[u], u);
  }

  lemma OldAccessOutside(db: Db, lines: Lines, after: Db, spent: Option<Digest>, line: seq<Digest>, t: Digest, j: Jti, d: DeviceId, k: Jti)
    requires LinesOk(db, lines) && Pairs(db, after, spent, t, j) && RowsStay(db.refresh, after.refresh) && k in db.access
    ensures OutsideAccess(after, With(lines, line, t, j), d, k) <==> OutsideAccess(db, lines, d, k)
  {
    hide LineOk, Descends;
    assert AccessLineOk(db.refresh, lines.access[k], db.access[k]);
    LineStays(db.refresh, after.refresh, lines.access[k], lines.access[k][|lines.access[k]| - 1]);
  }

  /** New rows change nothing for the old ones but that of the token spent. */
  lemma OldOutside(db: Db, lines: Lines, after: Db, spent: Option<Digest>, line: seq<Digest>, t: Digest, j: Jti, d: DeviceId)
    requires LinesOk(db, lines) && Pairs(db, after, spent, t, j) && RowsStay(db.refresh, after.refresh)
    ensures forall u | u in db.refresh ::
      OutsideRefresh(after, With(lines, line, t, j), d, u) <==> OutsideRefresh(db, lines, d, u) && spent != Some(u)
    ensures forall k | k in db.access :: OutsideAccess(after, With(lines, line, t, j), d, k) <==> OutsideAccess(db, lines, d, k)
  {
    hide *;
    forall u | u in db.refresh
      ensures OutsideRefresh(after, With(lines, line, t, j), d, u) <==> OutsideRefresh(db, lines, d, u) && spent != Some(u)
    {
      OldRefreshOutside(db, lines, after, spent, line, t, j, d, u);
    }
    forall k | k in db.access ensures OutsideAccess(after, With(lines, line, t, j), d, k) <==> OutsideAccess(db, lines, d, k) {
      OldAccessOutside(db, lines, after, spent, line, t, j, d, k);
    }
  }

  /** The new tokens are outside when their rows name no device and the token presented descends from one. */
  lemma NewOutside(db: Db, lines: Lines, after: Db, spent: Option<Digest>, parent: seq<Digest>, t: Digest, j: Jti, d: DeviceId)
    requires Pairs(db, after, spent, t, j) && RowsStay(db.refresh, after.refresh)
    requires parent != [] ==> LineOk(db.refresh, parent, parent[|parent| - 1])
    ensures var traced := With(lines, parent + [t], t, j); var out := after.refresh[t].device.None? && Descends(db.refresh, parent, d);
      (OutsideRefresh(after, traced, d, t) <==> out) && (OutsideAccess(after, traced, d, j) <==> out)
  {
    hide LineOk, Descends, RowsStay;
    NewDescends(db.refresh, after.refresh, parent, t, d);
  }

  lemma NewDescends(before: RefreshTable, after: RefreshTable, parent: seq<Digest>, t: Digest, d: DeviceId)
    requires RowsStay(before, after) && t in after && t !in before
    requires parent != [] ==> LineOk(before, parent, parent[|parent| - 1])
    ensures after[t].device.None? ==> (Descends(after, parent + [t], d) <==> Descends(before, parent, d))
  {
    if parent != [] { LineStays(before, after, parent, parent[|parent| - 1]); }
    var line := parent + [t];
    assert forall u | u in line :: u in parent || u == t;
    assert forall u | u in parent :: u in line;
  }

  /** An issue of tokens, in the terms of the tables alone. */
  lemma IssuedFacts(h: Hashes, db: Db, lines: Lines, op: Op, after: Db)
    requires LinesOk(db, lines) && Changed(h, db, op, after) && Issued(h, db, op)
    ensures MayIssue(op)
    ensures var t, parent := h.token(op.raw), ParentLine(h, lines, op);
      && Trace(h, db, lines, op) == With(lines, parent + [t], t, op.jti)
      && Pairs(db, after, SpentBy(h, op), t, op.jti) && RowsStay(db.refresh, after.refresh)
      && (parent != [] ==> LineOk(db.refresh, parent, parent[|parent| - 1]))
      && (after.refresh[t].device.None? <==> op.WebRotateOp? || op.WebSignInOp?)
      && (op.WebSignInOp? ==> parent == [])
  {
    assert MayIssue(op);
    hide Issued, LinesOk, LineOk;
    ChangesStay(h, db, op, after);
    ParentLineOk(h, db, lines, op, after);
  }

  lemma IssuingMoves(h: Hashes, db: Db, lines: Lines, op: Op, after: Db, d: DeviceId, escaped: bool)
    requires LinesOk(db, lines) && Outside(db, lines, d, escaped) && Changed(h, db, op, after) && Issued(h, db, op)
    ensures Outside(after, Trace(h, db, lines, op), d, Crosses(h, db, op, d) || escaped)
  {
    assert MayIssue(op);
    hide Issued, Trace, LinesOk, Changed, OutsideRefresh, OutsideAccess, Descends, ParentLine, With, LineOk, Outside, RowsStay;
    var t, parent := h.token(op.raw), ParentLine(h, lines, op);
    IssuedFacts(h, db, lines, op, after);
    OldOutside(db, lines, after, SpentBy(h, op), parent + [t], t, op.jti, d);
    NewOutside(db, lines, after, SpentBy(h, op), parent, t, op.jti, d);
    SpentOutside(h, db, lines, op, after, d);
    EmptyDescends(db.refresh, d);
    OutsideIssued(db, lines, after, Trace(h, db, lines, op), d, escaped, Crosses(h, db, op, d), t, op.jti, SpentBy(h, op));
  }

  lemma EmptyDescends(refresh: RefreshTable, d: DeviceId)
    ensures !Descends(refresh, [], d)
  {
  }

  /** The token presented at the website descends from the device when it is the device's, or was outside. */
  lemma SpentOutside(h: Hashes, db: Db, lines: Lines, op: Op, after: Db, d: DeviceId)
    requires LinesOk(db, lines) && Changed(h, db, op, after) && Issued(h, db, op)
    ensures op.WebRotateOp? ==>
      (Descends(db.refresh, ParentLine(h, lines, op), d) <==> Crosses(h, db, op, d) || OutsideRefresh(db, lines, d, h.token(op.presented)))
    ensures op.RefreshOp? ==> !OutsideRefresh(db, lines, d, h.token(op.presented))
  {
    if op.WebRotateOp? {
      var p := h.token(op.presented);
      assert p in db.refresh && !db.refresh[p].revoked;
      hide Issued, Changed;
      assert LineOk(db.refresh, lines.refresh[p], p);
      DeviceLine(db.refresh, lines.refresh[p], p, d);
    }
  }

  lemma OutsideIssued(db: Db, lines: Lines, after: Db, traced: Lines, d: DeviceId, escaped: bool, crosses: bool, t: Digest, j: Jti, spent: Option<Digest>)
    requires Outside(db, lines, d, escaped)
    requires after.refresh.Keys == db.refresh.Keys + {t} && after.access.Keys == db.access.Keys + {j}
    requires forall u | u in db.refresh :: OutsideRefresh(after, traced, d, u) <==> OutsideRefresh(db, lines, d, u) && spent != Some(u)
    requires forall k | k in db.access :: OutsideAccess(after, traced, d, k) <==> OutsideAccess(db, lines, d, k)
    requires OutsideRefresh(after, traced, d, t) <==> OutsideAccess(after, traced, d, j)
    requires OutsideRefresh(after, traced, d, t) <==> crosses || (spent.Some? && OutsideRefresh(db, lines, d, spent.value))
    ensures Outside(after, traced, d, crosses || escaped)
  {
    OutsideInTables(db, lines, d);
    OutsideInTables(after, traced, d);
    hide OutsideRefresh, OutsideAccess;
    if crosses {
      assert OutsideRefresh(after, traced, d, t) && OutsideAccess(after, traced, d, j);
    } else if escaped {
      var u :| OutsideRefresh(db, lines, d, u);
      var k :| OutsideAccess(db, lines, d, k);
      assert OutsideAccess(after, traced, d, k);
      assert OutsideRefresh(after, traced, d, if spent == Some(u) then t else u);
    }
  }

  lemma RunMoves(h: Hashes, db: Db, lines: Lines, op: Op, d: DeviceId, escaped: bool, user: UserId)
    requires Inv(h, db) && Possible(h, db, op) && LinesOk(db, lines) && Outside(db, lines, d, escaped)
    requires d in db.devices ==> db.devices[d].user == user
    ensures LinesOk(Run(h, db, op).db, Trace(h, db, lines, op))
    ensures Outside(Run(h, db, op).db, Trace(h, db, lines, op), d, Crosses(h, db, op, d) || (escaped && !SignsOut(h, db, op, user)))
  {
    hide Run, Possible, LinesOk, Outside, EndsDevices, EndsPerson, CodesOk, TokensOwned, OneLiveRefresh, EndedHasNoTokens, Named;
    var after := Run(h, db, op).db;
    RunChanges(h, db, op);
    TraceKeepsLines(h, db, lines, op, after);
    if Issued(h, db, op) {
      IssuingMoves(h, db, lines, op, after, d, escaped);
    } else if op.WebSignOutOp? && Named(h, db, op.bearer, op.refresh, op.now).Some? {
      SignOutEnds(h, db, lines, after, d, escaped, user, Named(h, db, op.bearer, op.refresh, op.now).value);
    } else {
      EndingSparesOutside(db, lines, after, d, escaped);
    }
  }

  // ----- over runs -----

  ghost predicate OwnersKept(db: Db, after: Db) {
    forall d | d in db.devices :: d in after.devices && after.devices[d].user == db.devices[d].user
  }

  lemma CodesKeepOwners(h: Hashes, db: Db, op: Op)
    requires op.CreateCodeOp? || op.PollOp? || op.ApproveOp? || op.DenyOp?
    ensures Run(h, db, op).db.devices == db.devices
  {
    hide ExpireIfDue;
  }

  lemma ExchangeKeepsOwners(h: Hashes, db: Db, op: Op)
    requires op.ExchangeOp? && op.device !in db.devices
    ensures OwnersKept(db, Run(h, db, op).db)
  {
    hide ExpireIfDue;
  }

  lemma OwnersStay(h: Hashes, db: Db, op: Op)
    requires Possible(h, db, op)
    ensures OwnersKept(db, Run(h, db, op).db)
  {
    hide FindCode, ExpireIfDue, Exchange;
    if op.CreateCodeOp? || op.PollOp? || op.ApproveOp? || op.DenyOp? {
      hide Run;
      CodesKeepOwners(h, db, op);
    } else if op.ExchangeOp? {
      hide Run;
      ExchangeKeepsOwners(h, db, op);
    } else if op.WebSignOutOp? || op.WebSignInOp? || op.WebRotateOp? {
      WebKeepsDevices(h, db, op);
    }
  }

  lemma WebKeepsDevices(h: Hashes, db: Db, op: Op)
    requires op.WebSignOutOp? || op.WebSignInOp? || op.WebRotateOp?
    ensures Run(h, db, op).db.devices == db.devices
  {
  }

  /** In every reachable state: lines are good, and tokens of the device are outside exactly when they escaped. */
  lemma {:induction false} OutsideWhenEscaped(h: Hashes, ops: seq<Op>, d: DeviceId, user: UserId)
    requires History(h, ops) && (d in After(h, ops).devices ==> After(h, ops).devices[d].user == user)
    ensures LinesOk(After(h, ops), LinesOf(h, ops))
    ensures Outside(After(h, ops), LinesOf(h, ops), d, Escaped(h, ops, d, user))
  {
    hide Run, Possible, Inv, Outside, LinesOk, Escaped, Crosses, SignsOut, Trace;
    if ops == [] {
      NothingOutside(h, d, user);
    } else {
      var before, op := ops[..|ops| - 1], ops[|ops| - 1];
      Reachable(h, before);
      OwnersStay(h, After(h, before), op);
      OutsideWhenEscaped(h, before, d, user);
      EscapedStep(h, ops, d, user);
      RunMoves(h, After(h, before), LinesOf(h, before), op, d, Escaped(h, before, d, user), user);
    }
  }

  lemma NothingOutside(h: Hashes, d: DeviceId, user: UserId)
    ensures LinesOk(EMPTY, Lines(map[], map[])) && Outside(EMPTY, Lines(map[], map[]), d, Escaped(h, [], d, user))
  {
  }

  lemma AliveRefreshIsOutside(db: Db, lines: Lines, d: DeviceId, t: Digest)
    requires LinesOk(db, lines) && !LiveRefresh(db.refresh, t, d) && AliveRefresh(db, lines, d, t)
    ensures OutsideRefresh(db, lines, d, t)
  {
    hide LineOk, AccessLineOk, Descends;
    assert LineOk(db.refresh, lines.refresh[t], t);
    DeviceLine(db.refresh, lines.refresh[t], t, d);
  }

  lemma AliveAccessIsOutside(db: Db, lines: Lines, d: DeviceId, j: Jti)
    requires LinesOk(db, lines) && !LiveAccess(db.access, j, d) && AliveAccess(db, lines, d, j)
    ensures OutsideAccess(db, lines, d, j)
  {
    hide Descends;
    var line := lines.access[j];
    assert AccessLineOk(db.refresh, line, db.access[j]);
    DeviceLine(db.refresh, line, line[|line| - 1], d);
  }

  /** A token of an ended device is dead, so whatever is alive of its session is outside. */
  lemma AliveIsOutside(h: Hashes, db: Db, lines: Lines, d: DeviceId)
    requires Inv(h, db) && LinesOk(db, lines) && Ended(db.devices, d)
    ensures forall t | AliveRefresh(db, lines, d, t) :: OutsideRefresh(db, lines, d, t)
    ensures forall j | AliveAccess(db, lines, d, j) :: OutsideAccess(db, lines, d, j)
  {
    hide CodesOk, TokensOwned, OneLiveRefresh, LinesOk, AliveRefresh, AliveAccess, OutsideRefresh, OutsideAccess, LiveRefresh, LiveAccess;
    forall t | AliveRefresh(db, lines, d, t) ensures OutsideRefresh(db, lines, d, t) {
      AliveRefreshIsOutside(db, lines, d, t);
    }
    forall j | AliveAccess(db, lines, d, j) ensures OutsideAccess(db, lines, d, j) {
      AliveAccessIsOutside(db, lines, d, j);
    }
  }

  /**
   Ending a device ends all that descends from it, if and only if the website never took over one of its
   tokens, or the person has signed out of the website since. Otherwise a refresh token and an access token
   that descend from the device are both not revoked.
   */
  lemma {:induction false} EndedSessionLivesOn(h: Hashes, ops: seq<Op>, d: DeviceId)
    requires History(h, ops) && Ended(After(h, ops).devices, d)
    ensures var db, lines := After(h, ops), LinesOf(h, ops);
      && ((exists t :: AliveRefresh(db, lines, d, t)) <==> Escaped(h, ops, d, db.devices[d].user))
      && ((exists j :: AliveAccess(db, lines, d, j)) <==> Escaped(h, ops, d, db.devices[d].user))
  {
    hide After, History, LinesOf, Escaped, Inv, LinesOk, AliveRefresh, AliveAccess;
    var db, lines := After(h, ops), LinesOf(h, ops);
    Reachable(h, ops);
    OutsideWhenEscaped(h, ops, d, db.devices[d].user);
    AliveIsOutside(h, db, lines, d);
    forall t | OutsideRefresh(db, lines, d, t) ensures AliveRefresh(db, lines, d, t) { }
    forall j | OutsideAccess(db, lines, d, j) ensures AliveAccess(db, lines, d, j) { }
  }

  // ----- it happens at most once to a device -----

  /** The device has no refresh token left. */
  ghost predicate Silent(db: Db, d: DeviceId) { d in db.devices && forall t :: !LiveRefresh(db.refresh, t, d) }

  lemma SilentStays(h: Hashes, db: Db, op: Op, d: DeviceId)
    requires Possible(h, db, op) && Silent(db, d)
    ensures Silent(Run(h, db, op).db, d)
  {
    assert op.ExchangeOp? ==> op.device != d;
    hide Run, Possible, Issued, Named;
    RunChanges(h, db, op);
    OwnersStay(h, db, op);
    SilentChange(h, db, op, Run(h, db, op).db, d);
  }

  lemma SilentChange(h: Hashes, db: Db, op: Op, after: Db, d: DeviceId)
    requires Changed(h, db, op, after) && (op.ExchangeOp? ==> op.device != d)
    requires forall t :: !LiveRefresh(db.refresh, t, d)
    ensures forall t :: !LiveRefresh(after.refresh, t, d)
  {
    assert Issued(h, db, op) ==> MayIssue(op);
    hide Issued, Named;
    forall t ensures !LiveRefresh(after.refresh, t, d) {
      assert !LiveRefresh(db.refresh, t, d);
      if Issued(h, db, op) && SpentBy(h, op).Some? { assert !LiveRefresh(db.refresh, SpentBy(h, op).value, d); }
    }
  }

  lemma SpendingSilences(db: Db, after: Db, p: Digest, t: Digest, j: Jti, d: DeviceId)
    requires OneLiveRefresh(db.refresh) && LiveRefresh(db.refresh, p, d)
    requires Pairs(db, after, Some(p), t, j) && after.refresh[t].device.None?
    ensures forall u :: !LiveRefresh(after.refresh, u, d)
  {
    forall u | u in db.refresh && u != p ensures !LiveRefresh(db.refresh, u, d) { }
  }

  lemma CrossingSilences(h: Hashes, db: Db, op: Op, d: DeviceId)
    requires Inv(h, db) && Possible(h, db, op) && Crosses(h, db, op, d)
    ensures Silent(Run(h, db, op).db, d) && !Silent(db, d)
  {
    hide Run, Possible, Issued, CodesOk, OneLiveRefresh, EndedHasNoTokens, Named, Pairs;
    var after, p := Run(h, db, op).db, h.token(op.presented);
    RunChanges(h, db, op);
    OwnersStay(h, db, op);
    assert LiveRefresh(db.refresh, p, d);
    SpendingSilences(db, after, p, h.token(op.raw), op.jti, d);
  }

  lemma {:induction false} SilentKeeps(h: Hashes, ops: seq<Op>, i: nat, j: nat, d: DeviceId)
    requires History(h, ops) && i <= j <= |ops| && Silent(After(h, ops[..i]), d)
    ensures Silent(After(h, ops[..j]), d)
    decreases j
  {
    hide Run, After, Possible, Silent;
    if i < j {
      SilentKeeps(h, ops, i, j - 1, d);
      HistoryPrefix(h, ops, j - 1);
      AfterNext(h, ops, j - 1);
      SilentStays(h, After(h, ops[..j - 1]), ops[j - 1], d);
    }
  }

  /** The website takes over at most one token of a device, ever. */
  lemma {:induction false} TakenOverOnce(h: Hashes, ops: seq<Op>, i: nat, j: nat, d: DeviceId)
    requires History(h, ops) && CrossedAt(h, ops, i, d) && CrossedAt(h, ops, j, d)
    ensures i == j
  {
    hide After, Possible, Inv, Silent, Crosses, Run;
    var first, last := if i <= j then i else j, if i <= j then j else i;
    HistoryPrefix(h, ops, first);
    HistoryPrefix(h, ops, last);
    Reachable(h, ops[..first]);
    Reachable(h, ops[..last]);
    AfterNext(h, ops, first);
    CrossingSilences(h, After(h, ops[..first]), ops[first], d);
    CrossingSilences(h, After(h, ops[..last]), ops[last], d);
    if first < last {
      SilentKeeps(h, ops, first + 1, last, d);
      assert false;
    }
  }
}
