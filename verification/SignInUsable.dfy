/** How long what outlives a device can still be used. */
module SignInUsable {
  import opened Prelude
  import opened SignIn
  import opened SignInInvariant
  import opened SignInSafety
  import opened SignInLineage
  import opened SignInOutlives

  /** The website rotates a token that descends from the device: one of the device, or one already outside. */
  ghost predicate IssuesOut(h: Hashes, db: Db, lines: Lines, op: Op, d: DeviceId) {
    op.WebRotateOp? && Issued(h, db, op) && Descends(db.refresh, ParentLine(h, lines, op), d)
  }

  ghost predicate IssuedOutAt(h: Hashes, ops: seq<Op>, i: nat, d: DeviceId) {
    i < |ops| && IssuesOut(h, After(h, ops[..i]), LinesOf(h, ops[..i]), ops[i], d)
  }

  /** Tokens were issued outside at i, and the person has not signed out of the website since. */
  ghost predicate OutSince(h: Hashes, ops: seq<Op>, i: nat, d: DeviceId, user: UserId) {
    IssuedOutAt(h, ops, i, d) && forall j: nat | i < j < |ops| :: !SignedOutAt(h, ops, j, user)
  }

  /** They are the newest of them. */
  ghost predicate LastOutSince(h: Hashes, ops: seq<Op>, i: nat, d: DeviceId, user: UserId) {
    OutSince(h, ops, i, d, user) && forall j: nat | i < j < |ops| :: !IssuedOutAt(h, ops, j, d)
  }

  ghost predicate AccessDue(h: Hashes, ops: seq<Op>, d: DeviceId, user: UserId, until: int) {
    exists i: nat :: OutSince(h, ops, i, d, user) && until == ops[i].now + ACCESS_TTL
  }

  ghost predicate RefreshDue(h: Hashes, ops: seq<Op>, d: DeviceId, user: UserId, until: int) {
    exists i: nat :: LastOutSince(h, ops, i, d, user) && until == ops[i].now + REFRESH_TTL
  }

  /** The times at which the tokens outside expire. */
  ghost predicate RefreshUntil(db: Db, lines: Lines, d: DeviceId, until: int) {
    exists t :: OutsideRefresh(db, lines, d, t) && db.refresh[t].expiresAt == until
  }

  ghost predicate AccessUntil(db: Db, lines: Lines, d: DeviceId, until: int) {
    exists j :: OutsideAccess(db, lines, d, j) && db.access[j].expiresAt == until
  }

  /** There is one refresh token outside at most, and then none of the device's own. */
  ghost predicate Lone(db: Db, lines: Lines, d: DeviceId) {
    && (forall t, u | OutsideRefresh(db, lines, d, t) && OutsideRefresh(db, lines, d, u) :: t == u)
    && (forall t | OutsideRefresh(db, lines, d, t) :: Silent(db, d))
  }

  // ----- what one request does to the old tokens outside -----

  /** The old tokens stay outside, with the same expiry, but the one spent. */
  ghost predicate OldStay(db: Db, lines: Lines, after: Db, traced: Lines, d: DeviceId, spent: Option<Digest>, out: bool) {
    && (forall u | u in db.refresh :: u in after.refresh && after.refresh[u].expiresAt == db.refresh[u].expiresAt)
    && (forall k | k in db.access :: k in after.access && after.access[k].expiresAt == db.access[k].expiresAt)
    && (forall u | u in db.refresh :: OutsideRefresh(after, traced, d, u) <==> OutsideRefresh(db, lines, d, u) && !out && spent != Some(u))
    && (forall k | k in db.access :: OutsideAccess(after, traced, d, k) <==> OutsideAccess(db, lines, d, k) && !out)
  }

  lemma ExpiriesStay(h: Hashes, db: Db, op: Op, after: Db)
    requires Changed(h, db, op, after)
    ensures forall u | u in db.refresh :: u in after.refresh && after.refresh[u].expiresAt == db.refresh[u].expiresAt
    ensures forall k | k in db.access :: k in after.access && after.access[k].expiresAt == db.access[k].expiresAt
  {
    hide Issued, Named, Columns;
  }

  lemma SignOutStays(db: Db, lines: Lines, after: Db, d: DeviceId, user: UserId, named: UserId)
    requires TokensOwned(db.users, db.devices, db.refresh, db.access) && LinesOk(db, lines)
    requires EndsPerson(db, after, named) && (d in db.devices ==> db.devices[d].user == user)
    requires forall u | u in db.refresh :: u in after.refresh && after.refresh[u].expiresAt == db.refresh[u].expiresAt
    requires forall k | k in db.access :: k in after.access && after.access[k].expiresAt == db.access[k].expiresAt
    ensures OldStay(db, lines, after, lines, d, None, named == user)
  {
    hide TokensOwned, LinesOk, EndsPerson, OutsideRefresh, OutsideAccess;
    forall u | u in db.refresh
      ensures OutsideRefresh(after, lines, d, u) <==> OutsideRefresh(db, lines, d, u) && named != user
    {
      SignOutOfRefresh(db, lines, after, d, user, named, u);
    }
    forall k | k in db.access
      ensures OutsideAccess(after, lines, d, k) <==> OutsideAccess(db, lines, d, k) && named != user
    {
      SignOutOfAccess(db, lines, after, d, user, named, k);
    }
  }

  lemma EndingStays(db: Db, lines: Lines, after: Db, d: DeviceId)
    requires LinesOk(db, lines) && EndsDevices(db, after)
    requires forall u | u in db.refresh :: u in after.refresh && after.refresh[u].expiresAt == db.refresh[u].expiresAt
    requires forall k | k in db.access :: k in after.access && after.access[k].expiresAt == db.access[k].expiresAt
    ensures OldStay(db, lines, after, lines, d, None, false)
  {
    hide LinesOk, EndsDevices, OutsideRefresh, OutsideAccess;
    forall u | u in db.refresh ensures OutsideRefresh(after, lines, d, u) <==> OutsideRefresh(db, lines, d, u) {
      EndingSparesRefresh(db, lines, after, d, u);
    }
    forall k | k in db.access ensures OutsideAccess(after, lines, d, k) <==> OutsideAccess(db, lines, d, k) {
      EndingSparesAccess(db, lines, after, d, k);
    }
  }

  lemma StayingWith(db: Db, lines: Lines, after: Db, traced: Lines, d: DeviceId, spent: Option<Digest>)
    requires forall u | u in db.refresh :: u in after.refresh && after.refresh[u].expiresAt == db.refresh[u].expiresAt
    requires forall k | k in db.access :: k in after.access && after.access[k].expiresAt == db.access[k].expiresAt
    requires forall u | u in db.refresh :: OutsideRefresh(after, traced, d, u) <==> OutsideRefresh(db, lines, d, u) && spent != Some(u)
    requires forall k | k in db.access :: OutsideAccess(after, traced, d, k) <==> OutsideAccess(db, lines, d, k)
    ensures OldStay(db, lines, after, traced, d, spent, false)
  {
    hide OutsideRefresh, OutsideAccess;
  }

  lemma IssuingStays(h: Hashes, db: Db, lines: Lines, op: Op, after: Db, d: DeviceId)
    requires LinesOk(db, lines) && Changed(h, db, op, after) && Issued(h, db, op)
    ensures OldStay(db, lines, after, Trace(h, db, lines, op), d, SpentBy(h, op), false)
  {
    assert MayIssue(op);
    hide Issued, Trace, LinesOk, Changed, OutsideRefresh, OutsideAccess, ParentLine, With, RowsStay, LineOk, Pairs, SpentBy, OldStay;
    IssuedFacts(h, db, lines, op, after);
    ExpiriesStay(h, db, op, after);
    var line := ParentLine(h, lines, op) + [h.token(op.raw)];
    OldOutside(db, lines, after, SpentBy(h, op), line, h.token(op.raw), op.jti, d);
    StayingWith(db, lines, after, With(lines, line, h.token(op.raw), op.jti), d, SpentBy(h, op));
  }

  function Spent(h: Hashes, op: Op, issued: bool): Option<Digest> { if issued then SpentBy(h, op) else None }

  lemma OldTokens(h: Hashes, db: Db, lines: Lines, op: Op, after: Db, d: DeviceId, user: UserId)
    requires TokensOwned(db.users, db.devices, db.refresh, db.access) && LinesOk(db, lines) && Changed(h, db, op, after)
    requires d in db.devices ==> db.devices[d].user == user
    ensures OldStay(db, lines, after, Trace(h, db, lines, op), d, Spent(h, op, Issued(h, db, op)), SignsOut(h, db, op, user))
  {
    ExpiriesStay(h, db, op, after);
    assert Issued(h, db, op) ==> MayIssue(op);
    hide OldStay, LinesOk, TokensOwned, Issued, EndsPerson, EndsDevices, Pairs, Columns, Named;
    if Issued(h, db, op) {
      IssuingStays(h, db, lines, op, after, d);
    } else if op.WebSignOutOp? && Named(h, db, op.bearer, op.refresh, op.now).Some? {
      SignOutStays(db, lines, after, d, user, Named(h, db, op.bearer, op.refresh, op.now).value);
    } else {
      EndingStays(db, lines, after, d);
    }
  }

  // ----- what it does to the new ones -----

  lemma NewExpiries(h: Hashes, db: Db, op: Op)
    requires Issued(h, db, op)
    ensures MayIssue(op)
    ensures var after := Run(h, db, op).db;
      && h.token(op.raw) in after.refresh && after.refresh[h.token(op.raw)].expiresAt == op.now + REFRESH_TTL
      && op.jti in after.access && after.access[op.jti].expiresAt == op.now + ACCESS_TTL
  {
    hide FindCode, ExpireIfDue;
  }

  lemma NewTokens(h: Hashes, db: Db, lines: Lines, op: Op, after: Db, d: DeviceId)
    requires LinesOk(db, lines) && Changed(h, db, op, after) && Issued(h, db, op)
    ensures MayIssue(op)
    ensures OutsideRefresh(after, Trace(h, db, lines, op), d, h.token(op.raw)) <==> IssuesOut(h, db, lines, op, d)
    ensures OutsideAccess(after, Trace(h, db, lines, op), d, op.jti) <==> IssuesOut(h, db, lines, op, d)
  {
    IssuedFacts(h, db, lines, op, after);
    EmptyDescends(db.refresh, d);
    hide Issued, Trace, LinesOk, Changed, OutsideRefresh, OutsideAccess, ParentLine, With, RowsStay, LineOk, Pairs, Descends;
    NewOutside(db, lines, after, SpentBy(h, op), ParentLine(h, lines, op), h.token(op.raw), op.jti, d);
  }

  /** The token spent is the one outside, or there was none: after the device's own there can be none. */
  lemma SpentIsTheOne(h: Hashes, db: Db, lines: Lines, op: Op, after: Db, d: DeviceId, u: Digest)
    requires LinesOk(db, lines) && Changed(h, db, op, after) && Lone(db, lines, d) && OutsideRefresh(db, lines, d, u)
    ensures IssuesOut(h, db, lines, op, d) ==> OutsideRefresh(db, lines, d, h.token(op.presented)) && SpentBy(h, op) == Some(u)
    ensures Issued(h, db, op) && SpentBy(h, op) == Some(u) ==> IssuesOut(h, db, lines, op, d)
  {
    assert Issued(h, db, op) ==> MayIssue(op);
    if Issued(h, db, op) {
      assert Crosses(h, db, op, d) ==> LiveRefresh(db.refresh, h.token(op.presented), d) by { hide Issued, Pairs; }
      SpentOutside(h, db, lines, op, after, d);
      hide Issued, LinesOk, Changed, OutsideRefresh, Descends, ParentLine, LiveRefresh, Crosses;
    }
  }

  // ----- one request, in terms of expiries -----

  /** A new refresh token outside is the only one; otherwise the old one stays, unless the person signs out. */
  lemma RefreshStep(h: Hashes, db: Db, lines: Lines, op: Op, d: DeviceId, user: UserId)
    requires Inv(h, db) && Possible(h, db, op) && LinesOk(db, lines) && Lone(db, lines, d)
    requires d in db.devices ==> db.devices[d].user == user
    ensures var after, traced := Run(h, db, op).db, Trace(h, db, lines, op);
      forall t :: OutsideRefresh(after, traced, d, t) <==>
        if IssuesOut(h, db, lines, op, d) then t == h.token(op.raw) else OutsideRefresh(db, lines, d, t) && !SignsOut(h, db, op, user)
  {
    var after, traced := Run(h, db, op).db, Trace(h, db, lines, op);
    assert IssuesOut(h, db, lines, op, d) ==> Issued(h, db, op) && !SignsOut(h, db, op, user);
    hide Inv, Possible, Run, LinesOk, Issued, Trace, SignsOut, OutsideRefresh, OutsideAccess, IssuesOut, Lone;
    RunChanges(h, db, op);
    ChangesStay(h, db, op, after);
    OldTokens(h, db, lines, op, after, d, user) by { assert TokensOwned(db.users, db.devices, db.refresh, db.access) by { Owned(h, db); } }
    if Issued(h, db, op) { NewTokens(h, db, lines, op, after, d); }
    OutsideInTables(db, lines, d);
    OutsideInTables(after, traced, d);
    hide Changed;
    forall u | OutsideRefresh(db, lines, d, u)
      ensures IssuesOut(h, db, lines, op, d) ==> !OutsideRefresh(after, traced, d, u)
      ensures !IssuesOut(h, db, lines, op, d) ==> (OutsideRefresh(after, traced, d, u) <==> !SignsOut(h, db, op, user))
    {
      SpentIsTheOne(h, db, lines, op, after, d, u);
    }
  }

  lemma Owned(h: Hashes, db: Db)
    requires Inv(h, db)
    ensures TokensOwned(db.users, db.devices, db.refresh, db.access)
  {
    hide CodesOk, TokensOwned, OneLiveRefresh, EndedHasNoTokens;
  }

  /** New access tokens outside join the old ones, until the person signs out. */
  lemma AccessStep(h: Hashes, db: Db, lines: Lines, op: Op, d: DeviceId, user: UserId)
    requires Inv(h, db) && Possible(h, db, op) && LinesOk(db, lines)
    requires d in db.devices ==> db.devices[d].user == user
    ensures var after, traced := Run(h, db, op).db, Trace(h, db, lines, op);
      forall j :: OutsideAccess(after, traced, d, j) <==>
        (IssuesOut(h, db, lines, op, d) && j == op.jti) || (OutsideAccess(db, lines, d, j) && !SignsOut(h, db, op, user))
  {
    var after, traced, out := Run(h, db, op).db, Trace(h, db, lines, op), IssuesOut(h, db, lines, op, d);
    assert out ==> Issued(h, db, op);
    assert Issued(h, db, op) ==> op.ExchangeOp? || op.RefreshOp? || op.WebSignInOp? || op.WebRotateOp?;
    hide *;
    RunChanges(h, db, op);
    ChangesStay(h, db, op, after);
    Owned(h, db);
    OldTokens(h, db, lines, op, after, d, user);
    OldAccessStays(db, lines, after, traced, d, Spent(h, op, Issued(h, db, op)), SignsOut(h, db, op, user));
    if Issued(h, db, op) {
      NewTokens(h, db, lines, op, after, d);
      Fresh(h, db, op, after);
      OneMoreAccess(db, lines, after, traced, d, out, SignsOut(h, db, op, user), op.jti);
    } else {
      SameAccess(db, lines, after, traced, d, SignsOut(h, db, op, user));
    }
  }

  lemma OldAccessStays(db: Db, lines: Lines, after: Db, traced: Lines, d: DeviceId, spent: Option<Digest>, ends: bool)
    requires OldStay(db, lines, after, traced, d, spent, ends)
    ensures forall k | k in db.access :: OutsideAccess(after, traced, d, k) <==> OutsideAccess(db, lines, d, k) && !ends
  {
  }

  lemma SameAccess(db: Db, lines: Lines, after: Db, traced: Lines, d: DeviceId, ends: bool)
    requires after.access.Keys == db.access.Keys
    requires forall k | k in db.access :: OutsideAccess(after, traced, d, k) <==> OutsideAccess(db, lines, d, k) && !ends
    ensures forall k :: OutsideAccess(after, traced, d, k) <==> OutsideAccess(db, lines, d, k) && !ends
  {
    OutsideInTables(db, lines, d);
    OutsideInTables(after, traced, d);
    hide OutsideAccess;
  }

  lemma OneMoreAccess(db: Db, lines: Lines, after: Db, traced: Lines, d: DeviceId, out: bool, ends: bool, j: Jti)
    requires after.access.Keys == db.access.Keys + {j} && j !in db.access
    requires forall k | k in db.access :: OutsideAccess(after, traced, d, k) <==> OutsideAccess(db, lines, d, k) && !ends
    requires OutsideAccess(after, traced, d, j) <==> out
    ensures forall k :: OutsideAccess(after, traced, d, k) <==> (out && k == j) || (OutsideAccess(db, lines, d, k) && !ends)
  {
    OutsideInTables(db, lines, d);
    OutsideInTables(after, traced, d);
    hide OutsideAccess;
  }

  lemma Fresh(h: Hashes, db: Db, op: Op, after: Db)
    requires Changed(h, db, op, after) && Issued(h, db, op)
    ensures MayIssue(op) && op.jti !in db.access && h.token(op.raw) !in db.refresh
  {
  }

  lemma LoneStep(h: Hashes, db: Db, lines: Lines, op: Op, d: DeviceId, user: UserId)
    requires Inv(h, db) && Possible(h, db, op) && LinesOk(db, lines) && Lone(db, lines, d)
    requires d in db.devices ==> db.devices[d].user == user
    ensures Lone(Run(h, db, op).db, Trace(h, db, lines, op), d)
  {
    hide Inv, Possible, Run, LinesOk, Trace, SignsOut, OutsideRefresh, Issued, Silent, Descends, ParentLine;
    RefreshStep(h, db, lines, op, d, user);
    if Silent(db, d) { SilentStays(h, db, op, d); }
    if Crosses(h, db, op, d) { CrossingSilences(h, db, op, d); }
    if IssuesOut(h, db, lines, op, d) {
      RunChanges(h, db, op);
      SpentOutside(h, db, lines, op, Run(h, db, op).db, d);
    }
  }

  lemma RefreshUntilMoves(db: Db, lines: Lines, after: Db, traced: Lines, d: DeviceId, out: bool, ends: bool, t: Digest, expiry: int, until: int)
    requires forall u :: OutsideRefresh(after, traced, d, u) <==> if out then u == t else OutsideRefresh(db, lines, d, u) && !ends
    requires forall u | u in db.refresh :: u in after.refresh && after.refresh[u].expiresAt == db.refresh[u].expiresAt
    requires out ==> t in after.refresh && after.refresh[t].expiresAt == expiry
    ensures RefreshUntil(after, traced, d, until) <==> if out then until == expiry else RefreshUntil(db, lines, d, until) && !ends
  {
    OutsideInTables(db, lines, d);
    hide OutsideRefresh;
    if out {
      assert OutsideRefresh(after, traced, d, t);
    } else if RefreshUntil(db, lines, d, until) && !ends {
      var u :| OutsideRefresh(db, lines, d, u) && db.refresh[u].expiresAt == until;
      assert OutsideRefresh(after, traced, d, u);
    }
  }

  lemma AccessUntilMoves(db: Db, lines: Lines, after: Db, traced: Lines, d: DeviceId, out: bool, ends: bool, j: Jti, expiry: int, until: int)
    requires forall k :: OutsideAccess(after, traced, d, k) <==> (out && k == j) || (OutsideAccess(db, lines, d, k) && !ends)
    requires forall k | k in db.access :: k in after.access && after.access[k].expiresAt == db.access[k].expiresAt
    requires out ==> j in after.access && after.access[j].expiresAt == expiry
    ensures AccessUntil(after, traced, d, until) <==> (out && until == expiry) || (AccessUntil(db, lines, d, until) && !ends)
  {
    OutsideInTables(db, lines, d);
    hide OutsideAccess;
    if out { assert OutsideAccess(after, traced, d, j); }
    if AccessUntil(db, lines, d, until) && !ends {
      var k :| OutsideAccess(db, lines, d, k) && db.access[k].expiresAt == until;
      assert OutsideAccess(after, traced, d, k);
    }
  }

  lemma RefreshUntilStep(h: Hashes, db: Db, lines: Lines, op: Op, d: DeviceId, user: UserId, until: int)
    requires Inv(h, db) && Possible(h, db, op) && LinesOk(db, lines) && Lone(db, lines, d)
    requires d in db.devices ==> db.devices[d].user == user
    ensures RefreshUntil(Run(h, db, op).db, Trace(h, db, lines, op), d, until) <==>
      if IssuesOut(h, db, lines, op, d) then until == op.now + REFRESH_TTL
      else RefreshUntil(db, lines, d, until) && !SignsOut(h, db, op, user)
  {
    var after, traced := Run(h, db, op).db, Trace(h, db, lines, op);
    assert IssuesOut(h, db, lines, op, d) ==> Issued(h, db, op);
    hide *;
    RunChanges(h, db, op);
    ExpiriesStay(h, db, op, after);
    RefreshStep(h, db, lines, op, d, user);
    if IssuesOut(h, db, lines, op, d) {
      NewExpiries(h, db, op);
      RefreshUntilMoves(db, lines, after, traced, d, true, SignsOut(h, db, op, user), h.token(op.raw), op.now + REFRESH_TTL, until);
    } else {
      RefreshUntilMoves(db, lines, after, traced, d, false, SignsOut(h, db, op, user), "", 0, until);
    }
  }

  lemma AccessUntilStep(h: Hashes, db: Db, lines: Lines, op: Op, d: DeviceId, user: UserId, until: int)
    requires Inv(h, db) && Possible(h, db, op) && LinesOk(db, lines)
    requires d in db.devices ==> db.devices[d].user == user
    ensures AccessUntil(Run(h, db, op).db, Trace(h, db, lines, op), d, until) <==>
      || (IssuesOut(h, db, lines, op, d) && until == op.now + ACCESS_TTL)
      || (AccessUntil(db, lines, d, until) && !SignsOut(h, db, op, user))
  {
    var after, traced := Run(h, db, op).db, Trace(h, db, lines, op);
    assert IssuesOut(h, db, lines, op, d) ==> Issued(h, db, op);
    hide *;
    RunChanges(h, db, op);
    ExpiriesStay(h, db, op, after);
    AccessStep(h, db, lines, op, d, user);
    if IssuesOut(h, db, lines, op, d) {
      NewExpiries(h, db, op);
      AccessUntilMoves(db, lines, after, traced, d, true, SignsOut(h, db, op, user), op.jti, op.now + ACCESS_TTL, until);
    } else {
      AccessUntilMoves(db, lines, after, traced, d, false, SignsOut(h, db, op, user), "", 0, until);
    }
  }

  // ----- over runs -----

  lemma SameBefore(h: Hashes, ops: seq<Op>, i: nat, d: DeviceId, user: UserId)
    requires i < |ops| - 1
    ensures IssuedOutAt(h, ops, i, d) == IssuedOutAt(h, ops[..|ops| - 1], i, d)
    ensures SignedOutAt(h, ops, i, user) == SignedOutAt(h, ops[..|ops| - 1], i, user)
  {
    hide After, LinesOf, IssuesOut, SignsOut;
    assert ops[..|ops| - 1][..i] == ops[..i];
  }

  lemma OutSinceStep(h: Hashes, ops: seq<Op>, i: nat, d: DeviceId, user: UserId)
    requires ops != []
    ensures var before, op := ops[..|ops| - 1], ops[|ops| - 1];
      var out, ends := IssuesOut(h, After(h, before), LinesOf(h, before), op, d), SignsOut(h, After(h, before), op, user);
      && (OutSince(h, ops, i, d, user) <==> if i == |before| then out else OutSince(h, before, i, d, user) && !ends)
      && (LastOutSince(h, ops, i, d, user) <==> if i == |before| then out else LastOutSince(h, before, i, d, user) && !ends && !out)
  {
    hide After, LinesOf, IssuesOut, SignsOut;
    var last, before := |ops| - 1, ops[..|ops| - 1];
    forall j: nat | j < last
      ensures IssuedOutAt(h, ops, j, d) == IssuedOutAt(h, before, j, d) && SignedOutAt(h, ops, j, user) == SignedOutAt(h, before, j, user)
    {
      SameBefore(h, ops, j, d, user);
    }
    assert IssuedOutAt(h, ops, last, d) == IssuesOut(h, After(h, before), LinesOf(h, before), ops[last], d);
    assert SignedOutAt(h, ops, last, user) == SignsOut(h, After(h, before), ops[last], user);
    assert i > last ==> !IssuedOutAt(h, ops, i, d) && !IssuedOutAt(h, before, i, d);
    hide IssuedOutAt, SignedOutAt;
    if i < last {
      assert OutSince(h, ops, i, d, user) ==> !SignedOutAt(h, ops, last, user);
      assert LastOutSince(h, ops, i, d, user) ==> !IssuedOutAt(h, ops, last, d);
    }
  }

  lemma DueStep(h: Hashes, ops: seq<Op>, d: DeviceId, user: UserId, until: int)
    requires ops != []
    ensures var before, op := ops[..|ops| - 1], ops[|ops| - 1];
      var out, ends := IssuesOut(h, After(h, before), LinesOf(h, before), op, d), SignsOut(h, After(h, before), op, user);
      && (RefreshDue(h, ops, d, user, until) <==>
            if out then until == op.now + REFRESH_TTL else RefreshDue(h, before, d, user, until) && !ends)
      && (AccessDue(h, ops, d, user, until) <==>
            (out && until == op.now + ACCESS_TTL) || (AccessDue(h, before, d, user, until) && !ends))
  {
    hide After, LinesOf, IssuesOut, SignsOut, OutSince, LastOutSince;
    var before := ops[..|ops| - 1];
    forall i: nat
      ensures OutSince(h, ops, i, d, user) ==> i < |ops|
      ensures OutSince(h, before, i, d, user) ==> i < |before|
      ensures LastOutSince(h, before, i, d, user) ==> i < |before|
      ensures LastOutSince(h, ops, i, d, user) ==> i < |ops|
    {
      OutWithin(h, ops, i, d, user);
      OutWithin(h, before, i, d, user);
    }
    forall i: nat { OutSinceStep(h, ops, i, d, user); }
  }

  lemma OutWithin(h: Hashes, ops: seq<Op>, i: nat, d: DeviceId, user: UserId)
    ensures OutSince(h, ops, i, d, user) ==> i < |ops|
    ensures LastOutSince(h, ops, i, d, user) ==> i < |ops|
  {
  }

  /** In every reachable state the tokens outside expire when the run says, one lifetime after they were issued. */
  lemma {:induction false} OutsideUntil(h: Hashes, ops: seq<Op>, d: DeviceId, user: UserId)
    requires History(h, ops) && (d in After(h, ops).devices ==> After(h, ops).devices[d].user == user)
    ensures LinesOk(After(h, ops), LinesOf(h, ops)) && Lone(After(h, ops), LinesOf(h, ops), d)
    ensures forall until :: RefreshUntil(After(h, ops), LinesOf(h, ops), d, until) <==> RefreshDue(h, ops, d, user, until)
    ensures forall until :: AccessUntil(After(h, ops), LinesOf(h, ops), d, until) <==> AccessDue(h, ops, d, user, until)
  {
    hide Run, Possible, Inv, LinesOk, Lone, RefreshUntil, AccessUntil, RefreshDue, AccessDue, SignsOut, IssuesOut, Trace;
    if ops == [] {
      NothingYet(h, d, user);
    } else {
      var before, op := ops[..|ops| - 1], ops[|ops| - 1];
      Reachable(h, before);
      OwnersStay(h, After(h, before), op);
      OutsideUntil(h, before, d, user);
      OutsideWhenEscaped(h, ops, d, user);
      LoneStep(h, After(h, before), LinesOf(h, before), op, d, user);
      forall until
        ensures RefreshUntil(After(h, ops), LinesOf(h, ops), d, until) <==> RefreshDue(h, ops, d, user, until)
        ensures AccessUntil(After(h, ops), LinesOf(h, ops), d, until) <==> AccessDue(h, ops, d, user, until)
      {
        RefreshUntilStep(h, After(h, before), LinesOf(h, before), op, d, user, until);
        AccessUntilStep(h, After(h, before), LinesOf(h, before), op, d, user, until);
        DueStep(h, ops, d, user, until);
      }
    }
  }

  lemma NothingYet(h: Hashes, d: DeviceId, user: UserId)
    ensures LinesOk(EMPTY, Lines(map[], map[])) && Lone(EMPTY, Lines(map[], map[]), d)
    ensures forall until :: !RefreshUntil(EMPTY, Lines(map[], map[]), d, until) && !RefreshDue(h, [], d, user, until)
    ensures forall until :: !AccessUntil(EMPTY, Lines(map[], map[]), d, until) && !AccessDue(h, [], d, user, until)
  {
  }

  // ----- what can be used at a time -----

  /** A token that descends from the device and passes the server's check at this time. */
  predicate UsableRefresh(db: Db, lines: Lines, d: DeviceId, t: Digest, now: int) {
    ValidRefresh(db, t, now) && t in lines.refresh && Descends(db.refresh, lines.refresh[t], d)
  }

  predicate UsableAccess(db: Db, lines: Lines, d: DeviceId, j: Jti, now: int) {
    j in db.access && ValidAccess(db.access, j, db.access[j].user, now) && j in lines.access && Descends(db.refresh, lines.access[j], d)
  }

  lemma UsableUntil(h: Hashes, db: Db, lines: Lines, d: DeviceId, now: int)
    requires Inv(h, db) && LinesOk(db, lines) && Ended(db.devices, d)
    ensures forall t :: UsableRefresh(db, lines, d, t, now) <==> OutsideRefresh(db, lines, d, t) && now <= db.refresh[t].expiresAt
    ensures forall j :: UsableAccess(db, lines, d, j, now) <==> OutsideAccess(db, lines, d, j) && now <= db.access[j].expiresAt
  {
    AliveIsOutside(h, db, lines, d);
    hide Inv, LinesOk, Ended, Descends;
    assert forall t | UsableRefresh(db, lines, d, t, now) :: AliveRefresh(db, lines, d, t);
    assert forall j | UsableAccess(db, lines, d, j, now) :: AliveAccess(db, lines, d, j);
  }

  lemma UsableIsOutside(h: Hashes, db: Db, lines: Lines, d: DeviceId, now: int)
    requires Inv(h, db) && LinesOk(db, lines) && Ended(db.devices, d)
    ensures (exists t :: UsableRefresh(db, lines, d, t, now)) <==> exists until :: RefreshUntil(db, lines, d, until) && now <= until
    ensures (exists j :: UsableAccess(db, lines, d, j, now)) <==> exists until :: AccessUntil(db, lines, d, until) && now <= until
  {
    UsableUntil(h, db, lines, d, now);
    OutsideInTables(db, lines, d);
    hide Inv, LinesOk, Ended, UsableRefresh, UsableAccess, OutsideRefresh, OutsideAccess;
    if t :| UsableRefresh(db, lines, d, t, now) { assert RefreshUntil(db, lines, d, db.refresh[t].expiresAt); }
    if j :| UsableAccess(db, lines, d, j, now) { assert AccessUntil(db, lines, d, db.access[j].expiresAt); }
    if until :| RefreshUntil(db, lines, d, until) && now <= until {
      var t :| OutsideRefresh(db, lines, d, t) && db.refresh[t].expiresAt == until;
      assert UsableRefresh(db, lines, d, t, now);
    }
    if until :| AccessUntil(db, lines, d, until) && now <= until {
      var j :| OutsideAccess(db, lines, d, j) && db.access[j].expiresAt == until;
      assert UsableAccess(db, lines, d, j, now);
    }
  }

  /**
   After a device is ended, a refresh token that descends from it can still be used exactly when the website rotated
   such a token, the newest time at most 30 days ago, and the person has not signed out of the website since. With
   access tokens it is any such rotation, at most 15 minutes ago.
   */
  lemma {:induction false} UsableAfterEnding(h: Hashes, ops: seq<Op>, d: DeviceId, now: int)
    requires History(h, ops) && Ended(After(h, ops).devices, d)
    ensures var db, lines := After(h, ops), LinesOf(h, ops);
      && ((exists t :: UsableRefresh(db, lines, d, t, now)) <==>
            exists i: nat :: LastOutSince(h, ops, i, d, db.devices[d].user) && now <= ops[i].now + REFRESH_TTL)
      && ((exists j :: UsableAccess(db, lines, d, j, now)) <==>
            exists i: nat :: OutSince(h, ops, i, d, db.devices[d].user) && now <= ops[i].now + ACCESS_TTL)
  {
    hide After, History, LinesOf, Inv, LinesOk, UsableRefresh, UsableAccess, RefreshUntil, AccessUntil, OutSince, LastOutSince, Lone;
    var db, lines := After(h, ops), LinesOf(h, ops);
    var user := db.devices[d].user;
    Reachable(h, ops);
    OutsideUntil(h, ops, d, user);
    UsableIsOutside(h, db, lines, d, now);
    forall i: nat ensures OutSince(h, ops, i, d, user) || LastOutSince(h, ops, i, d, user) ==> i < |ops| {
      OutWithin(h, ops, i, d, user);
    }
    if i: nat :| OutSince(h, ops, i, d, user) && now <= ops[i].now + ACCESS_TTL {
      assert AccessDue(h, ops, d, user, ops[i].now + ACCESS_TTL);
    }
    if i: nat :| LastOutSince(h, ops, i, d, user) && now <= ops[i].now + REFRESH_TTL {
      assert RefreshDue(h, ops, d, user, ops[i].now + REFRESH_TTL);
    }
  }
}
