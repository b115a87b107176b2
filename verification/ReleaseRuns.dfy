/** What the catalogue holds and offers, told by the publications and withdrawals of a run. */
module ReleaseRuns {
  import opened Prelude
  import opened PythonOrder
  import opened ReleaseVersion
  import opened Releases

  /** Request k publishes a release. */
  ghost predicate PublishedAt(fold: Fold, ops: seq<Op>, k: nat) {
    k < |ops| && ops[k].PublishOp? && PublishRefusal(fold, After(fold, [], ops[..k]), ops[k].body).None?
  }

  /** The date it is published for: its own, or that of the request. */
  function DateOf(op: Op): int
    requires op.PublishOp?
  {
    match op.body.publishedAt
    case Some(date) => date
    case None => op.now
  }

  predicate Withdraws(op: Op, body: Body) { op.WithdrawOp? && op.channel == body.channel && op.version == body.version }

  /** When it was first withdrawn after request k, if it was. */
  function WithdrawnAfter(ops: seq<Op>, k: nat, body: Body): Option<int> {
    if |ops| <= k + 1 then None else
      var op, prior := ops[|ops| - 1], WithdrawnAfter(ops[..|ops| - 1], k, body);
      if prior.None? && Withdraws(op, body) then Some(op.now) else prior
  }

  /** The row of the release published by request k. */
  predicate RowOf(r: Release, ops: seq<Op>, k: nat)
    requires k < |ops| && ops[k].PublishOp?
  {
    var body := ops[k].body;
    && r.channel == body.channel && r.version == body.version && r.notes == body.notes && r.minimum == body.minimum
    && r.files == body.files && r.publishedAt == DateOf(ops[k]) && r.withdrawnAt == WithdrawnAfter(ops, k, body)
  }

  ghost predicate HasRow(fold: Fold, ops: seq<Op>, k: nat, rows: seq<Release>) {
    PublishedAt(fold, ops, k) && exists r :: r in rows && RowOf(r, ops, k)
  }

  ghost predicate ComesFrom(fold: Fold, ops: seq<Op>, r: Release) { exists k: nat :: PublishedAt(fold, ops, k) && RowOf(r, ops, k) }

  lemma PublishedBefore(fold: Fold, ops: seq<Op>, op: Op, k: nat)
    ensures k < |ops| ==> (PublishedAt(fold, ops + [op], k) <==> PublishedAt(fold, ops, k))
    ensures PublishedAt(fold, ops + [op], |ops|) <==> op.PublishOp? && PublishRefusal(fold, After(fold, [], ops), op.body).None?
    ensures k > |ops| ==> !PublishedAt(fold, ops + [op], k) && !PublishedAt(fold, ops, k)
    ensures !PublishedAt(fold, ops, |ops|)
  {
    hide After, PublishRefusal;
    var all := ops + [op];
    assert all[..|ops|] == ops;
    if k < |ops| { assert all[..k] == ops[..k]; }
  }

  /** What the next request makes of a row. */
  function Moved(op: Op, r: Release): Release {
    if op.WithdrawOp? && Same(r, op.channel, op.version) && r.withdrawnAt.None? then r.(withdrawnAt := Some(op.now)) else r
  }

  lemma RowMoves(ops: seq<Op>, op: Op, k: nat, r: Release)
    requires k < |ops| && ops[k].PublishOp? && RowOf(r, ops, k)
    ensures RowOf(Moved(op, r), ops + [op], k)
  {
    var all := ops + [op];
    assert all[..|all| - 1] == ops && all[k] == ops[k];
  }

  lemma NewRow(ops: seq<Op>, op: Op)
    requires op.PublishOp?
    ensures RowOf(Published(op.body, op.now), ops + [op], |ops|)
  {
  }

  lemma RowsMove(fold: Fold, rows: seq<Release>, op: Op)
    ensures forall r | r in rows :: Moved(op, r) in Next(fold, rows, op)
    ensures forall r | r in Next(fold, rows, op) ::
      (exists s :: s in rows && r == Moved(op, s))
      || (op.PublishOp? && PublishRefusal(fold, rows, op.body).None? && r == Published(op.body, op.now))
    ensures op.PublishOp? && PublishRefusal(fold, rows, op.body).None? ==> Published(op.body, op.now) in Next(fold, rows, op)
  {
    hide PublishRefusal, Published;
    var after := Next(fold, rows, op);
    forall r | r in rows ensures Moved(op, r) in after {
      var i :| 0 <= i < |rows| && rows[i] == r;
      assert after[i] == Moved(op, r);
    }
    forall r | r in after
      ensures (exists s :: s in rows && r == Moved(op, s))
        || (op.PublishOp? && PublishRefusal(fold, rows, op.body).None? && r == Published(op.body, op.now))
    {
      var i :| 0 <= i < |after| && after[i] == r;
      if i < |rows| { assert rows[i] in rows && r == Moved(op, rows[i]); }
    }
  }

  /** In every run the rows are those of the releases published in it, as published, but for their first withdrawal. */
  lemma {:induction false} RowsTell(fold: Fold, ops: seq<Op>)
    ensures forall k: nat | PublishedAt(fold, ops, k) :: HasRow(fold, ops, k, After(fold, [], ops))
    ensures forall r | r in After(fold, [], ops) :: ComesFrom(fold, ops, r)
  {
    if ops != [] {
      hide PublishRefusal, Next, RowOf, Published, After;
      var front, op := ops[..|ops| - 1], ops[|ops| - 1];
      assert ops == front + [op];
      RowsTell(fold, front);
      AfterSnoc(fold, front, op);
      RowsMove(fold, After(fold, [], front), op);
      hide PublishedAt;
      forall k: nat | PublishedAt(fold, ops, k) ensures HasRow(fold, ops, k, After(fold, [], ops)) {
        RowKept(fold, front, op, k);
      }
      forall r | r in After(fold, [], ops) ensures ComesFrom(fold, ops, r) {
        RowFrom(fold, front, op, r);
      }
    }
  }

  lemma AfterSnoc(fold: Fold, ops: seq<Op>, op: Op)
    ensures After(fold, [], ops + [op]) == Next(fold, After(fold, [], ops), op)
  {
    hide Next;
    assert (ops + [op])[..|ops|] == ops;
  }

  lemma RowKept(fold: Fold, front: seq<Op>, op: Op, k: nat)
    requires PublishedAt(fold, front + [op], k)
    requires forall k: nat | PublishedAt(fold, front, k) :: HasRow(fold, front, k, After(fold, [], front))
    ensures HasRow(fold, front + [op], k, After(fold, [], front + [op]))
  {
    var rows, ops := After(fold, [], front), front + [op];
    AfterSnoc(fold, front, op);
    RowsMove(fold, rows, op);
    PublishedBefore(fold, front, op, k);
    hide PublishRefusal, Next, RowOf, Published, After;
    if k < |front| {
      assert HasRow(fold, front, k, rows);
      var r :| r in rows && RowOf(r, front, k);
      RowMoves(front, op, k, r);
      assert Moved(op, r) in After(fold, [], ops);
    } else {
      NewRow(front, op);
      assert Published(op.body, op.now) in After(fold, [], ops);
    }
  }

  lemma RowFrom(fold: Fold, front: seq<Op>, op: Op, r: Release)
    requires r in After(fold, [], front + [op]) && forall s | s in After(fold, [], front) :: ComesFrom(fold, front, s)
    ensures ComesFrom(fold, front + [op], r)
  {
    var rows := After(fold, [], front);
    AfterSnoc(fold, front, op);
    RowsMove(fold, rows, op);
    hide PublishRefusal, Next, RowOf, Published, After;
    if s :| s in rows && r == Moved(op, s) {
      var k: nat :| PublishedAt(fold, front, k) && RowOf(s, front, k);
      PublishedBefore(fold, front, op, k);
      RowMoves(front, op, k, s);
      assert PublishedAt(fold, front + [op], k);
    } else {
      PublishedBefore(fold, front, op, |front|);
      NewRow(front, op);
    }
  }

  /** A release is taken unless its versions or files are not in order, or it was ever published before. */
  lemma {:induction false} PublishAnswers(fold: Fold, ops: seq<Op>, body: Body)
    ensures var refusal := PublishRefusal(fold, After(fold, [], ops), body);
      var versions := Matched(fold, body.version).Some? && (body.minimum.Some? ==> Matched(fold, body.minimum.value).Some?);
      var before := exists k: nat :: PublishedAt(fold, ops, k) && ops[k].body.channel == body.channel && ops[k].body.version == body.version;
      && (refusal == Some(BadVersion) <==> !versions)
      && (refusal == Some(NoFiles) <==> versions && body.files == [])
      && (refusal == Some(RepeatedTarget) <==> versions && exists i, j :: 0 <= i < j < |body.files| && body.files[i].target == body.files[j].target)
      && (refusal == Some(AlreadyPublished) <==> versions && body.files != [] && DistinctTargets(body.files) && before)
      && (refusal.None? <==> versions && body.files != [] && DistinctTargets(body.files) && !before)
  {
    RowsTell(fold, ops);
    hide Matched, After;
    var rows := After(fold, [], ops);
    if k: nat :| PublishedAt(fold, ops, k) && ops[k].body.channel == body.channel && ops[k].body.version == body.version {
      assert HasRow(fold, ops, k, rows);
      var r :| r in rows && RowOf(r, ops, k);
      assert Same(r, body.channel, body.version);
    }
    if r :| r in rows && Same(r, body.channel, body.version) {
      assert ComesFrom(fold, ops, r);
    }
  }

  /** Request k published a release that may be offered at this time. */
  ghost predicate Offerable(fold: Fold, ops: seq<Op>, k: nat, channel: Channel, platform: Option<Platform>, arch: Option<Arch>, now: int) {
    && PublishedAt(fold, ops, k) && ops[k].body.channel == channel
    && DateOf(ops[k]) <= now && WithdrawnAfter(ops, k, ops[k].body).None?
    && exists f :: f in ops[k].body.files && (platform.Some? ==> f.target.platform == platform.value) && (arch.Some? ==> f.target.arch == arch.value)
  }

  lemma EligibleIsOfferable(fold: Fold, ops: seq<Op>, k: nat, r: Release, channel: Channel, platform: Option<Platform>, arch: Option<Arch>, now: int)
    requires PublishedAt(fold, ops, k) && RowOf(r, ops, k)
    ensures Eligible(r, channel, platform, arch, now) <==> Offerable(fold, ops, k, channel, platform, arch, now)
  {
    hide WithdrawnAfter;
    FittingHas(r.files, platform, arch);
  }

  /** What request k published is offered: it may be, no version that may be is higher, and these are its installers. */
  ghost predicate IsOffered(fold: Fold, ops: seq<Op>, k: nat, channel: Channel, platform: Option<Platform>, arch: Option<Arch>, now: int,
                            latest: (nat, seq<Installer>)) {
    && Offerable(fold, ops, k, channel, platform, arch, now)
    && latest.0 < |After(fold, [], ops)| && RowOf(After(fold, [], ops)[latest.0], ops, k)
    && latest.1 == Fitting(ops[k].body.files, platform, arch)
    && forall m: nat | Offerable(fold, ops, m, channel, platform, arch, now) ::
      VersionOrder(fold, ops[k].body.version, ops[m].body.version) != Less
  }

  /**
   The latest release, in every run: the highest version published on the channel for a date not after now, not
   withdrawn since, with an installer that fits; and none exactly when there is no such publication.
   */
  lemma {:induction false} OfferedFromItsDate(fold: Fold, ops: seq<Op>, channel: Channel, platform: Option<Platform>, arch: Option<Arch>, now: int,
                                              latest: Option<(nat, seq<Installer>)>)
    requires IsLatest(fold, After(fold, [], ops), channel, platform, arch, now, latest)
    ensures latest.None? <==> forall k: nat :: !Offerable(fold, ops, k, channel, platform, arch, now)
    ensures latest.Some? ==> exists k: nat :: IsOffered(fold, ops, k, channel, platform, arch, now, latest.value)
  {
    hide After, Eligible, Offerable, Outranks, Fitting, IsOffered;
    SomeOfferable(fold, ops, channel, platform, arch, now);
    if latest.Some? { var k := LatestIsOffered(fold, ops, channel, platform, arch, now, latest.value); }
  }

  lemma SomeOfferable(fold: Fold, ops: seq<Op>, channel: Channel, platform: Option<Platform>, arch: Option<Arch>, now: int)
    ensures (exists r :: r in After(fold, [], ops) && Eligible(r, channel, platform, arch, now))
      <==> exists k: nat :: Offerable(fold, ops, k, channel, platform, arch, now)
  {
    hide After, Eligible, RowOf, Offerable, PublishRefusal;
    if k: nat :| Offerable(fold, ops, k, channel, platform, arch, now) {
      var i := RowIndex(fold, ops, k, channel, platform, arch, now);
    }
    if r :| r in After(fold, [], ops) && Eligible(r, channel, platform, arch, now) {
      RowsTell(fold, ops);
      assert ComesFrom(fold, ops, r);
      var k: nat :| PublishedAt(fold, ops, k) && RowOf(r, ops, k);
      EligibleIsOfferable(fold, ops, k, r, channel, platform, arch, now);
    }
  }

  lemma LatestIsOffered(fold: Fold, ops: seq<Op>, channel: Channel, platform: Option<Platform>, arch: Option<Arch>, now: int,
                        latest: (nat, seq<Installer>)) returns (k: nat)
    requires IsLatest(fold, After(fold, [], ops), channel, platform, arch, now, Some(latest))
    ensures IsOffered(fold, ops, k, channel, platform, arch, now, latest)
  {
    var i, rows := latest.0, After(fold, [], ops);
    RowsTell(fold, ops);
    assert rows[i] in rows && ComesFrom(fold, ops, rows[i]);
    hide After, Eligible, RowOf, Offerable, VersionOrder, Outranks, PublishRefusal, Fitting;
    k :| PublishedAt(fold, ops, k) && RowOf(rows[i], ops, k);
    EligibleIsOfferable(fold, ops, k, rows[i], channel, platform, arch, now);
    SameFiles(rows[i], ops, k);
    hide PublishedAt;
    NoneHigher(fold, ops, i, k, channel, platform, arch, now);
  }

  lemma NoneHigher(fold: Fold, ops: seq<Op>, i: nat, k: nat, channel: Channel, platform: Option<Platform>, arch: Option<Arch>, now: int)
    requires k < |ops| && ops[k].PublishOp? && i < |After(fold, [], ops)| && RowOf(After(fold, [], ops)[i], ops, k)
    requires var rows := After(fold, [], ops);
      forall j | 0 <= j < |rows| && Eligible(rows[j], channel, platform, arch, now) :: Outranks(fold, rows, i, j)
    ensures forall m: nat | Offerable(fold, ops, m, channel, platform, arch, now) ::
      m < |ops| && ops[m].PublishOp? && VersionOrder(fold, ops[k].body.version, ops[m].body.version) != Less
  {
    hide After, Eligible, RowOf, Offerable, VersionOrder, Outranks, PublishRefusal;
    var rows := After(fold, [], ops);
    SameFiles(rows[i], ops, k);
    forall m: nat | Offerable(fold, ops, m, channel, platform, arch, now)
      ensures m < |ops| && ops[m].PublishOp? && VersionOrder(fold, ops[k].body.version, ops[m].body.version) != Less
    {
      var j := RowIndex(fold, ops, m, channel, platform, arch, now);
      NotHigher(fold, rows, i, j);
      SameFiles(rows[j], ops, m);
    }
  }

  lemma NotHigher(fold: Fold, rows: seq<Release>, i: nat, j: nat)
    requires Outranks(fold, rows, i, j)
    ensures i < |rows| && j < |rows| && VersionOrder(fold, rows[i].version, rows[j].version) != Less
  {
    hide VersionOrder;
  }

  lemma RowIndex(fold: Fold, ops: seq<Op>, k: nat, channel: Channel, platform: Option<Platform>, arch: Option<Arch>, now: int) returns (i: nat)
    requires Offerable(fold, ops, k, channel, platform, arch, now)
    ensures k < |ops| && ops[k].PublishOp?
    ensures var rows := After(fold, [], ops);
      i < |rows| && rows[i] in rows && RowOf(rows[i], ops, k) && Eligible(rows[i], channel, platform, arch, now)
  {
    hide After, RowOf, Eligible, Offerable, PublishRefusal;
    Offered(fold, ops, k, channel, platform, arch, now);
    RowsTell(fold, ops);
    assert HasRow(fold, ops, k, After(fold, [], ops));
    hide PublishedAt;
    var r :| r in After(fold, [], ops) && RowOf(r, ops, k);
    EligibleIsOfferable(fold, ops, k, r, channel, platform, arch, now);
    i :| i < |After(fold, [], ops)| && After(fold, [], ops)[i] == r;
  }

  lemma Offered(fold: Fold, ops: seq<Op>, k: nat, channel: Channel, platform: Option<Platform>, arch: Option<Arch>, now: int)
    requires Offerable(fold, ops, k, channel, platform, arch, now)
    ensures PublishedAt(fold, ops, k)
  {
    hide After, PublishRefusal;
  }

  lemma SameFiles(r: Release, ops: seq<Op>, k: nat)
    requires k < |ops| && ops[k].PublishOp? && RowOf(r, ops, k)
    ensures r.files == ops[k].body.files && r.version == ops[k].body.version
  {
  }
}
