/** The release catalogue: what the latest release is, and what publishing and withdrawing may change. */
module Releases {
  import opened Prelude
  import opened PythonOrder
  import opened ReleaseVersion

  datatype Channel = Stable | Beta
  datatype Platform = Windows | Linux | MacOS
  datatype Arch = X64 | Arm64
  datatype Kind = Nsis | Dmg | Zip | AppImage | Deb | Rpm

  datatype Target = Target(platform: Platform, arch: Arch, kind: Kind)
  datatype Installer = Installer(target: Target, url: string, sha512: string, size: nat)

  datatype Release = Release(
    channel: Channel, version: string, notes: string, minimum: Option<string>, publishedAt: int, withdrawnAt: Option<int>,
    files: seq<Installer>)

  datatype Body = Body(
    channel: Channel, version: string, notes: string, minimum: Option<string>, publishedAt: Option<int>, files: seq<Installer>)

  datatype Refusal = BadVersion | NoFiles | RepeatedTarget | AlreadyPublished | NoSuchRelease

  // ----- the newest release that fits -----

  predicate Fits(f: Installer, platform: Option<Platform>, arch: Option<Arch>) {
    && (platform.None? || f.target.platform == platform.value)
    && (arch.None? || f.target.arch == arch.value)
  }

  function Fitting(files: seq<Installer>, platform: Option<Platform>, arch: Option<Arch>): seq<Installer> {
    if files == [] then [] else
      (if Fits(files[0], platform, arch) then [files[0]] else []) + Fitting(files[1..], platform, arch)
  }

  lemma {:induction false} FittingHas(files: seq<Installer>, platform: Option<Platform>, arch: Option<Arch>)
    ensures forall f :: f in Fitting(files, platform, arch) <==>
      f in files && (platform.Some? ==> f.target.platform == platform.value) && (arch.Some? ==> f.target.arch == arch.value)
    ensures forall f :: f in Fitting(files, platform, arch) <==> f in files && Fits(f, platform, arch)
  {
    if files != [] {
      FittingHas(files[1..], platform, arch);
      assert files == [files[0]] + files[1..];
    }
  }

  /** What a request may be offered. */
  predicate Eligible(r: Release, channel: Channel, platform: Option<Platform>, arch: Option<Arch>, now: int) {
    && r.channel == channel && r.withdrawnAt.None? && r.publishedAt <= now
    && exists f :: f in r.files && Fits(f, platform, arch)
  }

  /** Row i of the table comes before row j in the sorted list: a higher version, or the same and earlier in the table. */
  predicate Outranks(fold: Fold, rows: seq<Release>, i: nat, j: nat) {
    && i < |rows| && j < |rows|
    && var order := VersionOrder(fold, rows[i].version, rows[j].version);
      order == Greater || (order == Equal && i <= j)
  }

  predicate Ordered(fold: Fold, rows: seq<Release>, order: seq<nat>) {
    && (forall a | 0 <= a < |order| :: order[a] < |rows|)
    && forall a, b | 0 <= a < b < |order| :: Outranks(fold, rows, order[a], order[b])
  }

  lemma OutranksTransitive(fold: Fold, rows: seq<Release>, i: nat, j: nat, k: nat)
    requires Outranks(fold, rows, i, j) && Outranks(fold, rows, j, k)
    ensures Outranks(fold, rows, i, k)
  {
    hide VersionOrder;
    var s, t, u := rows[i].version, rows[j].version, rows[k].version;
    TotalPreorder(fold, s, t, u);
    TotalPreorder(fold, t, u, s);
    TotalPreorder(fold, u, t, s);
    TotalPreorder(fold, t, s, u);
    TotalPreorder(fold, u, s, t);
  }

  lemma OutranksTotal(fold: Fold, rows: seq<Release>, i: nat, j: nat)
    requires i < |rows| && j < |rows|
    ensures Outranks(fold, rows, i, j) || Outranks(fold, rows, j, i)
  {
    hide VersionOrder;
    TotalPreorder(fold, rows[i].version, rows[j].version, rows[i].version);
  }

  /** The greatest eligible release with its matching installers, or none when nothing is eligible. */
  ghost predicate IsLatest(fold: Fold, rows: seq<Release>, channel: Channel, platform: Option<Platform>, arch: Option<Arch>, now: int,
                           latest: Option<(nat, seq<Installer>)>) {
    && (latest.None? <==> forall r | r in rows :: !Eligible(r, channel, platform, arch, now))
    && (latest.Some? ==> var (i, files) := latest.value;
          && i < |rows| && Eligible(rows[i], channel, platform, arch, now)
          && files == Fitting(rows[i].files, platform, arch) && files != []
          && forall j | 0 <= j < |rows| && Eligible(rows[j], channel, platform, arch, now) :: Outranks(fold, rows, i, j))
  }

  /** There is only one answer. */
  lemma OneLatest(fold: Fold, rows: seq<Release>, channel: Channel, platform: Option<Platform>, arch: Option<Arch>, now: int,
                  a: Option<(nat, seq<Installer>)>, b: Option<(nat, seq<Installer>)>)
    requires IsLatest(fold, rows, channel, platform, arch, now, a) && IsLatest(fold, rows, channel, platform, arch, now, b)
    ensures a == b
  {
    hide VersionOrder, Eligible;
    assert forall k | 0 <= k < |rows| :: rows[k] in rows;
    if a.Some? && b.Some? {
      var (i, _) := a.value;
      var (j, _) := b.value;
      assert Outranks(fold, rows, i, j) && Outranks(fold, rows, j, i);
      TotalPreorder(fold, rows[i].version, rows[j].version, rows[i].version);
    }
  }

  /** Of eligible releases with equal keys, only the first in the table can be the answer. */
  lemma TiesGoToTheFirst(fold: Fold, rows: seq<Release>, channel: Channel, platform: Option<Platform>, arch: Option<Arch>, now: int,
                         latest: (nat, seq<Installer>), i: nat)
    requires IsLatest(fold, rows, channel, platform, arch, now, Some(latest))
    requires i < |rows| && Eligible(rows[i], channel, platform, arch, now) && Key(fold, rows[i].version) == Key(fold, rows[latest.0].version)
    ensures latest.0 <= i
  {
    hide VersionOrder, Eligible, Key;
    assert Outranks(fold, rows, latest.0, i);
    TotalPreorder(fold, rows[latest.0].version, rows[i].version, rows[i].version);
  }

  // ----- the rows -----

  predicate Same(r: Release, channel: Channel, version: string) { r.channel == channel && r.version == version }

  ghost predicate UniqueVersions(rows: seq<Release>) {
    forall i, j | 0 <= i < j < |rows| :: !Same(rows[j], rows[i].channel, rows[i].version)
  }

  predicate DistinctTargets(files: seq<Installer>) {
    forall i, j | 0 <= i < j < |files| :: files[i].target != files[j].target
  }

  /** Every release has a version the pattern takes, and installers for distinct targets. */
  ghost predicate Inv(fold: Fold, rows: seq<Release>) {
    && UniqueVersions(rows)
    && forall i | 0 <= i < |rows| :: Matched(fold, rows[i].version).Some? && rows[i].files != [] && DistinctTargets(rows[i].files)
  }

  function PublishRefusal(fold: Fold, rows: seq<Release>, body: Body): Option<Refusal> {
    if Matched(fold, body.version).None? || (body.minimum.Some? && Matched(fold, body.minimum.value).None?) then Some(BadVersion)
    else if body.files == [] then Some(NoFiles)
    else if !DistinctTargets(body.files) then Some(RepeatedTarget)
    else if exists r :: r in rows && Same(r, body.channel, body.version) then Some(AlreadyPublished)
    else None
  }

  function Published(body: Body, now: int): Release {
    Release(body.channel, body.version, body.notes, body.minimum,
      if body.publishedAt.Some? then body.publishedAt.value else now, None, body.files)
  }

  function Publish(fold: Fold, rows: seq<Release>, body: Body, now: int): seq<Release> {
    if PublishRefusal(fold, rows, body).Some? then rows else rows + [Published(body, now)]
  }

  function Withdraw(rows: seq<Release>, channel: Channel, version: string, now: int): seq<Release> {
    seq(|rows|, i requires 0 <= i < |rows| =>
      if Same(rows[i], channel, version) && rows[i].withdrawnAt.None? then rows[i].(withdrawnAt := Some(now)) else rows[i])
  }

  datatype Op = PublishOp(body: Body, now: int) | WithdrawOp(channel: Channel, version: string, now: int)

  function Next(fold: Fold, rows: seq<Release>, op: Op): seq<Release> {
    match op
    case PublishOp(body, now) => Publish(fold, rows, body, now)
    case WithdrawOp(channel, version, now) => Withdraw(rows, channel, version, now)
  }

  function After(fold: Fold, rows: seq<Release>, ops: seq<Op>): seq<Release> {
    if ops == [] then rows else Next(fold, After(fold, rows, ops[..|ops| - 1]), ops[|ops| - 1])
  }

  /** Only more rows; a row changes only by being withdrawn, once. */
  ghost predicate OnlyGrows(before: seq<Release>, after: seq<Release>) {
    && |before| <= |after|
    && forall i | 0 <= i < |before| ::
      after[i] == before[i] || (before[i].withdrawnAt.None? && after[i].withdrawnAt.Some? && after[i] == before[i].(withdrawnAt := after[i].withdrawnAt))
  }

  lemma NextKeeps(fold: Fold, rows: seq<Release>, op: Op)
    requires Inv(fold, rows)
    ensures Inv(fold, Next(fold, rows, op)) && OnlyGrows(rows, Next(fold, rows, op))
  {
    hide Matched;
    if op.PublishOp? && PublishRefusal(fold, rows, op.body).None? {
      assert forall i | 0 <= i < |rows| :: !Same(rows[i], op.body.channel, op.body.version);
    }
  }

  /** Releases can't be changed: in every run each stays as published, but for one withdrawal, which is for good. */
  lemma {:induction false} ReleasesStay(fold: Fold, rows: seq<Release>, ops: seq<Op>)
    requires Inv(fold, rows)
    ensures Inv(fold, After(fold, rows, ops)) && OnlyGrows(rows, After(fold, rows, ops))
  {
    hide Next, Inv;
    if ops != [] {
      var mid := After(fold, rows, ops[..|ops| - 1]);
      ReleasesStay(fold, rows, ops[..|ops| - 1]);
      NextKeeps(fold, mid, ops[|ops| - 1]);
    }
  }

  /** A withdrawn version is never offered again, and cannot be published again. */
  lemma WithdrawnForGood(fold: Fold, rows: seq<Release>, i: nat, ops: seq<Op>, now: int, platform: Option<Platform>, arch: Option<Arch>, body: Body)
    requires Inv(fold, rows) && i < |rows| && rows[i].withdrawnAt.Some?
    ensures var after := After(fold, rows, ops);
      && (forall r | r in after && Same(r, rows[i].channel, rows[i].version) :: !Eligible(r, r.channel, platform, arch, now))
      && (Same(rows[i], body.channel, body.version) ==> Publish(fold, after, body, now) == after)
  {
    hide Matched, After;
    ReleasesStay(fold, rows, ops);
    var after := After(fold, rows, ops);
    assert after[i] == rows[i] && after[i] in after;
    forall r | r in after && Same(r, rows[i].channel, rows[i].version) ensures r == rows[i] {
      var j :| 0 <= j < |after| && after[j] == r;
      assert j == i;
    }
  }

  class Catalogue {
    const fold: Fold
    var rows: seq<Release>

    ghost predicate Valid()
      reads this
    {
      Inv(fold, rows)
    }

    constructor (fold: Fold)
      ensures Valid() && rows == [] && this.fold == fold
    {
      this.fold := fold;
      rows := [];
    }

    /** The table positions on a channel that are not withdrawn, sorted by version, highest first, ties in table order. */
    method NewestFirst(channel: Channel) returns (order: seq<nat>)
      ensures Ordered(fold, rows, order)
      ensures forall k: nat :: k in order <==> k < |rows| && rows[k].channel == channel && rows[k].withdrawnAt.None?
    {
      hide VersionOrder, Outranks;
      order := [];
      for i := 0 to |rows|
        invariant Ordered(fold, rows, order) && forall a | 0 <= a < |order| :: order[a] < i
        invariant forall k: nat :: k in order <==> k < i && rows[k].channel == channel && rows[k].withdrawnAt.None?
      {
        if rows[i].channel == channel && rows[i].withdrawnAt.None? {
          var at := 0;
          while at < |order| && VersionOrder(fold, rows[order[at]].version, rows[i].version) != Less
            invariant 0 <= at <= |order|
            invariant forall a | 0 <= a < at :: VersionOrder(fold, rows[order[a]].version, rows[i].version) != Less
          {
            at := at + 1;
          }
          Placed(fold, rows, order, i, at);
          order := order[..at] + [i] + order[at..];
        }
      }
    }

    /** The greatest eligible release and its matching installers; none exactly when nothing is eligible. */
    method Latest(channel: Channel, platform: Option<Platform>, arch: Option<Arch>, now: int)
      returns (latest: Option<(nat, seq<Installer>)>)
      ensures IsLatest(fold, rows, channel, platform, arch, now, latest)
    {
      hide VersionOrder, Outranks;
      var order := NewestFirst(channel);
      for n := 0 to |order|
        invariant forall a | 0 <= a < n :: !Eligible(rows[order[a]], channel, platform, arch, now)
      {
        var i := order[n];
        assert i in order;
        FittingHas(rows[i].files, platform, arch);
        if rows[i].publishedAt > now {
          continue;
        }
        var files := Fitting(rows[i].files, platform, arch);
        if files == [] {
          continue;
        }
        assert files[0] in files && files[0] in rows[i].files && rows[i] in rows;
        FirstIsGreatest(fold, rows, order, n, channel, platform, arch, now);
        return Some((i, files));
      }
      forall r | r in rows ensures !Eligible(r, channel, platform, arch, now) {
        var j: nat :| j < |rows| && rows[j] == r;
        if r.channel == channel && r.withdrawnAt.None? { assert j in order; }
      }
      latest := None;
    }

    method PublishRelease(body: Body, now: int) returns (refusal: Option<Refusal>)
      requires Valid()
      modifies this
      ensures refusal == PublishRefusal(fold, old(rows), body)
      ensures rows == Next(fold, old(rows), PublishOp(body, now)) && OnlyGrows(old(rows), rows)
      ensures Valid()
    {
      hide Matched;
      NextKeeps(fold, rows, PublishOp(body, now));
      if Matched(fold, body.version).None? || (body.minimum.Some? && Matched(fold, body.minimum.value).None?) {
        return Some(BadVersion);
      }
      if body.files == [] {
        return Some(NoFiles);
      }
      var targets := Targets(body.files);
      CountTargets(body.files);
      if |targets| != |body.files| {
        return Some(RepeatedTarget);
      }
      if exists r :: r in rows && Same(r, body.channel, body.version) {
        return Some(AlreadyPublished);
      }
      rows := rows + [Published(body, now)];
      refusal := None;
    }

    method WithdrawRelease(channel: Channel, version: string, now: int) returns (refusal: Option<Refusal>)
      requires Valid()
      modifies this
      ensures rows == Next(fold, old(rows), WithdrawOp(channel, version, now)) && OnlyGrows(old(rows), rows)
      ensures refusal == if exists r :: r in old(rows) && Same(r, channel, version) then None else Some(NoSuchRelease)
      ensures refusal.None? ==> exists r :: r in rows && Same(r, channel, version) && r.withdrawnAt.Some?
      ensures Valid()
    {
      hide Matched;
      NextKeeps(fold, rows, WithdrawOp(channel, version, now));
      for i := 0 to |rows|
        invariant rows == old(rows)
        invariant forall k | 0 <= k < i :: !Same(rows[k], channel, version)
      {
        if Same(rows[i], channel, version) {
          if rows[i].withdrawnAt.None? {
            rows := rows[i := rows[i].(withdrawnAt := Some(now))];
          }
          assert rows[i] in rows && old(rows)[i] in old(rows);
          assert rows == Withdraw(old(rows), channel, version, now);
          return None;
        }
      }
      assert rows == Withdraw(rows, channel, version, now);
      refusal := Some(NoSuchRelease);
    }
  }

  /** Row i, later in the table than all placed so far, goes after every version not lower than its own. */
  lemma Placed(fold: Fold, rows: seq<Release>, order: seq<nat>, i: nat, at: nat)
    requires i < |rows| && at <= |order| && Ordered(fold, rows, order) && forall a | 0 <= a < |order| :: order[a] < i
    requires forall a | 0 <= a < at :: VersionOrder(fold, rows[order[a]].version, rows[i].version) != Less
    requires at < |order| ==> VersionOrder(fold, rows[order[at]].version, rows[i].version) == Less
    ensures Ordered(fold, rows, order[..at] + [i] + order[at..])
  {
    hide VersionOrder;
    var placed := order[..at] + [i] + order[at..];
    forall a | 0 <= a < at ensures Outranks(fold, rows, order[a], i) { }
    forall b | at <= b < |order| ensures Outranks(fold, rows, i, order[b]) {
      TotalPreorder(fold, rows[order[at]].version, rows[i].version, rows[i].version);
      if b > at { OutranksTransitive(fold, rows, i, order[at], order[b]); }
    }
    Inserted(fold, rows, order, i, at);
  }

  lemma Inserted(fold: Fold, rows: seq<Release>, order: seq<nat>, i: nat, at: nat)
    requires i < |rows| && at <= |order| && Ordered(fold, rows, order)
    requires forall a | 0 <= a < at :: Outranks(fold, rows, order[a], i)
    requires forall b | at <= b < |order| :: Outranks(fold, rows, i, order[b])
    ensures Ordered(fold, rows, order[..at] + [i] + order[at..])
  {
    hide Outranks;
    var placed := order[..at] + [i] + order[at..];
    assert forall a | 0 <= a < |placed| :: placed[a] == if a < at then order[a] else if a == at then i else order[a - 1];
  }

  lemma FirstIsGreatest(fold: Fold, rows: seq<Release>, order: seq<nat>, n: nat, channel: Channel, platform: Option<Platform>, arch: Option<Arch>, now: int)
    requires Ordered(fold, rows, order) && n < |order|
    requires forall k: nat :: k in order <==> k < |rows| && rows[k].channel == channel && rows[k].withdrawnAt.None?
    requires forall a | 0 <= a < n :: !Eligible(rows[order[a]], channel, platform, arch, now)
    ensures forall j | 0 <= j < |rows| && Eligible(rows[j], channel, platform, arch, now) :: Outranks(fold, rows, order[n], j)
  {
    hide VersionOrder;
    assert order[n] in order;
    forall j: nat | j < |rows| && Eligible(rows[j], channel, platform, arch, now) ensures Outranks(fold, rows, order[n], j) {
      assert j in order;
      var b :| 0 <= b < |order| && order[b] == j;
      OutranksTotal(fold, rows, j, j);
    }
  }

  function Targets(files: seq<Installer>): set<Target> { set f | f in files :: f.target }

  lemma TargetsOfLast(front: seq<Installer>, last: Installer)
    ensures Targets(front + [last]) == Targets(front) + {last.target}
  {
  }

  lemma DistinctLast(front: seq<Installer>, last: Installer)
    ensures DistinctTargets(front + [last]) <==> DistinctTargets(front) && last.target !in Targets(front)
  {
    var files := front + [last];
    assert forall i | 0 <= i < |front| :: files[i] == front[i] && front[i].target in Targets(front);
    assert files[|front|] == last;
    if last.target in Targets(front) {
      var f :| f in front && f.target == last.target;
      var i :| 0 <= i < |front| && front[i] == f;
      assert files[i].target == files[|front|].target;
    }
  }

  /** There are as many targets as installers exactly when no two share one. */
  lemma {:induction false} CountTargets(files: seq<Installer>)
    ensures |Targets(files)| == |files| <==> DistinctTargets(files)
    ensures |Targets(files)| <= |files|
  {
    if files != [] {
      var front, last := files[..|files| - 1], files[|files| - 1];
      CountTargets(front);
      assert files == front + [last];
      TargetsOfLast(front, last);
      DistinctLast(front, last);
      hide Targets, DistinctTargets;
      if last.target in Targets(front) { assert Targets(front) + {last.target} == Targets(front); }
    }
  }
}
