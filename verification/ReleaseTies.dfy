/** Two releases the catalogue takes for different ones and the order does not. */
module ReleaseTies {
  import opened Prelude
  import opened ReleaseVersion
  import opened Releases
  import opened SemVerTexts

  /** Two texts of one key, published in a channel: both are accepted, and the one published first is offered. */
  lemma FirstOfTwoIsOffered(fold: Fold, a: Body, b: Body, now: int, platform: Option<Platform>, arch: Option<Arch>,
                            latest: Option<(nat, seq<Installer>)>)
    requires a.version != b.version && Key(fold, a.version) == Key(fold, b.version) && a.channel == b.channel
    requires PublishRefusal(fold, [], a).None? && PublishRefusal(fold, [], b).None?
    requires var rows := Publish(fold, Publish(fold, [], a, now), b, now);
      && (forall r | r in rows :: Eligible(r, a.channel, platform, arch, now))
      && IsLatest(fold, rows, a.channel, platform, arch, now, latest)
    ensures var rows := Publish(fold, Publish(fold, [], a, now), b, now);
      |rows| == 2 && latest.Some? && latest.value.0 == 0
  {
    hide Matched, DistinctTargets, Key, Eligible;
    var rows := Publish(fold, Publish(fold, [], a, now), b, now);
    assert rows == [Published(a, now), Published(b, now)];
    assert rows[0] in rows && rows[1] in rows;
    TiesGoToTheFirst(fold, rows, a.channel, platform, arch, now, latest.value, 0);
  }

  /** "1.0.0" and "01.0.0", in either order. */
  lemma FirstOfOneAndZeroOne(fold: Fold, a: Body, b: Body, now: int, platform: Option<Platform>, arch: Option<Arch>,
                             latest: Option<(nat, seq<Installer>)>)
    requires (a.version == "1.0.0" && b.version == "01.0.0") || (a.version == "01.0.0" && b.version == "1.0.0")
    requires a.channel == b.channel && PublishRefusal(fold, [], a).None? && PublishRefusal(fold, [], b).None?
    requires var rows := Publish(fold, Publish(fold, [], a, now), b, now);
      && (forall r | r in rows :: Eligible(r, a.channel, platform, arch, now))
      && IsLatest(fold, rows, a.channel, platform, arch, now, latest)
    ensures var rows := Publish(fold, Publish(fold, [], a, now), b, now);
      rows == [Published(a, now), Published(b, now)] && latest.Some? && latest.value.0 == 0
  {
    hide Matched, DistinctTargets, Key, Eligible;
    OneAndZeroOne(fold);
    FirstOfTwoIsOffered(fold, a, b, now, platform, arch, latest);
  }
}
