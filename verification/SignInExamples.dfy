/** Runs from empty tables in which the website and the devices do not leave each other alone. */
module SignInExamples {
  import opened Prelude
  import opened SignIn
  import opened SignInInvariant
  import opened SignInSafety
  import opened SignInLineage
  import opened SignInOutlives

  const INFO := DeviceInfo("laptop", "linux", "")

  /** Ada signs in on the website and lets one computer in. */
  function Pairing(h: Hashes): seq<Op> {
    [WebSignInOp("ada", "w", "j0", 0), CreateCodeOp("c", h.s256("v"), "", INFO, 0), ApproveOp("c", "ada", "j0", "code", 0),
     ExchangeOp("code", "v", "d", "r", "j1", 0)]
  }

  /** The tables after that. */
  function Paired(h: Hashes): Db {
    Db({"ada"},
      map["c" := CodeRow(Exchanged, h.s256("v"), Some(h.token("code")), "", INFO, Some("ada"), Some("d"), CODE_TTL)],
      map["d" := DeviceRow("ada", INFO, 0, None)],
      map[h.token("w") := RefreshRow("ada", REFRESH_TTL, false, Web, None),
          h.token("r") := RefreshRow("ada", REFRESH_TTL, false, Desktop, Some("d"))],
      map["j0" := AccessRow("ada", ACCESS_TTL, false, None), "j1" := AccessRow("ada", ACCESS_TTL, false, Some("d"))],
      map[])
  }

  lemma OneMore(h: Hashes, ops: seq<Op>, op: Op)
    requires History(h, ops) && Possible(h, After(h, ops), op)
    ensures History(h, ops + [op]) && After(h, ops + [op]) == Run(h, After(h, ops), op).db
    ensures LinesOf(h, ops + [op]) == Trace(h, After(h, ops), LinesOf(h, ops), op)
  {
    hide Possible, Run, Trace;
    assert (ops + [op])[..|ops|] == ops;
  }

  lemma SignedIn(h: Hashes)
    ensures History(h, Pairing(h)[..1])
    ensures After(h, Pairing(h)[..1]) == Db({"ada"}, map[], map[], map[h.token("w") := RefreshRow("ada", REFRESH_TTL, false, Web, None)],
          map["j0" := AccessRow("ada", ACCESS_TTL, false, None)], map[])
    ensures LinesOf(h, Pairing(h)[..1]) == Lines(map[h.token("w") := [h.token("w")]], map["j0" := [h.token("w")]])
  {
    OneMore(h, [], Pairing(h)[0]);
    assert Pairing(h)[..1] == [] + [Pairing(h)[0]];
    assert [h.token("w")] == [] + [h.token("w")];
  }

  lemma ApprovedRun(h: Hashes)
    ensures History(h, Pairing(h)[..3])
    ensures After(h, Pairing(h)[..3]) == Db({"ada"},
          map["c" := CodeRow(Approved, h.s256("v"), Some(h.token("code")), "", INFO, Some("ada"), None, CODE_TTL)], map[],
          map[h.token("w") := RefreshRow("ada", REFRESH_TTL, false, Web, None)],
          map["j0" := AccessRow("ada", ACCESS_TTL, false, None)], map["c" := "code"])
    ensures LinesOf(h, Pairing(h)[..3]) == Lines(map[h.token("w") := [h.token("w")]], map["j0" := [h.token("w")]])
  {
    SignedIn(h);
    hide After, History, LinesOf;
    var ops := Pairing(h);
    OneMore(h, ops[..1], ops[1]);
    assert ops[..2] == ops[..1] + [ops[1]];
    OneMore(h, ops[..2], ops[2]);
    assert ops[..3] == ops[..2] + [ops[2]];
  }

  /** The exchange, on the tables it finds. */
  lemma CodeExchanged(h: Hashes, db: Db, op: Op)
    requires op == ExchangeOp("code", "v", "d", "r", "j1", 0) && h.token("w") != h.token("r")
    requires db == Db({"ada"},
      map["c" := CodeRow(Approved, h.s256("v"), Some(h.token("code")), "", INFO, Some("ada"), None, CODE_TTL)], map[],
      map[h.token("w") := RefreshRow("ada", REFRESH_TTL, false, Web, None)],
      map["j0" := AccessRow("ada", ACCESS_TTL, false, None)], map["c" := "code"])
    ensures Possible(h, db, op) && Run(h, db, op) == Outcome(Paired(h), Tokens(Some("d"), "r", "j1"))
  {
    assert HasHash(db.codes, "c", h.token("code"));
    assert FindCode(db.codes, h.token("code")) == Some("c");
  }

  lemma PairedRun(h: Hashes)
    requires h.token("w") != h.token("r")
    ensures History(h, Pairing(h)) && After(h, Pairing(h)) == Paired(h)
    ensures LinesOf(h, Pairing(h)) == Lines(
      map[h.token("w") := [h.token("w")], h.token("r") := [h.token("r")]], map["j0" := [h.token("w")], "j1" := [h.token("r")]])
  {
    ApprovedRun(h);
    hide After, History, LinesOf, Run, Possible, Paired;
    var ops := Pairing(h);
    CodeExchanged(h, After(h, ops[..3]), ops[3]);
    OneMore(h, ops[..3], ops[3]);
    assert ops == ops[..3] + [ops[3]];
    assert [h.token("r")] == [] + [h.token("r")];
  }

  lemma SignedOut(h: Hashes)
    requires h.token("w") != h.token("r")
    ensures var db := Paired(h); var op := WebSignOutOp(Some("ada"), None, 0); var after := Run(h, db, op).db;
      && Possible(h, db, op) && after.devices == db.devices
      && LiveRefresh(db.refresh, h.token("r"), "d") && LiveAccess(db.access, "j1", "d")
      && (forall t :: !LiveRefresh(after.refresh, t, "d")) && (forall j :: !LiveAccess(after.access, j, "d"))
  {
  }

  /** One person, one computer: the website sign-out ends the computer's tokens too. */
  lemma WebSignOutReachesTheDesktop(h: Hashes)
    requires h.token("w") != h.token("r")
    ensures var ops := Pairing(h); var out := ops + [WebSignOutOp(Some("ada"), None, 0)];
      && History(h, out) && "d" in After(h, out).devices && After(h, out).devices["d"].revokedAt.None?
      && LiveRefresh(After(h, ops).refresh, h.token("r"), "d") && LiveAccess(After(h, ops).access, "j1", "d")
      && (forall t :: !LiveRefresh(After(h, out).refresh, t, "d")) && (forall j :: !LiveAccess(After(h, out).access, j, "d"))
  {
    hide After, History, LinesOf, Run, Possible, LiveRefresh, LiveAccess, Trace, Pairing;
    PairedRun(h);
    SignedOut(h);
    OneMore(h, Pairing(h), WebSignOutOp(Some("ada"), None, 0));
  }

  /** The rows of the computer and of the tokens the website gave for its own, live and descended from it. */
  ghost predicate TakenOver(h: Hashes, db: Db) {
    && "d" in db.devices && db.devices["d"].user == "ada"
    && h.token("r") in db.refresh && db.refresh[h.token("r")].device == Some("d")
    && h.token("x") in db.refresh && !db.refresh[h.token("x")].revoked && db.refresh[h.token("x")].device.None?
    && "j2" in db.access && !db.access["j2"].revoked && db.access["j2"].device.None?
  }

  lemma Rotated(h: Hashes, lines: Lines)
    requires h.token("w") != h.token("r") && h.token("x") !in {h.token("w"), h.token("r")}
    requires h.token("r") in lines.refresh && lines.refresh[h.token("r")] == [h.token("r")]
    ensures var db := Paired(h); var op := WebRotateOp("r", "x", "j2", 0);
      && Possible(h, db, op) && TakenOver(h, Run(h, db, op).db)
      && Trace(h, db, lines, op) ==
        Lines(lines.refresh[h.token("x") := [h.token("r"), h.token("x")]], lines.access["j2" := [h.token("r"), h.token("x")]])
  {
    assert [h.token("r")] + [h.token("x")] == [h.token("r"), h.token("x")];
  }

  lemma Removed(h: Hashes, db: Db, lines: Lines)
    requires TakenOver(h, db)
    ensures var op := RemoveDeviceOp("d", "ada", 0); var after := Run(h, db, op).db;
      && Possible(h, db, op) && TakenOver(h, after) && Ended(after.devices, "d") && Trace(h, db, lines, op) == lines
  {
  }

  /**
   The website takes over the computer's token, then Ada removes the computer: it is revoked, and a live
   refresh token and a live access token that descend from it remain.
   */
  lemma RemovedDeviceLivesOn(h: Hashes)
    requires h.token("w") != h.token("r") && h.token("x") !in {h.token("w"), h.token("r")}
    ensures var ops := Pairing(h) + [WebRotateOp("r", "x", "j2", 0)] + [RemoveDeviceOp("d", "ada", 0)];
      var db, lines := After(h, ops), LinesOf(h, ops);
      && History(h, ops) && Ended(db.devices, "d")
      && AliveRefresh(db, lines, "d", h.token("x")) && lines.refresh[h.token("x")] == [h.token("r"), h.token("x")]
      && AliveAccess(db, lines, "d", "j2")
  {
    hide After, History, LinesOf, Run, Possible, Trace, Pairing, Paired, Ended;
    var ops, rotate, remove := Pairing(h), WebRotateOp("r", "x", "j2", 0), RemoveDeviceOp("d", "ada", 0);
    PairedRun(h);
    Rotated(h, LinesOf(h, ops));
    OneMore(h, ops, rotate);
    Removed(h, After(h, ops + [rotate]), LinesOf(h, ops + [rotate]));
    OneMore(h, ops + [rotate], remove);
    assert h.token("r") in [h.token("r"), h.token("x")];
  }

  // ----- a computer lets a computer in -----

  /** Ada's computer asks for another, and lets it in with its own access token. */
  function PairingAgain(h: Hashes): seq<Op> {
    [CreateCodeOp("c2", h.s256("v"), "", INFO, 0), ApproveOp("c2", "ada", "j1", "code2", 0), ExchangeOp("code2", "v", "d2", "r2", "j2", 0)]
  }

  /** The tables once the second code waits. */
  function Asked(h: Hashes): Db {
    var row := CodeRow(Pending, h.s256("v"), None, "", INFO, None, None, CODE_TTL);
    Paired(h).(codes := Paired(h).codes["c2" := row])
  }

  function LetIn(h: Hashes): Db {
    var row := CodeRow(Approved, h.s256("v"), Some(h.token("code2")), "", INFO, Some("ada"), None, CODE_TTL);
    Paired(h).(codes := Paired(h).codes["c2" := row], pending := map["c2" := "code2"])
  }

  lemma SecondAsked(h: Hashes)
    ensures Possible(h, Paired(h), PairingAgain(h)[0]) && Run(h, Paired(h), PairingAgain(h)[0]).db == Asked(h)
  {
  }

  lemma SecondLetIn(h: Hashes)
    requires h.token("code") != h.token("code2")
    ensures var db, op := Asked(h), PairingAgain(h)[1];
      && Possible(h, db, op) && Run(h, db, op) == Outcome(LetIn(h), Approval("code2"))
      && db.access[op.session].device == Some("d")
  {
    assert forall id | HasHash(Asked(h).codes, id, h.token("code2")) :: id == "c" || id == "c2";
  }

  /** Both computers are there, each with a live token. */
  ghost predicate Both(h: Hashes, db: Db) {
    && "d" in db.devices && db.devices["d"].user == "ada"
    && "d2" in db.devices && db.devices["d2"].revokedAt.None? && LiveRefresh(db.refresh, h.token("r2"), "d2")
  }

  lemma SecondExchanged(h: Hashes)
    requires h.token("code") != h.token("code2") && h.token("r2") !in {h.token("w"), h.token("r")}
    ensures var db, op := LetIn(h), PairingAgain(h)[2];
      Possible(h, db, op) && Both(h, Run(h, db, op).db)
  {
    var db := LetIn(h);
    assert HasHash(db.codes, "c2", h.token("code2"));
    assert forall id | HasHash(db.codes, id, h.token("code2")) :: id == "c2";
    assert FindCode(db.codes, h.token("code2")) == Some("c2");
  }

  lemma FirstRemoved(h: Hashes, db: Db)
    requires Both(h, db)
    ensures var op := RemoveDeviceOp("d", "ada", 0); var after := Run(h, db, op).db;
      Possible(h, db, op) && Both(h, after) && Ended(after.devices, "d")
  {
  }

  /** Ada's computer lets a second one in; she removes the first, and the second is still signed in. */
  lemma LetInByAComputer(h: Hashes)
    requires h.token("w") != h.token("r") && h.token("r2") !in {h.token("w"), h.token("r")} && h.token("code") != h.token("code2")
    ensures var ops := Pairing(h) + PairingAgain(h)[..1];
      var out := ops + [PairingAgain(h)[1]] + [PairingAgain(h)[2]] + [RemoveDeviceOp("d", "ada", 0)];
      && Run(h, After(h, ops), PairingAgain(h)[1]).reply == Approval("code2")
      && After(h, ops).access[PairingAgain(h)[1].session].device == Some("d")
      && History(h, out) && Ended(After(h, out).devices, "d") && !Ended(After(h, out).devices, "d2")
      && LiveRefresh(After(h, out).refresh, h.token("r2"), "d2")
  {
    hide After, History, LinesOf, Run, Possible, Trace, Pairing, Paired, Asked, LetIn;
    var ops, again := Pairing(h), PairingAgain(h);
    PairedRun(h);
    SecondAsked(h);
    OneMore(h, ops, again[0]);
    assert ops + again[..1] == ops + [again[0]];
    SecondLetIn(h);
    OneMore(h, ops + [again[0]], again[1]);
    SecondExchanged(h);
    OneMore(h, ops + [again[0]] + [again[1]], again[2]);
    var both := ops + [again[0]] + [again[1]] + [again[2]];
    FirstRemoved(h, After(h, both));
    OneMore(h, both, RemoveDeviceOp("d", "ada", 0));
  }
}
