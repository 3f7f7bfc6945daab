/** Each disagreement between the code and its own words, at a concrete input. The lemmas that say
    exactly when each one happens stand in the modules they concern. */
module Examples {
  import opened Basics
  import opened Dominance
  import opened Patches
  import opened Ledgers
  import opened ChangeLogs
  import opened Agreement
  import opened ContactDeltas
  import opened UidSets
  import opened Stores
  import opened Upkeep
  import opened Runs
  import opened Splits
  import opened Views
  import opened Replay
  import StoreNumbers
  import opened Removals
  import opened Clients
  import opened Resyncs

  // ----- The delta -----

  function Touch(t: Touched): Diff {
    EMPTY_DIFF.(email := t)
  }

  /** Created, updated and destroyed in one window, the id is reported as updated. */
  lemma CancelledYetUpdated()
    ensures var hist := [Touch(Touched(["m"], [], [], [])), Touch(Touched([], ["m"], [], [])), Touch(Touched([], [], ["m"], ["a"]))];
            DeltaFrom(hist, 0, EmailKind, Destroyed) == Some(DeltaSet([], ["m"], []))
  {
    hide Gather, Fold, Touch, Ids;
    var a, b, c := Touch(Touched(["m"], [], [], [])), Touch(Touched([], ["m"], [], [])), Touch(Touched([], [], ["m"], ["a"]));
    assert Window([a, b, c], 0) == [a, b, c];
    ThreeGathered(a, b, c, Created);
    ThreeGathered(a, b, c, Updated);
    ThreeGathered(a, b, c, Destroyed);
    OfThese(a, b, c);
    FoldsAway("m");
  }

  lemma OfThese(a: Diff, b: Diff, c: Diff)
    requires a == Touch(Touched(["m"], [], [], [])) && b == Touch(Touched([], ["m"], [], [])) && c == Touch(Touched([], [], ["m"], ["a"]))
    ensures Ids(a.email, Created) + Ids(b.email, Created) + Ids(c.email, Created) == ["m"]
    ensures Ids(a.email, Updated) + Ids(b.email, Updated) + Ids(c.email, Updated) == ["m"]
    ensures Ids(a.email, Destroyed) + Ids(b.email, Destroyed) + Ids(c.email, Destroyed) == ["m"]
  {
  }

  lemma FoldsAway(x: Id)
    ensures Fold([x], [x], [x]) == DeltaSet([], [x], [])
  {
    var none: seq<Id> := [];
    assert none + [x] == [x];
    WithoutSnoc(none, x, Elems([x]));
    assert Without([x], Elems([x])) == none;
    WithoutNothing([x], Elems(none) + Elems(none));
    FirstSeenOfDistinct([x]);
  }

  lemma ThreeGathered(a: Diff, b: Diff, c: Diff, part: Part)
    ensures Gather([a, b, c], EmailKind, part) == Ids(a.email, part) + Ids(b.email, part) + Ids(c.email, part)
  {
    hide Ids;
    assert [a, b, c][..2] == [a, b] && [a, b][..1] == [a] && [a][..0] == [];
    assert Gather([a], EmailKind, part) == Ids(a.email, part);
  }

  /** On an account with folders "f" and "g", a contact of "f" that came and went: the account-wide
      walk reports nothing, the union of the folders' answers reports it as created. */
  lemma DeadContactReported()
    ensures var hist := [EMPTY_DIFF.(contact := Touched(["c"], [], [], [])), EMPTY_DIFF.(contact := Touched([], [], ["c"], ["f"]))];
            && ParentsAmong(Window(hist, 0), ["f", "g"]) && OneParentEach(Window(hist, 0), ["f", "g"])
            && "c" in AccountDelta(hist, 0, ["f", "g"]).value.created
            && "c" !in DeltaFrom(hist, 0, ContactKind, Destroyed).value.created
  {
    hide Appended, Gather, Fold;
    var born, died := EMPTY_DIFF.(contact := Touched(["c"], [], [], [])), EMPTY_DIFF.(contact := Touched([], [], ["c"], ["f"]));
    var hist := [born, died];
    assert Window(hist, 0) == hist;
    forall id
      ensures ContactDeltas.DestroyedIn(hist, "f", id) <==> id == "c"
      ensures !ContactDeltas.DestroyedIn(hist, "g", id)
      ensures id in Gather(hist, ContactKind, Created) <==> id == "c"
      ensures id in Gather(hist, ContactKind, Destroyed) <==> id == "c"
    {
      BornAndDied(born, died, id);
    }
    UnionMembers(hist, ["f", "g"], "c");
    FoldSets(Gather(hist, ContactKind, Created), Gather(hist, ContactKind, Updated), Gather(hist, ContactKind, Destroyed));
    assert "c" !in Elems(DeltaFrom(hist, 0, ContactKind, Destroyed).value.created);
  }

  lemma BornAndDied(born: Diff, died: Diff, id: Id)
    requires born == EMPTY_DIFF.(contact := Touched(["c"], [], [], []))
    requires died == EMPTY_DIFF.(contact := Touched([], [], ["c"], ["f"]))
    ensures Gather([born, died], ContactKind, DestroyedUnder("f")) == ["c"]
    ensures Gather([born, died], ContactKind, DestroyedUnder("g")) == []
    ensures Gather([born, died], ContactKind, Created) == ["c"]
    ensures Gather([born, died], ContactKind, Destroyed) == ["c"]
  {
    TwoGathered(born, died, DestroyedUnder("f"));
    TwoGathered(born, died, DestroyedUnder("g"));
    TwoGathered(born, died, Created);
    TwoGathered(born, died, Destroyed);
    assert ["c"][..0] == [] && ["f"][..0] == [];
    assert Under(["c"], ["f"], "f") == ["c"] && Under(["c"], ["f"], "g") == [];
  }

  lemma TwoGathered(a: Diff, b: Diff, part: Part)
    ensures Gather([a, b], ContactKind, part) == Ids(a.contact, part) + Ids(b.contact, part)
  {
    hide Ids;
    assert [a, b][..1] == [a] && [a][..0] == [];
    assert Gather([a], ContactKind, part) == Ids(a.contact, part);
  }

  // ----- The ledger -----

  const A := Mailbox("mA", "a", "A", false, None)
  const B := Mailbox("mB", "a", "B", false, None)

  /** Loaded: one message in two mailboxes. */
  const BOTH := Store("a", [A, B], [], [], {}, [Email("x", "a", ["mA", "mB"], [], 0)],
                      map["mA" := [Some("x")], "mB" := [Some("x")]], 1)

  /** The same store after `UID MOVE 1` from the first to the second. */
  const TWICE := BOTH.(emails := [Email("x", "a", ["mB"], [], 0)], ledger := map["mA" := [None], "mB" := [Some("x"), Some("x")]])

  lemma OneEmailKept(st: Store, e: Email)
    requires st.emails == [e] && e.id == "x" && e.mailboxIds != []
    ensures Kept(st) && (forall id :: Lookup(st.emails, id) == if id == "x" then Some(e) else None)
  {
    hide MintId;
    forall n: nat
      ensures MintId(n) != "x"
    {
      MintIsLong(n);
    }
  }

  lemma MovedTwice()
    ensures Exec(BOTH, UidMove("mA", [Single(1)], Some("mB"))).st == TWICE
  {
    hide Do, Matched, Moves;
    var only: UidSet := [Single(1)];
    assert SlotsOf(BOTH.ledger, "mA") == [Some("x")];
    OneMatched(BOTH, "mA", only);
    MovesOfMatched(BOTH, "mA", only, "mB");
    var w := Work(BOTH, UNTOUCHED);
    MovesSnoc(w, [Seen(1, "x")], "mA", "mB");
    assert [Seen(1, "x")][..0] == [];
    NoMoves(w, "mA", "mB");
    MovedOnce(w);
  }

  lemma OneMatched(st: Store, m: Id, only: UidSet)
    requires only == [Single(1)] && SlotsOf(st.ledger, m) == [Some("x")]
    ensures Matched(st, m, only) == [Seen(1, "x")]
  {
    hide Live;
    OneLive();
    assert Matches(only, 1) by {
      assert Covers(only[0], 1);
    }
    var seen := [Seen(1, "x")];
    assert seen[..0] == [];
    assert Selected(seen[..0], only) == [];
  }

  lemma MovedOnce(w: Work)
    requires w == Work(BOTH, UNTOUCHED)
    ensures Do(w, Move("x", "mA", "mB")).st == TWICE
  {
    hide Without, Retire, Assign;
    MovedMembership();
    MovedLedger();
    assert BOTH.emails[0].id == "x" && IndexOf(BOTH.emails, "x") == 0;
    assert BOTH.emails[0 := TWICE.emails[0]] == TWICE.emails;
  }

  lemma MovedMembership()
    ensures Without(Include(["mA", "mB"], "mB"), {"mA"}) == ["mB"]
  {
    hide Without;
    var ms: seq<Id> := ["mA", "mB"];
    var a: seq<Id> := ["mA"];
    var none: seq<Id> := [];
    assert ms == a + ["mB"] && none + ["mA"] == a && none + ["mB"] == ["mB"] && "mA"[1] != "mB"[1];
    WithoutSnoc(a, "mB", {"mA"});
    WithoutSnoc(none, "mA", {"mA"});
    WithoutNothing(none, {"mA"});
  }

  lemma MovedLedger()
    ensures Retire(Assign(BOTH.ledger, "mB", "x"), "mA", "x") == TWICE.ledger
  {
    hide RetireSlot;
    RetiredOne();
    var one: Slots := [Some("x")];
    assert one + one == [Some("x"), Some("x")] && "mA"[1] != "mB"[1];
    assert SlotsOf(BOTH.ledger, "mB") == one;
    assert Assign(BOTH.ledger, "mB", "x") == map["mA" := [Some("x")], "mB" := [Some("x"), Some("x")]];
  }

  lemma RetiredOne()
    ensures RetireSlot([Some("x")], "x") == [None]
    ensures RetireSlot([Some("x"), Some("x")], "x") == [None, Some("x")]
  {
    var two: Slots := [Some("x"), Some("x")];
    assert two[0 := None] == [None, Some("x")];
  }

  lemma OneLive()
    ensures Live([Some("x")]) == [Seen(1, "x")]
  {
    var slots: Slots := [Some("x")];
    assert slots[..0] == [];
  }

  lemma OneLoaded(e: Email)
    requires e.id == "x"
    ensures LoadLedger([e]) == AssignAll(map[], e.mailboxIds, e.id)
    ensures MaxMockSeq(EmailIds([e])) == 0
  {
    assert [e][..0] == [];
    assert LoadLedger([e][..0]) == map[];
    assert EmailIds([e]) == ["x"] && ["x"][1..] == [];
  }

  lemma BothLoaded()
    ensures JustLoaded(BOTH)
  {
    hide LoadLedger, MaxMockSeq, EmailIds;
    var e := BOTH.emails[0];
    assert BOTH.emails == [e];
    OneLoaded(e);
    var ms: seq<Id> := ["mA", "mB"];
    assert ms[..1] == ["mA"] && ms[..1][..0] == [];
    var none: Slots := [];
    assert none + [Some("x")] == [Some("x")] && "mA"[1] != "mB"[1];
    assert AssignAll(map[], ms[..1], "x") == map["mA" := [Some("x")]];
    assert AssignAll(map[], ms, "x") == BOTH.ledger;
  }

  /** MOVE into a mailbox that already holds the message gives it a second live UID there. */
  lemma MoveDoubles()
    ensures JustLoaded(BOTH) && Kept(BOTH) && LedgerOk(BOTH)
    ensures var after := Exec(BOTH, UidMove("mA", [Single(1)], Some("mB"))).st;
            after == TWICE && Count(after.ledger, "mB", "x") == 2 && !LedgerOk(after)
  {
    MovedTwice();
    OneEmailKept(BOTH, BOTH.emails[0]);
    BothLoaded();
    forall m, id
      ensures Count(BOTH.ledger, m, id) == if Lists(BOTH.emails, id, m) then 1 else 0
    {
    }
    assert Count(TWICE.ledger, "mB", "x") == 2;
  }

  /** A declaration that names a mailbox twice loads, and gives the message two live UIDs. */
  lemma LoadDoubles()
    ensures var es := [Email("x", "a", ["mB", "mB"], [], 0)];
            var st := TWICE.(emails := es, ledger := LoadLedger(es));
            JustLoaded(st) && Kept(st) && Count(st.ledger, "mB", "x") == 2 && !LedgerOk(st)
  {
    hide Kept, Count, LoadLedger;
    var e := Email("x", "a", ["mB", "mB"], [], 0);
    var st := TWICE.(emails := [e], ledger := LoadLedger([e]));
    OneEmailKept(st, e);
    OneLoaded(e);
    NoSlots("mB", "x");
    CountAssignAllAny(map[], e.mailboxIds, "x", "mB", "x");
    assert e.mailboxIds == ["mB"] + ["mB"];
    assert !Distinct(st.emails[0].mailboxIds) by {
      assert e.mailboxIds[0] == e.mailboxIds[1];
    }
  }

  lemma NoSlots(m: Id, id: Id)
    ensures Count(map[], m, id) == 0
  {
  }

  /** Destroying that message retires one of its slots and leaves the other naming nothing, so a client
      that was shown both UIDs is never told that the second is gone. */
  lemma SlotOutlivesEmail()
    ensures Kept(TWICE) && Shown(TWICE, "a", "mB", 2)
    ensures !NothingStale(TWICE, Exec(TWICE, EmailSet([], [], ["x"])).st, "a", "mB")
  {
    hide MintId;
    var e := TWICE.emails[0];
    OneEmailKept(TWICE, e);
    var c := EmailSet([], [], ["x"]);
    DestroyedOnce(c);
    assert StaleAt(Exec(TWICE, c).st, "mB", 2);
  }

  lemma DestroyedOnce(c: Command)
    requires c == EmailSet([], [], ["x"])
    ensures var st := Exec(TWICE, c).st; st.emails == [] && SlotsOf(st.ledger, "mB") == [None, Some("x")]
  {
    hide Do, DoAll, Exec, Retire;
    var v := Work(TWICE, UNTOUCHED);
    EmailSetPhases(TWICE, c);
    NoCreates(v);
    NoUpdates(v);
    BatchOfX(v);
    RetiredB();
  }

  lemma BatchOfX(v: Work)
    requires v == Work(TWICE, UNTOUCHED)
    ensures Do(v, DestroyBatch(["x"])).st == TWICE.(emails := [], ledger := Retire(TWICE.ledger, "mB", "x"))
  {
    hide Retire, EmailsWithout, DestroyEach;
    var e := TWICE.emails[0];
    assert TWICE.emails == [e];
    OneGone(v.(st := TWICE.(emails := [])), e);
  }

  lemma RetiredB()
    ensures SlotsOf(Retire(TWICE.ledger, "mB", "x"), "mB") == [None, Some("x")]
  {
    hide RetireSlot;
    RetiredOne();
  }

  lemma OneGone(w: Work, e: Email)
    requires e == TWICE.emails[0]
    ensures EmailsWithout([e], Elems(["x"])) == []
    ensures DestroyEach(w, [e], ["x"]).st == w.st.(ledger := Retire(w.st.ledger, "mB", "x"))
  {
    hide MintId, Retire;
    OneEmailKept(TWICE, e);
    assert [e][..0] == [] && ["x"][..0] == [] && ["mB"][..0] == [];
    assert "x" in ["x"];
    assert RetireAll(w.st.ledger, ["mB"], "x") == Retire(w.st.ledger, "mB", "x");
  }

  // ----- Routing -----

  const SECOND := Store("first", [Mailbox("m2", "second", "Inbox", true, None)], [], [], {}, [], map[], 0)

  const IN_M2 := Obj([Field("mailboxIds", Obj([Field("m2", Bool(true))]))])

  lemma OrphanBuilt()
    ensures Newcomers(SECOND, [IN_M2]) == [Email(MintId(1), "second", ["m2"], [], EPOCH)]
    ensures WellFormed(IN_M2)
  {
    hide MintId;
    var member := Field("m2", Bool(true));
    assert [member][..0] == [];
    assert BoolSet([member]) == ["m2"];
    assert KnownMailbox(SECOND.mailboxes, "m2") by {
      assert SECOND.mailboxes[0].id == "m2";
    }
    assert [IN_M2][..0] == [];
    assert SECOND.emails + [] == [];
    var built := BuildFromCreate(SECOND.(emails := SECOND.emails + [], emailSeq := SECOND.emailSeq + 0), IN_M2);
    assert Newcomers(SECOND, [IN_M2][..0]) == [];
    assert Newcomers(SECOND, [IN_M2]) == [] + [built.email];
  }

  /** One call that creates and destroys an email of account "second": the creation is recorded for
      account "first", whose clients then hold an email that does not exist, and the tombstone goes
      to "second", whose clients never heard of it. */
  lemma OrphanMisroutes()
    ensures var c := EmailSet([IN_M2], [], [MintId(1)]);
            && Kept(SECOND) && ProperCommand(c) && !OrphanFree(SECOND, c)
            && !ReplaysAt(SECOND, Exec(SECOND, c), "first", MintId(1))
            && MintId(1) in Share(Exec(SECOND, c), "second").destroyed
  {
    hide MintId, Newcomers, Exec, Books, Share, Kept, ProperCommand, DoAll;
    var c := EmailSet([IN_M2], [], [MintId(1)]);
    var w := Exec(SECOND, c);
    OrphanBuilt();
    EmptyKept(SECOND);
    OrphanProper(c);
    EmailSetPhases(SECOND, c);
    CreatesBuildNewcomers(SECOND, c.creates);
    var w1 := DoAll(Work(SECOND, UNTOUCHED), CreateEdits(c.creates));
    NoUpdates(w1);
    var e := Email(MintId(1), "second", ["m2"], [], EPOCH);
    assert w1.st.emails == [] + [e] == [e];
    BatchFacts(w1, c.destroys);
    assert Lookup([e], MintId(1)) == Some(e);
    assert w.log.destroyed != [] && w.log.destroyed[0] == MintId(1);
    assert w.log.created[0] == MintId(1);
    ExecBooks(SECOND, c);
    ExecKept(SECOND, c);
    ExecFrame(SECOND, c);
    KeptUnique(w.st);
    KeptBound(SECOND);
    OrphanMisleads(SECOND, w, 0);
    ShareDestroyed(w, "second", MintId(1));
    assert Newcomers(SECOND, c.creates)[0].id in c.destroys;
  }

  lemma NoUpdates(w: Work)
    ensures DoAll(w, UpdateEdits([])) == w
  {
  }

  lemma EmptyKept(st: Store)
    requires st.emails == []
    ensures Kept(st)
  {
  }

  lemma OrphanProper(c: Command)
    requires c == EmailSet([IN_M2], [], [MintId(1)])
    ensures ProperCommand(c)
  {
    hide MintId;
    OrphanBuilt();
  }

  // ----- The seed after an eviction -----

  const X := Email("x", "a", ["mB"], [], 0)
  const Y := Email("y", "a", ["mB"], [], 0)

  const PAIR := Store("a", [B], [], [], {}, [X, Y], map["mB" := [Some("x"), Some("y")]], 2)

  const DROP_X := EmailSet([], [], ["x"])

  /** An empty patch is accepted and recorded. */
  const TOUCH_Y := EmailSet([], [Update("y", Obj([]))], [])

  /** Destroy "x", then touch "y" k times. */
  function Later(k: nat): seq<Command> {
    [DROP_X] + seq(k, i requires 0 <= i < k => TOUCH_Y)
  }

  lemma TwoLoaded(e: Email, f: Email)
    requires e.id == "x" && f.id == "y" && e.mailboxIds != [] && f.mailboxIds != []
    ensures LoadLedger([e, f]) == AssignAll(AssignAll(map[], e.mailboxIds, "x"), f.mailboxIds, "y")
    ensures MaxMockSeq(EmailIds([e, f])) == 0 && UniqueIds([e, f]) && Placed([e, f])
  {
    hide AssignAll;
    var both := [e, f];
    assert both[..1] == [e];
    OneLoaded(e);
    var ids := EmailIds(both);
    assert ids == ["x", "y"] && ids[1..] == ["y"] && ids[1..][1..] == [];
    assert "x"[0] != "y"[0] && both[0].id == "x" && both[1].id == "y";
  }

  lemma JustOne(l: Ledger, m: Id, id: Id)
    ensures AssignAll(l, [m], id) == Assign(l, m, id)
  {
    assert [m][..0] == [];
  }

  lemma PairLoaded()
    ensures JustLoaded(PAIR)
  {
    hide LoadLedger, MaxMockSeq, EmailIds, AssignAll;
    TwoLoaded(X, Y);
    JustOne(map[], "mB", "x");
    JustOne(Assign(map[], "mB", "x"), "mB", "y");
    var none: Slots := [];
    assert none + [Some("x")] == [Some("x")];
    assert [Some("x")] + [Some("y")] == [Some("x"), Some("y")];
    assert PAIR.ledger == Assign(Assign(map[], "mB", "x"), "mB", "y");
  }

  lemma PairKept()
    ensures Kept(PAIR) && Lookup(PAIR.emails, "x") == Some(X) && Lookup(PAIR.emails, "y") == Some(Y)
  {
    hide MintId;
    assert PAIR.emails[0].id == "x" && PAIR.emails[1].id == "y";
    forall n: nat
      ensures Lookup(PAIR.emails, MintId(n)) == None
    {
      MintIsLong(n);
    }
  }

  lemma DropX()
    ensures var w := Exec(PAIR, DROP_X);
            w.st.emails == [Y] && w.log == UNTOUCHED.(destroyed := ["x"], sidecar := ["a"])
  {
    hide MintId, Lookup, DoAll, Do, RetireAll;
    PairKept();
    EmailSetPhases(PAIR, DROP_X);
    var w := Work(PAIR, UNTOUCHED);
    NoCreates(w);
    NoUpdates(w);
    XGone(w);
  }

  lemma XGone(w: Work)
    requires w == Work(PAIR, UNTOUCHED)
    ensures var v := Do(w, DestroyBatch(["x"]));
            v.st.emails == [Y] && v.log == UNTOUCHED.(destroyed := ["x"], sidecar := ["a"])
  {
    hide MintId, Lookup, RetireAll;
    PairKept();
    var es := PAIR.emails;
    assert es[..1] == [X] && es[..1][..0] == [] && ["x"][..0] == [];
    assert "x" in Elems(["x"]) && "y" !in Elems(["x"]);
    assert EmailsWithout(es[..1], Elems(["x"])) == [];
    assert EmailsWithout(es, Elems(["x"])) == [Y];
    var none: seq<Id> := [];
    assert none + ["x"] == ["x"] && none + ["a"] == ["a"];
    var u := w.(st := PAIR.(emails := [Y]));
    assert DestroyEach(u, es, ["x"][..0]) == u;
  }

  lemma NoCreates(w: Work)
    ensures DoAll(w, CreateEdits([])) == w
  {
  }

  lemma TouchY(st: Store)
    requires st.emails == [Y]
    ensures var w := Exec(st, TOUCH_Y);
            w.st.emails == [Y] && w.log == UNTOUCHED.(updated := ["y"])
  {
    hide Do, Sync;
    EmailSetPhases(st, TOUCH_Y);
    var w := Work(st, UNTOUCHED);
    NoCreates(w);
    var edits := UpdateEdits(TOUCH_Y.updates);
    assert edits == [Patch("y", Obj([]))] && edits[..0] == [];
    assert DoAll(w, edits[..0]) == w;
    assert DoAll(w, edits) == Do(w, edits[0]);
    PatchedY(w);
    NothingDropped(Do(w, Patch("y", Obj([]))));
  }

  lemma PatchedY(w: Work)
    requires w.st.emails == [Y] && w.log == UNTOUCHED
    ensures var v := Do(w, Patch("y", Obj([])));
            v.st.emails == [Y] && v.log == UNTOUCHED.(updated := ["y"])
  {
    hide Sync;
    assert w.st.emails[0].id == "y";
    assert IndexOf(w.st.emails, "y") == 0;
    assert Patched(Y.keywords, Y.mailboxIds, Obj([])) == Some(Sets(Y.keywords, Y.mailboxIds, false));
    assert w.st.emails[0 := Y] == [Y];
  }

  lemma NothingDropped(w: Work)
    requires w.st.emails == [Y]
    ensures var v := Do(w, DestroyBatch([])); v.st.emails == [Y] && v.log == w.log
  {
    var none: seq<Id> := [];
    assert [Y][..0] == [];
    assert Y.id !in Elems(none);
    assert EmailsWithout([Y], Elems(none)) == [Y];
  }

  /** What account "a" records of each of them. */
  lemma RecordsOf(w: Work)
    requires w.st.emails == [Y]
    ensures var sub := Sub(DirectoryOf(w.st), EmailDiff(w.log), "a");
            && (w.log == UNTOUCHED.(destroyed := ["x"], sidecar := ["a"]) ==> !IsEmpty(sub) && sub.email.destroyed == ["x"])
            && (w.log == UNTOUCHED.(updated := ["y"]) ==> !IsEmpty(sub) && sub.email.destroyed == [])
  {
    hide Owned, OwnedTombs, Tombs, DirectoryOf, Concerning;
    var dir := DirectoryOf(w.st);
    OwnsY(w.st);
    OwnedY(dir);
    TombOfX(dir);
  }

  lemma OwnsY(st: Store)
    requires st.emails == [Y]
    ensures Owner(DirectoryOf(st), EmailKind, "y") == "a"
  {
    assert st.emails[0].id == "y" && st.emails[0].account == "a";
    assert st.emails[..0] == [] && EmailOwners(st.emails[..0]) == map[];
  }

  lemma OwnedY(dir: Directory)
    requires Owner(dir, EmailKind, "y") == "a"
    ensures Owned(dir, EmailKind, ["y"], "a") == ["y"]
  {
    hide Owner;
    assert ["y"][..0] == [];
  }

  lemma TombOfX(dir: Directory)
    ensures TombIds(OwnedTombs(dir, EmailKind, Tombs(["x"], ["a"]), "a")) == ["x"]
    ensures TombIds(OwnedTombs(dir, EmailKind, Tombs([], []), "a")) == []
  {
    var t := Tomb("x", "a");
    assert Tombs(["x"], ["a"]) == [t] && Tombs([], []) == [];
    assert [t][..0] == [] && OwnedTombs(dir, EmailKind, [t], "a") == [t];
  }

  ghost predicate Forgetful(hist: seq<Diff>, k: nat) {
    && |hist| == k + 1
    && hist[0].email.destroyed == ["x"]
    && forall i :: 1 <= i < |hist| ==> hist[i].email.destroyed == []
  }

  lemma {:induction false} LaterRuns(k: nat)
    ensures var t := RunServer(Server(PAIR, map[]), Later(k));
            t.st.emails == [Y] && t.st.emailSeq == 2 && Forgetful(HistOf(t.hists, "a"), k)
  {
    hide Exec, Sub, HistOf, Recorded, DirectoryOf, IsEmpty;
    var s := Server(PAIR, map[]);
    var cs := Later(k);
    var mid := RunServer(s, cs[..k]);
    assert RunServer(s, cs) == Step(mid, cs[k]);
    if k == 0 {
      assert cs[..0] == [] && cs[0] == DROP_X;
      DropX();
      EmptyHist();
    } else {
      assert cs[..k] == Later(k - 1) && cs[k] == TOUCH_Y;
      LaterRuns(k - 1);
      TouchY(mid.st);
    }
    SeqStays(mid.st, cs[k]);
    RecordsOf(Exec(mid.st, cs[k]));
    StepHistory(mid, cs[k], "a");
  }

  lemma EmptyHist()
    ensures HistOf(map[], "a") == []
  {
  }

  /** A call without creates mints nothing. */
  lemma SeqStays(st: Store, c: Command)
    requires c == DROP_X || c == TOUCH_Y
    ensures Exec(st, c).st.emailSeq == st.emailSeq
  {
    hide DestroyEach, EmailsWithout, IndexOf, Patched, Sync;
    EmailSetPhases(st, c);
    var w := Work(st, UNTOUCHED);
    NoCreates(w);
    var edits := UpdateEdits(c.updates);
    if c == DROP_X {
      NoUpdates(w);
    } else {
      assert edits == [Patch("y", Obj([]))] && edits[..0] == [];
      assert DoAll(w, edits[..0]) == w;
      assert DoAll(w, edits) == Do(w, edits[0]);
    }
    var v := DoAll(w, edits);
    DestroyEachStore(v.(st := v.st.(emails := EmailsWithout(v.st.emails, Elems(c.destroys)))), v.st.emails, c.destroys);
  }

  /** "x" is destroyed, 256 changes to "y" follow, and the ring has let the tombstone go. The seed
      still resolves, and a client that replays its delta keeps "x". */
  lemma SeedForgets()
    ensures var s, cs := Server(PAIR, map[]), Later(MAX_TRANSITIONS);
            var t := RunServer(s, cs);
            var delta := DeltaFrom(HistOf(t.hists, "a"), 0, EmailKind, Destroyed);
            && JustLoaded(PAIR) && Kept(PAIR) && ProperRun(cs) && NoOrphans(s, cs) && delta.Some?
            && LiveIds(t.st, "a") != (LiveIds(PAIR, "a") + Elems(delta.value.created)) - Elems(delta.value.destroyed)
  {
    hide RunServer, HistOf, Gather, Lookup, FoldWindow, LiveIds, Kept, Later, ProperRun, NoOrphans, JustLoaded, LivesIn, NothingLasting, Forgetful, ChangeLogs.Window;
    var s, cs := Server(PAIR, map[]), Later(MAX_TRANSITIONS);
    PairKept();
    PairLoaded();
    LaterFair(s, cs);
    LaterRuns(MAX_TRANSITIONS);
    var hist := HistOf(RunServer(s, cs).hists, "a");
    EmptyHist();
    Forgotten(hist);
    SeedReplayIff(s, cs, "a");
  }

  lemma Forgotten(hist: seq<Diff>)
    requires Forgetful(hist, MAX_TRANSITIONS)
    ensures First(hist) == 1
    ensures !NothingLasting(PAIR, "a", hist[..1], hist[1..])
  {
    hide Gather, Lookup;
    PairKept();
    GatherMember(hist[..1], EmailKind, Destroyed, "x");
    assert "x" in Ids(Pick(hist[..1][0], EmailKind), Destroyed);
    GatherMember(hist[1..], EmailKind, Destroyed, "x");
    assert forall i :: 0 <= i < |hist[1..]| ==> hist[1..][i] == hist[i + 1];
    assert !NoTrace(PAIR, "a", hist[..1], hist[1..], "x");
  }

  lemma LaterFair(s: Server, cs: seq<Command>)
    requires cs == Later(MAX_TRANSITIONS)
    ensures ProperRun(cs) && NoOrphans(s, cs)
  {
    hide RunServer;
    forall i | 0 <= i < |cs|
      ensures ProperCommand(cs[i]) && OrphanFree(RunServer(s, cs[..i]).st, cs[i])
    {
      assert cs[i] == DROP_X || cs[i] == TOUCH_Y;
      assert cs[i].creates == [];
    }
  }

  // ----- A hidden message in the way -----

  const HERS := Email("x", "a", ["mA", "mB"], [], 0)
  const MINE := Email("y", "b", ["mC", "mB"], ["$deleted"], 0)

  /** Loaded: account "a" with a message in its mailbox "mA", account "b" with one in "mC". */
  const APART := Store("a", [A, Mailbox("mB", "b", "B", false, None), Mailbox("mC", "b", "C", false, None)], [], [], {},
                       [HERS.(mailboxIds := ["mA"]), MINE.(mailboxIds := ["mC"])], map["mA" := [Some("x")], "mC" := [Some("y")]], 2)

  /** The patch that adds the mailbox "mB" of account "b". */
  const JOIN_B := Obj([Field("mailboxIds/mB", Bool(true))])

  /** Both messages join "mB", the other account's first; nothing checks the account. */
  const JOINS := [EmailSet([], [Update("x", JOIN_B)], []), EmailSet([], [Update("y", JOIN_B)], [])]

  const SHARED := APART.(emails := [HERS, MINE], ledger := map["mA" := [Some("x")], "mC" := [Some("y")], "mB" := [Some("x"), Some("y")]])

  lemma JoinsPatch(keywords: seq<string>, ms: seq<Id>)
    requires "mB" !in ms
    ensures Patched(keywords, ms, JOIN_B) == Some(Sets(keywords, ms + ["mB"], true))
  {
    var f := Field("mailboxIds/mB", Bool(true));
    assert "mailboxIds/mB"[..11] == "mailboxIds/" && "mailboxIds/mB"[11..] == "mB" && "mailboxIds/mB"[0] != "keywords"[0];
    assert Classify(f.key) == Member(Mailboxes, "mB");
    assert [f][..0] == [];
    assert FoldFields(Sets(keywords, ms, false), [f]) == ApplyField(Sets(keywords, ms, false), f);
  }

  lemma JoinsSync(l: Ledger, id: Id, ms: seq<Id>)
    requires "mB" !in ms
    ensures Sync(l, id, ms, ms + ["mB"]) == Assign(l, "mB", id)
  {
    var after := ms + ["mB"];
    NoneLeft(ms, Elems(after));
    WithoutSnoc(ms, "mB", Elems(ms));
    NoneLeft(ms, Elems(ms));
    var none: seq<Id> := [];
    assert none + ["mB"] == ["mB"];
    JustOne(l, "mB", id);
  }

  lemma {:induction false} NoneLeft(ms: seq<Id>, drop: set<Id>)
    requires forall m :: m in ms ==> m in drop
    ensures Without(ms, drop) == []
  {
    if ms != [] {
      NoneLeft(ms[..|ms| - 1], drop);
    }
  }

  /** One `Email/set` that lets an email join "mB". */
  lemma JoinsB(st: Store, i: nat)
    requires UniqueIds(st.emails) && i < |st.emails| && "mB" !in st.emails[i].mailboxIds
    ensures var e := st.emails[i];
            Exec(st, EmailSet([], [Update(e.id, JOIN_B)], [])).st ==
            st.(emails := st.emails[i := e.(mailboxIds := e.mailboxIds + ["mB"])], ledger := Assign(st.ledger, "mB", e.id))
  {
    hide Do, Sync, Patched, Assign;
    var e, w := st.emails[i], Work(st, UNTOUCHED);
    var c := EmailSet([], [Update(e.id, JOIN_B)], []);
    EmailSetPhases(st, c);
    NoCreates(w);
    var edits := UpdateEdits(c.updates);
    assert edits == [Patch(e.id, JOIN_B)] && edits[..0] == [];
    assert DoAll(w, edits[..0]) == w;
    assert DoAll(w, edits) == Do(w, edits[0]);
    JoinsDone(w, i);
    NothingBatched(Do(w, edits[0]));
  }

  lemma JoinsDone(w: Work, i: nat)
    requires UniqueIds(w.st.emails) && i < |w.st.emails| && "mB" !in w.st.emails[i].mailboxIds
    ensures var e := w.st.emails[i];
            Do(w, Patch(e.id, JOIN_B)).st ==
            w.st.(emails := w.st.emails[i := e.(mailboxIds := e.mailboxIds + ["mB"])], ledger := Assign(w.st.ledger, "mB", e.id))
  {
    hide Sync, Patched, Assign;
    var e := w.st.emails[i];
    assert IndexOf(w.st.emails, e.id) == i;
    JoinsPatch(e.keywords, e.mailboxIds);
    JoinsSync(w.st.ledger, e.id, e.mailboxIds);
  }

  lemma NothingBatched(w: Work)
    ensures Do(w, DestroyBatch([])).st == w.st
  {
    StoreNumbers.NothingDropped(w.st.emails);
    var none: seq<Id> := [];
    assert Elems(none) == {};
  }

  /** Two ordinary commands take the load there. */
  lemma SharedIsReached()
    ensures JustLoaded(APART) && ProperRun(JOINS) && RunStore(APART, JOINS) == SHARED
  {
    hide Exec, Assign, LoadLedger, AssignAll, MaxMockSeq, EmailIds;
    ApartLoaded();
    var x, y := APART.emails[0], APART.emails[1];
    assert x.mailboxIds == ["mA"] && y.mailboxIds == ["mC"] && "mA"[1] != "mB"[1] && "mC"[1] != "mB"[1];
    JoinsB(APART, 0);
    var mid := Exec(APART, JOINS[0]).st;
    assert x.mailboxIds + ["mB"] == HERS.mailboxIds && y.mailboxIds + ["mB"] == MINE.mailboxIds;
    assert mid.emails == [HERS, y];
    assert "x"[0] != "y"[0] && HERS.id == "x" && y.id == "y";
    assert mid.emails[0].id == "x" && mid.emails[1].id == "y";
    JoinsB(mid, 1);
    assert JOINS[..1] == [JOINS[0]] && JOINS[..1][..0] == [];
    assert RunStore(APART, JOINS[..1][..0]) == APART;
    assert RunStore(APART, JOINS[..1]) == mid;
    assert [HERS, y][1 := MINE] == [HERS, MINE];
    SharedLedger();
  }

  lemma ApartLoaded()
    ensures JustLoaded(APART)
  {
    hide LoadLedger, MaxMockSeq, EmailIds, AssignAll;
    var x, y := APART.emails[0], APART.emails[1];
    assert APART.emails == [x, y];
    TwoLoaded(x, y);
    JustOne(map[], "mA", "x");
    JustOne(Assign(map[], "mA", "x"), "mC", "y");
    var none: Slots := [];
    assert none + [Some("x")] == [Some("x")] && none + [Some("y")] == [Some("y")] && "mA"[1] != "mC"[1];
    assert APART.ledger == Assign(Assign(map[], "mA", "x"), "mC", "y");
  }

  lemma SharedLedger()
    ensures Assign(Assign(APART.ledger, "mB", "x"), "mB", "y") == SHARED.ledger
  {
    var none: Slots := [];
    assert "mA"[1] != "mB"[1] && "mC"[1] != "mB"[1];
    assert none + [Some("x")] == [Some("x")];
    assert [Some("x")] + [Some("y")] == [Some("x"), Some("y")];
  }

  lemma SharedKept()
    ensures Kept(SHARED) && LedgerOk(SHARED)
    ensures Lookup(SHARED.emails, "x") == Some(HERS) && Lookup(SHARED.emails, "y") == Some(MINE)
  {
    hide MintId, Count, Lists, Lookup;
    var es := SHARED.emails;
    assert es[0].id == "x" && es[1].id == "y" && "x"[0] != "y"[0];
    LookupAt(es, 0);
    LookupAt(es, 1);
    forall n: nat
      ensures Lookup(es, MintId(n)) == None
    {
      MintIsLong(n);
      NeitherListed(MintId(n));
    }
    forall m, id
      ensures Count(SHARED.ledger, m, id) == if Lists(es, id, m) then 1 else 0
    {
      if id != "x" && id != "y" {
        NeitherListed(id);
      }
      SharedCounts(m, id);
    }
    SharedDistinct();
  }

  lemma MintIsLong(n: nat)
    ensures MintId(n) != "x" && MintId(n) != "y"
  {
  }

  lemma NeitherListed(id: Id)
    requires id != "x" && id != "y"
    ensures Lookup(SHARED.emails, id) == None
  {
  }

  lemma SharedDistinct()
    ensures NoRepeats(SHARED.emails)
  {
    assert "mA"[1] != "mB"[1] && "mC"[1] != "mB"[1];
  }

  lemma SharedCounts(m: Id, id: Id)
    requires Lookup(SHARED.emails, id) == if id == "x" then Some(HERS) else if id == "y" then Some(MINE) else None
    ensures Count(SHARED.ledger, m, id) == if Lists(SHARED.emails, id, m) then 1 else 0
  {
    hide Lookup;
    assert [Some("x"), Some("y")] == [Some("x")] + [Some("y")];
    assert "mA"[1] != "mB"[1] && "mC"[1] != "mB"[1] && "mA"[1] != "mC"[1];
  }

  lemma SharedView()
    ensures Live(SlotsOf(SHARED.ledger, "mB")) == [Seen(1, "x"), Seen(2, "y")]
    ensures View(SHARED, "b", "mB") == [Seen(2, "y")]
  {
    hide Lookup, Live, Visible, IsVisible;
    SharedKept();
    assert SlotsOf(SHARED.ledger, "mB") == [Some("x"), Some("y")];
    TwoLive("x", "y");
    assert !IsVisible(SHARED, "b", "x") && IsVisible(SHARED, "b", "y") by {
      OwnersShown();
    }
    SecondVisible(SHARED, "b", Seen(1, "x"), Seen(2, "y"));
  }

  lemma OwnersShown()
    requires Lookup(SHARED.emails, "x") == Some(HERS) && Lookup(SHARED.emails, "y") == Some(MINE)
    ensures !IsVisible(SHARED, "b", "x") && IsVisible(SHARED, "b", "y")
  {
    hide Lookup;
  }

  lemma TwoLive(x: Id, y: Id)
    ensures Live([Some(x), Some(y)]) == [Seen(1, x), Seen(2, y)]
  {
    var slots: Slots := [Some(x), Some(y)];
    assert slots[..1] == [Some(x)] && slots[..1][..0] == [];
    var none: seq<Seen> := [];
    assert Live(slots[..1][..0]) == none;
    assert Live(slots[..1]) == none + [Seen(1, x)] == [Seen(1, x)];
  }

  lemma SecondVisible(st: Store, account: Id, a: Seen, b: Seen)
    requires !IsVisible(st, account, a.id) && IsVisible(st, account, b.id)
    ensures Visible(st, account, [a, b]) == [b]
  {
    hide Lookup;
    var both := [a, b];
    var none: seq<Seen> := [];
    assert both[..1] == [a] && [a][..0] == none;
    assert Visible(st, account, [a]) == none;
    assert Visible(st, account, both) == none + [b];
  }

  /** Account "b" sees one message, UID 2, flagged deleted. `UID EXPUNGE 2` removes it and announces
      `* 2 EXPUNGE`, because a message hidden from "b" holds the first place; the client has no
      second message, so it keeps showing the one that is gone. */
  lemma HiddenSlotExample()
    ensures var only := [Single(2)];
            var after := Exec(SHARED, UidExpunge("mB", only)).st;
            && JustLoaded(APART) && ProperRun(JOINS) && RunStore(APART, JOINS) == SHARED
            && Kept(SHARED) && LedgerOk(SHARED)
            && View(SHARED, "b", "mB") == [Seen(2, "y")]
            && ExpungeLines(SHARED, "mB", only) == [2]
            && View(after, "b", "mB") == []
            && Views.Replay(View(SHARED, "b", "mB"), ExpungeLines(SHARED, "mB", only)) == [Seen(2, "y")]
  {
    hide Live, View, Exec, Kept, LedgerOk, RunStore, JustLoaded, ProperRun, ExpungedBy, ExpungeLines, LinedUp, Views.Replay, SlotsOf, SlotsSingle, Without;
    var only := [Single(2)];
    SharedIsReached();
    SharedKept();
    SharedView();
    OnlySecond(only);
    LawfulIn(SHARED, "mB");
    LawfulSingle(SHARED, "mB");
    assert "mA"[1] != "mB"[1];
    ReplaySingle(SHARED, "b", "mB", only, "mA");
    StrikesNothing(Seen(2, "y"));
  }

  lemma StrikesNothing(s: Seen)
    ensures Elems([s]) == {s} && Without([s], {s}) == [] && Views.Replay([s], [2]) == [s]
  {
    var view, lines, none := [s], [2], [];
    assert view[..0] == [] && Without(view[..0], {s}) == [];
    assert Remove(view, 2) == view && lines[1..] == none;
    assert Views.Replay(view, none) == view;
  }

  lemma OnlySecond(only: UidSet)
    requires only == [Single(2)]
    ensures ExpungedBy(SHARED, "mB", only) == [Seen(2, "y")]
    ensures ExpungeLines(SHARED, "mB", only) == [2]
  {
    hide Live, Lookup, Matches, Selected, Victims, Positions, SlotsOf;
    SharedKept();
    SharedView();
    JustTwo(only);
    SecondOfTwo(SHARED, Seen(1, "x"), Seen(2, "y"), only);
    assert Elems([Seen(2, "y")]) == {Seen(2, "y")};
  }

  lemma JustTwo(only: UidSet)
    requires only == [Single(2)]
    ensures Matches(only, 2) && !Matches(only, 1)
  {
    assert Covers(only[0], 2) && !Covers(only[0], 1);
  }

  lemma SecondOfTwo(st: Store, a: Seen, b: Seen, uids: UidSet)
    requires a != b && !Matches(uids, a.uid) && Matches(uids, b.uid) && IsDeleted(st.emails, b.id)
    ensures Victims(st, Selected([a, b], uids)) == [b] && Positions([a, b], {b}) == [2]
  {
    hide Matches, IsDeleted;
    var both := [a, b];
    assert both[..1] == [a] && [a][..0] == [];
    assert Selected([a], uids) == [];
    var none: seq<Seen> := [];
    assert Selected(both, uids) == none + [b] == [b];
    assert [b][..0] == none;
    assert Victims(st, [b]) == [b] + Victims(st, none);
    SecondPlace(a, b);
  }

  // ----- A doubled message -----

  /** Loaded: a declaration that names "mB" twice, and another mailbox. */
  const DOUBLED := Store("a", [A, B, Mailbox("mC", "a", "C", false, None)], [], [], {},
                         [Email("x", "a", ["mB", "mB", "mC"], ["$deleted"], 0)],
                         map["mB" := [Some("x"), Some("x")], "mC" := [Some("x")]], 1)

  lemma DoubledLoaded()
    ensures JustLoaded(DOUBLED) && Kept(DOUBLED)
  {
    hide LoadLedger, MaxMockSeq, EmailIds, AssignAll, Kept;
    var e := DOUBLED.emails[0];
    assert DOUBLED.emails == [e];
    OneLoaded(e);
    OneEmailKept(DOUBLED, e);
    DoubledSlots();
  }

  lemma DoubledSlots()
    ensures AssignAll(map[], ["mB", "mB", "mC"], "x") == DOUBLED.ledger
  {
    hide Assign;
    var ms: seq<Id> := ["mB", "mB", "mC"];
    assert ms[..2] == ["mB", "mB"] && ms[..2][..1] == ["mB"];
    JustOne(map[], "mB", "x");
    assert AssignAll(map[], ms[..2], "x") == Assign(Assign(map[], "mB", "x"), "mB", "x");
    assert AssignAll(map[], ms, "x") == Assign(Assign(Assign(map[], "mB", "x"), "mB", "x"), "mC", "x");
    DoubledAssigned();
  }

  lemma DoubledAssigned()
    ensures Assign(Assign(Assign(map[], "mB", "x"), "mB", "x"), "mC", "x") == DOUBLED.ledger
  {
    var none: Slots := [];
    assert none + [Some("x")] == [Some("x")] && [Some("x")] + [Some("x")] == [Some("x"), Some("x")] && "mB"[1] != "mC"[1];
  }

  /** Both live slots of the message are shown. */
  lemma DoubledView()
    ensures Live(SlotsOf(DOUBLED.ledger, "mB")) == [Seen(1, "x"), Seen(2, "x")]
    ensures View(DOUBLED, "a", "mB") == [Seen(1, "x"), Seen(2, "x")]
    ensures IsDeleted(DOUBLED.emails, "x") && !OnlyIn(DOUBLED.emails, "x", "mB")
  {
    hide Live, Visible;
    assert SlotsOf(DOUBLED.ledger, "mB") == [Some("x"), Some("x")];
    TwoLive("x", "x");
    var e := DOUBLED.emails[0];
    assert e.id == "x" && IndexOf(DOUBLED.emails, "x") == 0;
    AllVisible(DOUBLED, "a", [Seen(1, "x"), Seen(2, "x")]);
    assert e.mailboxIds[2] == "mC" && "mB"[1] != "mC"[1];
    assert "mC" in e.mailboxIds;
    assert e.keywords[0] == "$deleted";
  }

  /** Naming the second slot costs the first. */
  lemma DoubledLost(destroys: bool)
    ensures Lost(DOUBLED, "mB", [Seen(2, "x")], destroys) == {Seen(1, "x")}
  {
    hide Live, OnlyIn, IsDeleted, Visible;
    DoubledView();
    var slots: Slots := [Some("x"), Some("x")];
    var gone := [Seen(2, "x")];
    assert SlotsOf(DOUBLED.ledger, "mB") == slots;
    assert slots[..0] == [] && slots[..1] == [Some("x")];
    assert Rank(slots, 0) == 0 && Rank(slots, 1) == 1;
    assert SeenIds(gone) == ["x"];
    assert forall s :: s in Live(SlotsOf(DOUBLED.ledger, "mB")) <==> s == Seen(1, "x") || s == Seen(2, "x");
  }

  /** `UID EXPUNGE 2` announces `* 2 EXPUNGE` and empties the first slot: the client keeps UID 1, the
      server shows UID 2. `UID MOVE 2` does the same. Nothing is hidden, and all is the account's own. */
  lemma DoubledReplay()
    ensures var only, view := [Single(2)], View(DOUBLED, "a", "mB");
            && JustLoaded(DOUBLED) && Kept(DOUBLED) && OwnMailbox(DOUBLED, "a", "mB")
            && view == Live(SlotsOf(DOUBLED.ledger, "mB")) == [Seen(1, "x"), Seen(2, "x")]
            && Views.Replay(view, ExpungeLines(DOUBLED, "mB", only)) == [Seen(1, "x")]
            && View(Exec(DOUBLED, UidExpunge("mB", only)).st, "a", "mB") == [Seen(2, "x")]
            && Views.Replay(view, MoveLines(DOUBLED, "mB", only)) == [Seen(1, "x")]
            && View(Exec(DOUBLED, UidMove("mB", only, Some("mA"))).st, "a", "mB") == [Seen(2, "x")]
  {
    hide Live, View, Exec, Kept, JustLoaded, OwnMailbox, ExpungeLines, MoveLines, Views.Replay, SlotsOf;
    DoubledLoaded();
    DoubledView();
    DoubledExpunge([Single(2)]);
    DoubledMove([Single(2)]);
    DoubledOwn();
  }

  lemma DoubledOwn()
    ensures OwnMailbox(DOUBLED, "a", "mB")
  {
  }

  lemma DoubledExpunge(only: UidSet)
    requires only == [Single(2)]
    ensures Views.Replay(View(DOUBLED, "a", "mB"), ExpungeLines(DOUBLED, "mB", only)) == [Seen(1, "x")]
    ensures View(Exec(DOUBLED, UidExpunge("mB", only)).st, "a", "mB") == [Seen(2, "x")]
  {
    hide Live, View, Exec, Kept, JustLoaded, Lost, Matches, Selected, Victims, Positions, Views.Replay, SlotsOf, OnlyIn, IsDeleted, LinedUp;
    DoubledLoaded();
    DoubledView();
    JustTwo(only);
    SecondOfTwo(DOUBLED, Seen(1, "x"), Seen(2, "x"), only);
    assert Elems([Seen(2, "x")]) == {Seen(2, "x")};
    DoubledLost(true);
    ExpungeReplayIff(DOUBLED, "a", "mB", only);
    StrikesSecond(Seen(1, "x"), Seen(2, "x"));
  }

  lemma DoubledMove(only: UidSet)
    requires only == [Single(2)]
    ensures Views.Replay(View(DOUBLED, "a", "mB"), MoveLines(DOUBLED, "mB", only)) == [Seen(1, "x")]
    ensures View(Exec(DOUBLED, UidMove("mB", only, Some("mA"))).st, "a", "mB") == [Seen(2, "x")]
  {
    hide Live, View, Exec, Kept, JustLoaded, Lost, Matches, Matched, Stored, Positions, Views.Replay, SlotsOf, OnlyIn, IsDeleted, LinedUp;
    DoubledLoaded();
    DoubledView();
    JustTwo(only);
    DoubledMatched(only);
    assert Elems([Seen(2, "x")]) == {Seen(2, "x")};
    SecondPlace(Seen(1, "x"), Seen(2, "x"));
    DoubledLost(false);
    assert "mA"[1] != "mB"[1];
    MoveReplayIff(DOUBLED, "a", "mB", only, "mA");
    StrikesSecond(Seen(1, "x"), Seen(2, "x"));
  }

  lemma SecondPlace(a: Seen, b: Seen)
    requires a != b
    ensures Positions([a, b], {b}) == [2]
  {
    var both := [a, b];
    assert both[..1] == [a] && [a][..0] == [];
    assert Positions([a], {b}) == [];
  }

  lemma DoubledMatched(only: UidSet)
    requires only == [Single(2)]
    ensures MovedBy(DOUBLED, "mB", only) == [Seen(2, "x")]
  {
    hide Live, Matches, IsDeleted, OnlyIn, Visible;
    DoubledView();
    JustTwo(only);
    var both := [Seen(1, "x"), Seen(2, "x")];
    assert both[..1] == [Seen(1, "x")] && both[..1][..0] == [];
    var none: seq<Seen> := [];
    assert Selected(both[..1], only) == none;
    assert Matched(DOUBLED, "mB", only) == none + [Seen(2, "x")];
    var sel := [Seen(2, "x")];
    assert sel[..0] == none && Stored(DOUBLED.emails, none) == none;
    assert DOUBLED.emails[0].id == "x" && IndexOf(DOUBLED.emails, "x") == 0;
    assert Stored(DOUBLED.emails, sel) == none + sel;
  }

  lemma StrikesSecond(a: Seen, b: Seen)
    requires a != b
    ensures Views.Replay([a, b], [2]) == [a] && Without([a, b], {a}) == [b]
  {
    var both, lines, none := [a, b], [2], [];
    assert Remove(both, 2) == [a] && lines[1..] == none;
    assert Views.Replay([a], none) == [a];
    assert both[..1] == [a] && [a][..0] == [];
    assert Without(both[..1], {a}) == [];
  }

  // ----- UID STORE after a COPY -----

  /** Loaded: "x" in the first mailbox, "y" in the second. */
  const SPREAD := Store("a", [A, B], [], [], {}, [X.(mailboxIds := ["mA"]), Y], map["mA" := [Some("x")], "mB" := [Some("y")]], 2)

  lemma SpreadLoaded()
    ensures JustLoaded(SPREAD)
  {
    hide LoadLedger, MaxMockSeq, EmailIds, AssignAll;
    var x, y := SPREAD.emails[0], SPREAD.emails[1];
    assert SPREAD.emails == [x, y];
    TwoLoaded(x, y);
    JustOne(map[], "mA", "x");
    JustOne(Assign(map[], "mA", "x"), "mB", "y");
    var none: Slots := [];
    assert none + [Some("x")] == [Some("x")] && none + [Some("y")] == [Some("y")] && "mA"[1] != "mB"[1];
    assert SPREAD.ledger == Assign(Assign(map[], "mA", "x"), "mB", "y");
  }

  /** The older "x" is copied behind "y": `UID FETCH` calls it 2, `UID STORE` calls it 1. */
  lemma CopiedOlder()
    ensures var after := Exec(SPREAD, UidCopy("mA", [Single(1)], Some("mB"))).st;
            && JustLoaded(SPREAD)
            && StoreNumbered(after.emails, "mB") == [Seen(1, "x"), Seen(2, "y")]
            && Live(SlotsOf(after.ledger, "mB")) == [Seen(1, "y"), Seen(2, "x")]
  {
    hide Do, Live, JustLoaded, Edits, Matched;
    var only: UidSet := [Single(1)];
    SpreadLoaded();
    assert SlotsOf(SPREAD.ledger, "mA") == [Some("x")];
    OneMatched(SPREAD, "mA", only);
    CopyEdits(SPREAD, "mA", only, "mB");
    var edits := Copies([Seen(1, "x")], "mB");
    assert edits == [Copy("x", "mB")] && edits[..0] == [];
    var w := Work(SPREAD, UNTOUCHED);
    assert DoAll(w, edits[..0]) == w;
    assert DoAll(w, edits) == Do(w, edits[0]);
    CopiedOnce(w);
    TwoLive("y", "x");
    BothNumbered(HERS_IN_B, Y);
  }

  const HERS_IN_B := X.(mailboxIds := ["mA", "mB"])

  lemma CopiedOnce(w: Work)
    requires w == Work(SPREAD, UNTOUCHED)
    ensures var st := Do(w, Copy("x", "mB")).st;
            st.emails == [HERS_IN_B, Y] && SlotsOf(st.ledger, "mB") == [Some("y"), Some("x")]
  {
    var x := SPREAD.emails[0];
    assert x.id == "x" && IndexOf(SPREAD.emails, "x") == 0;
    assert x.mailboxIds == ["mA"] && "mA"[1] != "mB"[1];
    assert x.mailboxIds + ["mB"] == ["mA", "mB"];
    assert SPREAD.emails[0 := HERS_IN_B] == [HERS_IN_B, Y];
    assert SlotsOf(SPREAD.ledger, "mB") == [Some("y")];
    assert [Some("y")] + [Some("x")] == [Some("y"), Some("x")];
  }

  lemma BothNumbered(e: Email, f: Email)
    requires "mB" in e.mailboxIds && "mB" in f.mailboxIds
    ensures StoreNumbered([e, f], "mB") == [Seen(1, e.id), Seen(2, f.id)]
  {
    var both := [e, f];
    assert both[..1] == [e] && [e][..0] == [];
    var none: seq<Seen> := [];
    assert StoreNumbered([e][..0], "mB") == none;
    assert StoreNumbered([e], "mB") == none + [Seen(1, e.id)] == [Seen(1, e.id)];
  }
}
