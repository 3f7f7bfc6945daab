/** Quick resynchronisation of one mailbox (sections 3.1.4.1 and 3.2.5.2 of RFC 7162): after a run,
    the VANISHED (EARLIER) set of a SELECT and the rows of one CHANGEDSINCE fetch bring an IMAP
    client's cache of the mailbox up to date. */
module Resyncs {
  import opened Basics
  import opened Patches
  import opened Flags
  import opened Ledgers
  import opened ChangeLogs
  import opened Stores
  import opened Upkeep
  import opened Runs
  import opened SpentSlots
  import opened Splits
  import opened Agreement
  import opened Replay
  import opened Caches
  import opened Clients

  // ----- Every new slot is recorded -----

  /** From `l` to `l'` slots were only retired and appended, and every appended one that is still
      live names an email that `log` lists as created or updated. */
  ghost predicate NewRecorded(l: Ledger, l': Ledger, log: Touched) {
    && Ages(l, l')
    && forall m, i :: |SlotsOf(l, m)| <= i < |SlotsOf(l', m)| && SlotsOf(l', m)[i].Some? ==> Listed(log, SlotsOf(l', m)[i].value)
  }

  predicate Listed(log: Touched, id: Id) {
    id in log.created || id in log.updated
  }

  ghost predicate LogGrows(a: Touched, b: Touched) {
    a.created <= b.created && a.updated <= b.updated
  }

  lemma NothingNew(l: Ledger, log: Touched)
    ensures NewRecorded(l, l, log)
  {
    AgesItself(l);
  }

  lemma NewTransitive(a: Ledger, b: Ledger, c: Ledger, log: Touched, log': Touched)
    requires NewRecorded(a, b, log) && NewRecorded(b, c, log') && LogGrows(log, log')
    ensures NewRecorded(a, c, log')
  {
    hide Ages;
    AgesTransitive(a, b, c);
    forall m, i | |SlotsOf(a, m)| <= i < |SlotsOf(c, m)| && SlotsOf(c, m)[i].Some?
      ensures Listed(log', SlotsOf(c, m)[i].value)
    {
      if i < |SlotsOf(b, m)| {
        SlotAged(b, c, m, i);
        assert Listed(log, SlotsOf(b, m)[i].value);
      }
    }
  }

  lemma SlotAged(l: Ledger, l': Ledger, m: Id, i: nat)
    requires Ages(l, l') && i < |SlotsOf(l, m)|
    ensures i < |SlotsOf(l', m)| && (SlotsOf(l', m)[i].Some? ==> SlotsOf(l', m)[i] == SlotsOf(l, m)[i])
  {
    assert SlotsAge(SlotsOf(l, m), SlotsOf(l', m));
  }

  lemma NewAssign(l: Ledger, m: Id, id: Id, log: Touched)
    requires Listed(log, id)
    ensures NewRecorded(l, Assign(l, m, id), log)
  {
    hide Ages, Listed;
    AssignAges(l, m, id);
  }

  lemma NewRetire(l: Ledger, m: Id, id: Id, log: Touched)
    ensures NewRecorded(l, Retire(l, m, id), log)
  {
    hide Ages, Listed;
    RetireAges(l, m, id);
  }

  lemma {:induction false} NewAssignAll(l: Ledger, ms: seq<Id>, id: Id, log: Touched)
    requires Listed(log, id)
    ensures NewRecorded(l, AssignAll(l, ms, id), log)
  {
    hide NewRecorded, Listed;
    if ms == [] {
      NothingNew(l, log);
    } else {
      var front := AssignAll(l, ms[..|ms| - 1], id);
      NewAssignAll(l, ms[..|ms| - 1], id, log);
      NewAssign(front, ms[|ms| - 1], id, log);
      NewTransitive(l, front, AssignAll(l, ms, id), log, log);
    }
  }

  lemma {:induction false} NewRetireAll(l: Ledger, ms: seq<Id>, id: Id, log: Touched)
    ensures NewRecorded(l, RetireAll(l, ms, id), log)
  {
    hide NewRecorded;
    if ms == [] {
      NothingNew(l, log);
    } else {
      var front := RetireAll(l, ms[..|ms| - 1], id);
      NewRetireAll(l, ms[..|ms| - 1], id, log);
      NewRetire(front, ms[|ms| - 1], id, log);
      NewTransitive(l, front, RetireAll(l, ms, id), log, log);
    }
  }

  ghost predicate StepRecorded(w: Work, v: Work) {
    NewRecorded(w.st.ledger, v.st.ledger, v.log) && LogGrows(w.log, v.log)
  }

  lemma DoAtRecorded(w: Work, edit: Edit, i: nat)
    requires !edit.Create? && !edit.Import? && !edit.DestroyBatch?
    requires i < |w.st.emails| && w.st.emails[i].id == edit.id
    ensures StepRecorded(w, DoAt(w, edit, i))
  {
    hide NewRecorded, Patched, KeywordsAfter, Changes, RetireAll, AssignAll, Retire, Assign, Include, Without;
    var e, l, log := w.st.emails[i], w.st.ledger, DoAt(w, edit, i).log;
    NothingNew(l, log);
    match edit {
      case Patch(id, patch) =>
        var p := Patched(e.keywords, e.mailboxIds, patch);
        if p.Some? {
          var left, joined := Without(e.mailboxIds, Elems(p.value.mailboxIds)), Without(p.value.mailboxIds, Elems(e.mailboxIds));
          NewRetireAll(l, left, id, log);
          NewAssignAll(RetireAll(l, left, id), joined, id, log);
          NewTransitive(l, RetireAll(l, left, id), AssignAll(RetireAll(l, left, id), joined, id), log, log);
        }
      case Discard(id) => NewRetireAll(l, e.mailboxIds, id, log);
      case Copy(id, target) =>
        if target !in e.mailboxIds {
          NewAssign(l, target, id, log);
        }
      case Move(id, source, target) =>
        NewAssign(l, target, id, log);
        NewRetire(Assign(l, target, id), source, id, log);
        NewTransitive(l, Assign(l, target, id), Retire(Assign(l, target, id), source, id), log, log);
      case Expunge(id, source) => NewRetire(l, source, id, log);
      case Flag(_, _) =>
    }
  }

  lemma AddBuiltRecorded(w: Work, b: Built)
    ensures StepRecorded(w, AddBuilt(w, b))
  {
    hide NewRecorded;
    NothingNew(w.st.ledger, w.log);
    if b.Fresh? {
      NewAssignAll(w.st.ledger, b.email.mailboxIds, b.email.id, AddBuilt(w, b).log);
    }
  }

  lemma {:induction false} DestroyEachRecorded(w: Work, gone: seq<Email>, ids: seq<Id>)
    ensures StepRecorded(w, DestroyEach(w, gone, ids))
  {
    hide NewRecorded, Lookup;
    if ids == [] {
      NothingNew(w.st.ledger, w.log);
    } else {
      var front, last := ids[..|ids| - 1], ids[|ids| - 1];
      var u, v := DestroyEach(w, gone, front), DestroyEach(w, gone, ids);
      DestroyEachRecorded(w, gone, front);
      var e := Lookup(gone, last);
      if e.Some? {
        NewRetireAll(u.st.ledger, e.value.mailboxIds, last, v.log);
        NewTransitive(w.st.ledger, u.st.ledger, v.st.ledger, u.log, v.log);
      }
    }
  }

  lemma DoRecorded(w: Work, edit: Edit)
    ensures StepRecorded(w, Do(w, edit))
  {
    hide NewRecorded, DoAt, BuildFrom, DestroyEach, EmailsWithout, IndexOf;
    match edit {
      case Create(body) => AddBuiltRecorded(w, BuildFromCreate(w.st, body));
      case Import(body) => AddBuiltRecorded(w, BuildFromImport(w.st, body));
      case DestroyBatch(ids) =>
        DestroyEachRecorded(w.(st := w.st.(emails := EmailsWithout(w.st.emails, Elems(ids)))), w.st.emails, ids);
      case _ =>
        var i := IndexOf(w.st.emails, edit.id);
        NothingNew(w.st.ledger, w.log);
        if i < |w.st.emails| {
          DoAtRecorded(w, edit, i);
        }
    }
  }

  lemma {:induction false} DoAllRecorded(w: Work, edits: seq<Edit>)
    ensures StepRecorded(w, DoAll(w, edits))
  {
    hide Do, NewRecorded;
    if edits == [] {
      NothingNew(w.st.ledger, w.log);
    } else {
      var u := DoAll(w, edits[..|edits| - 1]);
      DoAllRecorded(w, edits[..|edits| - 1]);
      DoRecorded(u, edits[|edits| - 1]);
      NewTransitive(w.st.ledger, u.st.ledger, DoAll(w, edits).st.ledger, u.log, DoAll(w, edits).log);
    }
  }

  // ----- Over runs -----

  lemma ShareListed(w: Work, a: Id, id: Id)
    requires UniqueIds(w.st.emails) && Listed(w.log, id) && LivesIn(w.st, a, id)
    ensures Listed(Share(w, a), id)
  {
    hide Lookup;
    EmailOwnersAre(w.st.emails, id);
  }

  /** The counters from which `id` was listed. */
  ghost predicate ListedIn(w: seq<Diff>, id: Id) {
    id in Gather(w, EmailKind, Created) || id in Gather(w, EmailKind, Updated)
  }

  lemma OneListed(d: Diff, id: Id)
    ensures ListedIn([d], id) <==> Listed(d.email, id)
  {
    OneDiff(d);
    OneUpdated(d);
  }

  lemma ListedAppend(w: seq<Diff>, v: seq<Diff>, id: Id)
    ensures ListedIn(w + v, id) <==> ListedIn(w, id) || ListedIn(v, id)
  {
    hide Gather;
    GatherAppend(w, v, EmailKind, Created);
    GatherAppend(w, v, EmailKind, Updated);
  }

  /** One command's new slot shows up in what it appends to the history of the email's account. */
  lemma StepListsSlot(mid: Server, c: Command, a: Id, m: Id, i: nat, id: Id)
    requires Kept(mid.st) && ProperCommand(c) && Step(mid, c).st.emailSeq <= U64_MAX
    requires |SlotsOf(mid.st.ledger, m)| <= i < |SlotsOf(Step(mid, c).st.ledger, m)|
    requires SlotsOf(Step(mid, c).st.ledger, m)[i] == Some(id) && LivesIn(Step(mid, c).st, a, id)
    ensures var before, after := HistOf(mid.hists, a), HistOf(Step(mid, c).hists, a);
            |before| <= |after| && after[..|before|] == before && ListedIn(after[|before|..], id)
  {
    hide Kept, Edits, DoAll, ProperCommand, HistOf, Portion, Share, DirectoryOf, Recorded, DiffOf, Around, LivesIn, ListedIn, Ages, SlotsOf, Listed;
    var w := Exec(mid.st, c);
    var sub := Portion(mid.st, c, a);
    var before, after := HistOf(mid.hists, a), HistOf(Step(mid, c).hists, a);
    StepHistory(mid, c, a);
    assert after[..|before|] == before;
    DoAllRecorded(Work(Around(mid.st, c), UNTOUCHED), Edits(mid.st, c));
    PortionEmail(mid.st, c, a);
    ExecKept(mid.st, c);
    KeptUnique(w.st);
    ShareListed(w, a, id);
    ListedNotEmpty(sub, id);
    assert after[|before|..] == [sub];
    OneListed(sub, id);
  }

  lemma ListedNotEmpty(d: Diff, id: Id)
    requires Listed(d.email, id)
    ensures !IsEmpty(d)
  {
  }

  /** What is live now and had an id minted by then was live then, in the same account. */
  lemma LivedThen(mid: Server, c: Command, a: Id, id: Id)
    requires Kept(mid.st) && ProperCommand(c) && Step(mid, c).st.emailSeq <= U64_MAX
    requires LivesIn(Step(mid, c).st, a, id) && NeverAgain(mid.st.emailSeq, id)
    ensures LivesIn(mid.st, a, id)
  {
    hide Kept, Exec, ProperCommand, Lookup, MintId;
    OneOrigin(mid.st, c, id, mid.st.emailSeq);
  }

  /** A live message that got its slot during the run is listed in what the run appended. */
  lemma {:induction false} RunListsSlots(s: Server, cs: seq<Command>, a: Id, m: Id, i: nat, id: Id)
    requires Kept(s.st) && Spent(s.st) && ProperRun(cs) && RunServer(s, cs).st.emailSeq <= U64_MAX
    requires |SlotsOf(s.st.ledger, m)| <= i < |SlotsOf(RunServer(s, cs).st.ledger, m)|
    requires SlotsOf(RunServer(s, cs).st.ledger, m)[i] == Some(id) && LivesIn(RunServer(s, cs).st, a, id)
    ensures var n, after := |HistOf(s.hists, a)|, HistOf(RunServer(s, cs).hists, a);
            n <= |after| && ListedIn(after[n..], id)
  {
    hide Kept, Step, Traces, NoLeftovers, FairTo, ProperCommand, HistOf, LivesIn, ListedIn, NeverAgain, Ages, SlotsOf;
    if cs != [] {
      var front, last := cs[..|cs| - 1], cs[|cs| - 1];
      var mid := RunServer(s, front);
      RunSeq(s, front, last);
      RunTells(s, front, a);
      StepAppends(mid, last, a, m);
      RunSpent(s, front);
      var n, before, after := |HistOf(s.hists, a)|, HistOf(mid.hists, a), HistOf(Step(mid, last).hists, a);
      assert after[n..] == before[n..] + after[|before|..];
      ListedAppend(before[n..], after[|before|..], id);
      if i < |SlotsOf(mid.st.ledger, m)| {
        SlotAged(mid.st.ledger, Step(mid, last).st.ledger, m, i);
        assert NeverAgain(mid.st.emailSeq, id);
        LivedThen(mid, last, a, id);
        RunListsSlots(s, front, a, m, i, id);
      } else {
        StepListsSlot(mid, last, a, m, i, id);
      }
    }
  }

  lemma StepAppends(mid: Server, c: Command, a: Id, m: Id)
    ensures Ages(mid.st.ledger, Step(mid, c).st.ledger)
    ensures var before, after := HistOf(mid.hists, a), HistOf(Step(mid, c).hists, a);
            |before| <= |after| && after[..|before|] == before
  {
    hide Edits, Ages, HistOf, Recorded, Portion, DirectoryOf, DiffOf, Around;
    DoAllAges(Work(Around(mid.st, c), UNTOUCHED), Edits(mid.st, c));
    StepHistory(mid, c, a);
  }

  lemma {:induction false} RunSpent(s: Server, cs: seq<Command>)
    requires Kept(s.st) && Spent(s.st) && ProperRun(cs)
    requires RunServer(s, cs).st.emailSeq <= U64_MAX
    ensures Spent(RunServer(s, cs).st)
  {
    hide Kept, Spent, ProperCommand, Exec, DirectoryOf, Recorded;
    if cs != [] {
      var front, last := cs[..|cs| - 1], cs[|cs| - 1];
      RunSeq(s, front, last);
      RunSpent(s, front);
      ExecSpent(RunServer(s, front).st, last);
    }
  }

  // ----- A client's cache of one mailbox -----

  /** What an IMAP client keeps of a message; its text never changes. */
  datatype Held = Held(id: Id, flags: set<string>)

  predicate Shown(st: Store, account: Id, m: Id, uid: nat) {
    && 1 <= uid <= |SlotsOf(st.ledger, m)| && SlotsOf(st.ledger, m)[uid - 1].Some?
    && IsVisible(st, account, SlotsOf(st.ledger, m)[uid - 1].value)
  }

  function HeldOf(st: Store, id: Id): Held
    requires Known(st, id)
  {
    Held(id, Elems(Lookup(st.emails, id).value.keywords))
  }

  /** The mailbox as the account sees it, by UID. */
  ghost function Shelf(st: Store, account: Id, m: Id): (r: map<nat, Held>)
    ensures forall uid :: uid in r <==> Shown(st, account, m, uid)
    ensures forall uid: nat :: Shown(st, account, m, uid) ==> r[uid] == HeldOf(st, SlotsOf(st.ledger, m)[uid - 1].value)
  {
    map uid: nat | uid <= |SlotsOf(st.ledger, m)| && Shown(st, account, m, uid)
      :: HeldOf(st, SlotsOf(st.ledger, m)[uid - 1].value)
  }

  /** What the client makes of the answers: drop the vanished, then take over every row it is sent. */
  ghost function Resynced(cache: map<nat, Held>, vanished: set<nat>, fetched: set<nat>, now: map<nat, Held>): map<nat, Held> {
    map uid | uid in cache.Keys + fetched && (uid in fetched ==> uid in now) && (uid in fetched || uid !in vanished)
      :: if uid in fetched then now[uid] else cache[uid]
  }

  /** The live slots the account was shown still name live emails. */
  ghost predicate NothingStale(old_: Store, st: Store, account: Id, m: Id) {
    forall uid :: Shown(old_, account, m, uid) ==> !StaleAt(st, m, uid)
  }

  /** The slot of `uid` is not retired, but its email is gone. */
  ghost predicate StaleAt(st: Store, m: Id, uid: nat) {
    1 <= uid <= |SlotsOf(st.ledger, m)| && SlotsOf(st.ledger, m)[uid - 1].Some? && !Known(st, SlotsOf(st.ledger, m)[uid - 1].value)
  }

  /** The two answers: `vanished` is right for the UIDs the client was shown, and `fetched` are the
      UIDs of the rows that pass CHANGEDSINCE. */
  ghost predicate Answers(s: Server, t: Server, account: Id, m: Id, vanished: set<nat>, fetched: set<nat>) {
    && (forall uid: nat :: Shown(s.st, account, m, uid) ==>
          (uid in vanished <==> uid <= |SlotsOf(t.st.ledger, m)| && SlotsOf(t.st.ledger, m)[uid - 1].None?))
    && (forall uid :: uid in fetched <==>
          && Shown(t.st, account, m, uid)
          && Modseq(HistOf(t.hists, account), SlotsOf(t.st.ledger, m)[uid - 1].value) > |HistOf(s.hists, account)| + 1)
  }

  /** With nothing evicted from the window, passing CHANGEDSINCE is being listed in it. */
  lemma PassesIffListed(hist: seq<Diff>, n: nat, id: Id)
    requires Resolves(hist, n) && (n == 0 ==> |hist| <= MAX_TRANSITIONS)
    ensures n <= |hist| && (Modseq(hist, id) > n + 1 <==> ListedIn(hist[n..], id))
  {
    hide Gather, Modseq;
    TouchedInWindow(hist, n, id);
    ModseqReadsTheWindow(hist, n, id);
    assert Window(hist, n) == hist[n..];
  }

  /** A slot that is shown now and was assigned before the run was shown then. */
  lemma ShownThen(s: Server, cs: seq<Command>, a: Id, m: Id, uid: nat)
    requires Kept(s.st) && Spent(s.st) && ProperRun(cs) && RunServer(s, cs).st.emailSeq <= U64_MAX
    requires Shown(RunServer(s, cs).st, a, m, uid) && uid <= |SlotsOf(s.st.ledger, m)|
    ensures Shown(s.st, a, m, uid)
  {
    hide Kept, RunStore, Lookup, NeverAgain, ProperCommand, RunServer, Ages;
    RunServerStore(s, cs);
    RunAges(s.st, cs);
    var t := RunStore(s.st, cs);
    SlotAged(s.st.ledger, t.ledger, m, uid - 1);
    var id := SlotsOf(t.ledger, m)[uid - 1].value;
    assert NeverAgain(s.st.emailSeq, SlotsOf(s.st.ledger, m)[uid - 1].value);
    RunOrigins(s.st, cs, id);
  }

  /** A slot that was shown before the run and is not retired names the same email, still in the
      account unless it is gone. */
  lemma ShownStill(s: Server, cs: seq<Command>, a: Id, m: Id, uid: nat)
    requires Kept(s.st) && Spent(s.st) && ProperRun(cs) && RunServer(s, cs).st.emailSeq <= U64_MAX
    requires Shown(s.st, a, m, uid)
    ensures var before, after := SlotsOf(s.st.ledger, m), SlotsOf(RunServer(s, cs).st.ledger, m);
            && uid <= |after|
            && (after[uid - 1].Some? ==>
                  && after[uid - 1] == before[uid - 1]
                  && (Known(RunServer(s, cs).st, after[uid - 1].value) ==>
                        LivesIn(s.st, a, after[uid - 1].value) && LivesIn(RunServer(s, cs).st, a, after[uid - 1].value)))
  {
    hide Kept, RunStore, Lookup, NeverAgain, ProperCommand, RunServer, Ages;
    RunServerStore(s, cs);
    RunAges(s.st, cs);
    var t := RunStore(s.st, cs);
    SlotAged(s.st.ledger, t.ledger, m, uid - 1);
    var id := SlotsOf(s.st.ledger, m)[uid - 1].value;
    assert NeverAgain(s.st.emailSeq, id);
    RunOrigins(s.st, cs, id);
  }

  /** A message that does not pass CHANGEDSINCE has the flags it had. */
  lemma UnchangedFlags(s: Server, cs: seq<Command>, a: Id, id: Id)
    requires Kept(s.st) && ProperRun(cs) && RunServer(s, cs).st.emailSeq <= U64_MAX
    requires LivesIn(s.st, a, id) && LivesIn(RunServer(s, cs).st, a, id)
    requires |HistOf(s.hists, a)| <= |HistOf(RunServer(s, cs).hists, a)|
    requires !ListedIn(HistOf(RunServer(s, cs).hists, a)[|HistOf(s.hists, a)|..], id)
    ensures HeldOf(s.st, id) == HeldOf(RunServer(s, cs).st, id)
  {
    hide Kept, ProperRun, RunServer, HistOf, Gather, Lookup;
    if Differs(s.st, RunServer(s, cs).st, id) {
      RunReports(s, cs, a, id);
    }
  }

  /** What the resynchronised cache holds at one UID. */
  lemma ResyncAt(s: Server, cs: seq<Command>, a: Id, m: Id, vanished: set<nat>, fetched: set<nat>, uid: nat)
    requires Kept(s.st) && Spent(s.st) && ProperRun(cs) && RunServer(s, cs).st.emailSeq <= U64_MAX
    requires var n, hist := |HistOf(s.hists, a)|, HistOf(RunServer(s, cs).hists, a);
             Resolves(hist, n) && (n == 0 ==> |hist| <= MAX_TRANSITIONS)
    requires Answers(s, RunServer(s, cs), a, m, vanished, fetched)
    ensures var t := RunServer(s, cs);
            var now := Shelf(t.st, a, m);
            var cache := Resynced(Shelf(s.st, a, m), vanished, fetched, now);
            && (uid in now ==> uid in cache && cache[uid] == now[uid])
            && (uid in cache && uid !in now <==> Shown(s.st, a, m, uid) && StaleAt(t.st, m, uid))
  {
    hide Kept, ProperRun, RunServer, HistOf, ListedIn, LivesIn, Spent, Modseq, Resolves, Lookup, SlotsOf;
    var t := RunServer(s, cs);
    var n, hist := |HistOf(s.hists, a)|, HistOf(t.hists, a);
    if Shown(s.st, a, m, uid) {
      ShownStill(s, cs, a, m, uid);
    }
    if Shown(t.st, a, m, uid) {
      var id := SlotsOf(t.st.ledger, m)[uid - 1].value;
      PassesIffListed(hist, n, id);
      VisibleLivesIn(t.st, a, id);
      if uid <= |SlotsOf(s.st.ledger, m)| {
        ShownThen(s, cs, a, m, uid);
        if uid !in fetched {
          UnchangedFlags(s, cs, a, id);
        }
      } else {
        RunListsSlots(s, cs, a, m, uid - 1, id);
      }
    }
    if Shown(s.st, a, m, uid) && SlotsOf(t.st.ledger, m)[uid - 1].Some? && Known(t.st, SlotsOf(t.st.ledger, m)[uid - 1].value) {
      VisibleLivesIn(t.st, a, SlotsOf(t.st.ledger, m)[uid - 1].value);
    }
  }

  lemma VisibleLivesIn(st: Store, a: Id, id: Id)
    ensures IsVisible(st, a, id) <==> LivesIn(st, a, id)
  {
  }

  /** Quick resynchronisation. A client knew the mailbox as it was at server `s`; any run
      followed; the log still resolves its state (and, from the seed, nothing was evicted). Dropping
      the vanished UIDs and taking over the rows that changed since gives the mailbox as it is now,
      exactly when no slot the client was shown outlived its email. */
  lemma ResyncTheorem(s: Server, cs: seq<Command>, a: Id, m: Id, vanished: set<nat>, fetched: set<nat>)
    requires Kept(s.st) && Spent(s.st) && ProperRun(cs) && RunServer(s, cs).st.emailSeq <= U64_MAX
    requires var n, hist := |HistOf(s.hists, a)|, HistOf(RunServer(s, cs).hists, a);
             Resolves(hist, n) && (n == 0 ==> |hist| <= MAX_TRANSITIONS)
    requires Answers(s, RunServer(s, cs), a, m, vanished, fetched)
    ensures var now := Shelf(RunServer(s, cs).st, a, m);
            Resynced(Shelf(s.st, a, m), vanished, fetched, now) == now <==> NothingStale(s.st, RunServer(s, cs).st, a, m)
  {
    hide Kept, ProperRun, RunServer, HistOf, Spent, Resolves, Answers, Shelf, Resynced, Shown, StaleAt;
    var now := Shelf(RunServer(s, cs).st, a, m);
    var cache := Resynced(Shelf(s.st, a, m), vanished, fetched, now);
    forall uid
      ensures uid in now ==> uid in cache && cache[uid] == now[uid]
      ensures uid in cache && uid !in now <==> Shown(s.st, a, m, uid) && StaleAt(RunServer(s, cs).st, m, uid)
    {
      ResyncAt(s, cs, a, m, vanished, fetched, uid);
    }
    if NothingStale(s.st, RunServer(s, cs).st, a, m) {
      forall uid
        ensures uid in cache <==> uid in now
      {
        assert !(Shown(s.st, a, m, uid) && StaleAt(RunServer(s, cs).st, m, uid));
      }
    } else {
      var uid :| Shown(s.st, a, m, uid) && StaleAt(RunServer(s, cs).st, m, uid);
    }
  }

  /** Under the ledger law no slot outlives its email. */
  lemma LawfulIsNotStale(old_: Store, st: Store, account: Id, m: Id)
    requires LedgerOk(st)
    ensures NothingStale(old_, st, account, m)
  {
    hide LedgerOk, Lookup, Live;
    var slots := SlotsOf(st.ledger, m);
    forall uid
      ensures !StaleAt(st, m, uid)
    {
      if StaleAt(st, m, uid) {
        var seen := Seen(uid, slots[uid - 1].value);
        assert seen in Live(slots);
        LawfulIn(st, m);
        LiveLaw(st, m, seen, seen);
      }
    }
  }
}
