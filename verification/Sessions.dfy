/** Whole runs on the real object. Every command holds the fixture's write lock for its duration, so
    what any number of connections do together is one sequence of commands; serving it takes the
    fixture exactly where the run of Replay.dfy says, and a client that kept a state token catches
    up on it. */
module Sessions {
  import opened Basics
  import opened Dominance
  import opened Tokens
  import opened ChangeLogs
  import opened Stores
  import opened Upkeep
  import opened SpentSlots
  import opened Runs
  import opened Ledgers
  import opened UidSets
  import opened Splits
  import opened Views
  import opened Replay
  import opened Caches
  import opened Clients
  import opened Resyncs
  import opened Fixtures
  import JmapMail
  import ImapMail

  /** No 64-bit counter runs out during the command. */
  ghost predicate Fits(s: Server, c: Command) {
    && (forall a :: a in s.hists ==> |s.hists[a]| < U64_MAX)
    && s.st.emailSeq + (if c.EmailSet? then |c.creates| else if c.EmailImport? then |c.bodies| else 0) <= U64_MAX
  }

  ghost predicate Servable(s: Server, cs: seq<Command>) {
    forall i :: 0 <= i < |cs| ==> ProperCommand(cs[i]) && Fits(RunServer(s, cs[..i]), cs[i])
  }

  method ServeOne(fix: Fixture, account: Id, c: Command)
    requires fix.Valid() && Fits(fix.Whole(), c) && ProperCommand(c)
    modifies fix, fix.logs.Values
    ensures fix.Valid() && fresh(fix.logs.Values - old(fix.logs.Values))
    ensures fix.Whole() == Step(old(fix.Whole()), c)
  {
    hide Kept, Spent, ProperCommand, Step;
    RoomToServe(fix, c);
    match c {
      case EmailSet(creates, updates, destroys) =>
        var _ := JmapMail.SetEmails(fix, account, None, creates, updates, destroys);
      case EmailImport(bodies) =>
        var _, _ := JmapMail.ImportEmails(fix, account, bodies);
      case EmailSubmissionSet(submissions, onUpdate, onDestroy) =>
        var _, _ := JmapMail.SubmitEmails(fix, account, submissions, onUpdate, onDestroy);
      case UidStore(selected, uids, op) =>
        var _ := ImapMail.StoreMessages(fix, selected, uids, op, true);
      case UidCopy(selected, uids, target) =>
        var _ := ImapMail.CopyMessages(fix, selected, uids, target);
      case UidMove(selected, uids, target) =>
        var _, _ := ImapMail.MoveMessages(fix, selected, uids, target);
      case UidExpunge(selected, uids) =>
        var _ := ImapMail.ExpungeMessages(fix, selected, uids);
      case Elsewhere(mailboxes, folders, contacts, diff) =>
        var _ := fix.Mutate(mailboxes, folders, contacts, diff);
    }
  }

  lemma RoomToServe(fix: Fixture, c: Command)
    requires fix.LogsOk() && Fits(fix.Whole(), c)
    ensures fix.Room() && fix.emailSeq <= U64_MAX
  {
    forall a | a in fix.logs
      ensures fix.logs[a].counter < U64_MAX
    {
      assert fix.Hists()[a] == fix.logs[a].history;
    }
  }

  lemma RunStep(s: Server, cs: seq<Command>, i: nat)
    requires i < |cs|
    ensures RunServer(s, cs[..i + 1]) == Step(RunServer(s, cs[..i]), cs[i])
  {
    hide Step;
    assert cs[..i + 1][..i] == cs[..i];
  }

  method Serve(fix: Fixture, account: Id, cs: seq<Command>)
    requires fix.Valid() && Servable(fix.Whole(), cs)
    modifies fix, fix.logs.Values
    ensures fix.Valid() && fresh(fix.logs.Values - old(fix.logs.Values))
    ensures fix.Whole() == RunServer(old(fix.Whole()), cs)
  {
    hide Fixture.Valid, Fits, ProperCommand, Step;
    ghost var start := fix.Whole();
    for i := 0 to |cs|
      invariant fix.Valid() && fresh(fix.logs.Values - old(fix.logs.Values))
      invariant fix.Whole() == RunServer(start, cs[..i])
    {
      RunStep(start, cs, i);
      ServeOne(fix, account, cs[i]);
    }
    assert cs[..|cs|] == cs;
  }

  /** `Email/changes`, end to end. A client notes its account's state token, any run of commands
      follows, and the client asks what changed since. The answer is refused exactly when the ring
      has let go of that state. Otherwise (and, for the seed token, when nothing at all was let go) a
      cache that mirrored the account mirrors it again after fetching what is named; and adding
      `created` to the ids the client knew and dropping `destroyed` gives the ids that live now exactly
      when the run was fair to the account. */
  method CatchUp(fix: Fixture, account: Id, cs: seq<Command>, ghost cache: map<Id, Email>)
      returns (token: string, delta: Option<DeltaSet>)
    requires fix.Valid() && Servable(fix.Whole(), cs)
    requires RunServer(fix.Whole(), cs).st.emailSeq <= U64_MAX
    modifies fix, fix.logs.Values
    ensures fix.Valid() && fix.Whole() == RunServer(old(fix.Whole()), cs)
    ensures var n, hist := |HistOf(old(fix.Hists()), account)|, HistOf(fix.Hists(), account);
            && token == Token(fix.stateSeed, n)
            && n <= |hist|
            && (delta.Some? <==> Resolves(hist, n))
            && (delta.Some? && (n == 0 ==> |hist| <= MAX_TRANSITIONS) ==>
                  && (LiveIds(fix.View(), account) ==
                        (LiveIds(old(fix.View()), account) + Elems(delta.value.created)) - Elems(delta.value.destroyed)
                      <==> FairTo(old(fix.Whole()), cs, account))
                  && (Mirrors(cache, old(fix.View()), account) ==>
                        Mirrors(Synced(cache, delta.value, fix.View(), account), fix.View(), account)))
  {
    hide Token, Fits, ProperCommand, FairTo, LiveIds, DeltaFrom, Kept, Fixture.LogsOk, RunServer, Mirrors, Synced;
    ghost var start := fix.Whole();
    token := fix.StateFor(account);
    Serve(fix, account, cs);
    delta := fix.DeltaSinceAccount(token, account, EmailKind);
    ghost var n, hist := |HistOf(start.hists, account)|, HistOf(fix.Hists(), account);
    HistoryGrows(start, cs, account);
    AnswerToToken(fix.stateSeed, hist, n, EmailKind, Destroyed);
    DeltaSomeIff(hist, n);
    if delta.Some? && (n == 0 ==> |hist| <= MAX_TRANSITIONS) {
      ReplayTheorem(start, cs, account);
      if Mirrors(cache, start.st, account) {
        CacheTheorem(start, cs, account, cache);
      }
    }
  }

  lemma DeltaSomeIff(hist: seq<Diff>, n: nat)
    ensures DeltaFrom(hist, n, EmailKind, Destroyed).Some? <==> Resolves(hist, n)
  {
  }

  lemma {:induction false} HistoryGrows(s: Server, cs: seq<Command>, a: Id)
    ensures |HistOf(s.hists, a)| <= |HistOf(RunServer(s, cs).hists, a)|
  {
    hide Exec, DirectoryOf, Sub, AccountsTouched;
    if cs != [] {
      HistoryGrows(s, cs[..|cs| - 1], a);
    }
  }

  /** CONDSTORE, end to end (section 3.1.4.1 of RFC 7162). A client notes HIGHESTMODSEQ, any run
      follows, and it fetches with `CHANGEDSINCE` that value: as long as the log resolves the
      state it noted, the messages it is sent are exactly the asked-for ones that `Email/changes`
      would have reported as created or updated. */
  method Refetch(fix: Fixture, account: Id, m: Id, uids: UidSet, cs: seq<Command>)
      returns (highest: nat, view: seq<Seen>, rows: seq<ImapMail.Fetched>)
    requires fix.Valid() && Servable(fix.Whole(), cs)
    requires RunServer(fix.Whole(), cs).st.emailSeq <= U64_MAX
    modifies fix, fix.logs.Values
    ensures fix.Valid() && fix.Whole() == RunServer(old(fix.Whole()), cs)
    ensures view == View(fix.View(), account, m)
    ensures var n, hist := |HistOf(old(fix.Hists()), account)|, HistOf(fix.Hists(), account);
            && highest == n + 1
            && (Resolves(hist, n) ==>
                  var delta := DeltaFrom(hist, n, EmailKind, Destroyed).value;
                  forall i :: 0 <= i < |view| ==>
                    (ImapMail.Fetched(i + 1, view[i], Modseq(hist, view[i].id)) in rows <==>
                       Matches(uids, view[i].uid) && (view[i].id in delta.created || view[i].id in delta.updated)))
  {
    hide Fits, ProperCommand, DeltaFrom, Kept, Fixture.LogsOk, RunServer, View, Modseq, Matches, LivesIn;
    ghost var start := fix.Whole();
    highest := fix.HighestModseq(account);
    Serve(fix, account, cs);
    view := ImapMail.MailboxMessages(fix, account, m);
    rows := ImapMail.FetchSnapshot(fix, account, m, uids, Some(highest));
    ghost var n, hist := |HistOf(start.hists, account)|, HistOf(fix.Hists(), account);
    if Resolves(hist, n) {
      DeltaSomeIff(hist, n);
      forall i | 0 <= i < |view|
        ensures var delta := DeltaFrom(hist, n, EmailKind, Destroyed).value;
                ImapMail.Fetched(i + 1, view[i], Modseq(hist, view[i].id)) in rows <==>
                Matches(uids, view[i].uid) && (view[i].id in delta.created || view[i].id in delta.updated)
      {
        ImapMail.ChangedRows(hist, view, uids, Some(highest), ImapMail.Fetched(i + 1, view[i], Modseq(hist, view[i].id)));
        ViewedLives(fix.View(), account, m, i);
        ChangedSinceOnRuns(start, cs, account, view[i].id);
      }
    }
  }

  lemma ViewedLives(st: Store, account: Id, m: Id, i: nat)
    requires i < |View(st, account, m)|
    ensures LivesIn(st, account, View(st, account, m)[i].id)
  {
    VisibleLives(st, account, Live(SlotsOf(st.ledger, m)), i);
  }

  lemma {:induction false} VisibleLives(st: Store, account: Id, seen: seq<Seen>, i: nat)
    requires i < |Visible(st, account, seen)|
    ensures LivesIn(st, account, Visible(st, account, seen)[i].id)
  {
    hide Lookup;
    if seen != [] {
      var front := Visible(st, account, seen[..|seen| - 1]);
      if i < |front| {
        VisibleLives(st, account, seen[..|seen| - 1], i);
      }
    }
  }

  /** QRESYNC, end to end (sections 3.1.4.1 and 3.2.5.2 of RFC 7162). A client that knew the mailbox
      and HIGHESTMODSEQ comes back after any run, selects with the UIDs it knows, strikes out
      what the `VANISHED (EARLIER)` line says, and fetches `1:*` with `CHANGEDSINCE`. As long as the log
      still reaches back that far it then knows the mailbox as it is now, exactly when no slot it was
      shown has outlived its email; under the ledger law none has. */
  method Resync(fix: Fixture, account: Id, m: Id, known: Option<UidSet>, cs: seq<Command>)
      returns (highest: nat, text: Option<string>, rows: seq<ImapMail.Fetched>)
    requires fix.Valid() && Servable(fix.Whole(), cs)
    requires RunServer(fix.Whole(), cs).st.emailSeq <= U64_MAX
    requires |SlotsOf(RunServer(fix.Whole(), cs).st.ledger, m)| <= U32_MAX
    requires known.Some? ==> forall uid :: Shown(fix.View(), account, m, uid) ==> Matches(known.value, uid)
    modifies fix, fix.logs.Values
    ensures fix.Valid() && fix.Whole() == RunServer(old(fix.Whole()), cs)
    ensures var n, hist := |HistOf(old(fix.Hists()), account)|, HistOf(fix.Hists(), account);
            var before, now := Shelf(old(fix.View()), account, m), Shelf(fix.View(), account, m);
            var after := Resynced(before, Heard(text, before.Keys), Sent(rows), now);
            && highest == n + 1
            && (Resolves(hist, n) && (n == 0 ==> |hist| <= MAX_TRANSITIONS) ==>
                  && (after == now <==> NothingStale(old(fix.View()), fix.View(), account, m))
                  && (LedgerOk(fix.View()) ==> after == now))
  {
    hide Fits, ProperCommand, Kept, Spent, Fixture.LogsOk, RunServer, View, Modseq, Matches, Shown, NothingStale, VanishedText, LedgerOk, Shelf, Resynced, Sent, Resolves, Says, HistOf;
    ghost var start := fix.Whole();
    highest := fix.HighestModseq(account);
    Serve(fix, account, cs);
    text := ImapMail.VanishedEarlier(fix, m, known);
    rows := ImapMail.FetchSnapshot(fix, account, m, [Range(1, None)], Some(highest));
    ghost var n, hist := |HistOf(start.hists, account)|, HistOf(fix.Hists(), account);
    ghost var before := Shelf(start.st, account, m);
    if Resolves(hist, n) && (n == 0 ==> |hist| <= MAX_TRANSITIONS) {
      RowsSent(fix.View(), account, m, hist, highest, rows);
      WhatIsHeard(start, cs, account, m, known, text);
      ResyncTheorem(start, cs, account, m, Heard(text, before.Keys), Sent(rows));
      if LedgerOk(fix.View()) {
        LawfulIsNotStale(start.st, fix.View(), account, m);
      }
    }
  }

  /** The UIDs, among those the client knew, that the line names. */
  ghost function Heard(text: Option<string>, known: set<nat>): set<nat> {
    set uid | uid in known && Says(text, uid)
  }

  ghost function Sent(rows: seq<ImapMail.Fetched>): set<nat> {
    set i | 0 <= i < |rows| :: rows[i].seen.uid
  }

  lemma WhatIsHeard(s: Server, cs: seq<Command>, account: Id, m: Id, known: Option<UidSet>, text: Option<string>)
    requires Kept(s.st) && Spent(s.st) && ProperRun(cs) && RunServer(s, cs).st.emailSeq <= U64_MAX
    requires |SlotsOf(RunServer(s, cs).st.ledger, m)| <= U32_MAX
    requires known.Some? ==> forall uid :: Shown(s.st, account, m, uid) ==> Matches(known.value, uid)
    requires text == VanishedText(SlotsOf(RunServer(s, cs).st.ledger, m), known)
    ensures var slots := SlotsOf(RunServer(s, cs).st.ledger, m);
            forall uid: nat :: Shown(s.st, account, m, uid) ==>
              (uid in Heard(text, Shelf(s.st, account, m).Keys) <==> uid <= |slots| && slots[uid - 1].None?)
  {
    hide ProperRun, Kept, Spent, RunServer, Matches, VanishedText, Says;
    var slots := SlotsOf(RunServer(s, cs).st.ledger, m);
    forall uid: nat | Shown(s.st, account, m, uid)
      ensures uid in Heard(text, Shelf(s.st, account, m).Keys) <==> uid <= |slots| && slots[uid - 1].None?
    {
      VanishedReadsBack(slots, known, uid);
    }
  }

  lemma RowsSent(st: Store, account: Id, m: Id, hist: seq<Diff>, highest: nat, rows: seq<ImapMail.Fetched>)
    requires rows == ImapMail.Changed(hist, View(st, account, m), [Range(1, None)], Some(highest))
    ensures forall uid :: uid in Sent(rows) <==>
              Shown(st, account, m, uid) && Modseq(hist, SlotsOf(st.ledger, m)[uid - 1].value) > highest
  {
    hide Modseq, Live, Visible, IsVisible;
    var all: UidSet := [Range(1, None)];
    var view := View(st, account, m);
    VisibleAre(st, account, Live(SlotsOf(st.ledger, m)));
    forall uid
      ensures uid in Sent(rows) <==>
                Shown(st, account, m, uid) && Modseq(hist, SlotsOf(st.ledger, m)[uid - 1].value) > highest
    {
      assert uid >= 1 ==> Covers(all[0], uid);
      if i :| 0 <= i < |rows| && rows[i].seen.uid == uid {
        assert rows[i] in rows;
        ImapMail.ChangedRows(hist, view, all, Some(highest), rows[i]);
        assert rows[i].seen in view;
      }
      if Shown(st, account, m, uid) && Modseq(hist, SlotsOf(st.ledger, m)[uid - 1].value) > highest {
        var s := Seen(uid, SlotsOf(st.ledger, m)[uid - 1].value);
        assert s in view;
        var k :| 0 <= k < |view| && view[k] == s;
        var row := ImapMail.Fetched(k + 1, s, Modseq(hist, s.id));
        ImapMail.ChangedRows(hist, view, all, Some(highest), row);
        assert row in rows;
      }
    }
  }

  /** IDLE, end to end (section 7.4.1 of RFC 3501). A client that knows the live UIDs it was shown in
      the selected mailbox goes idle, any run follows, and it applies the lines of the wake-up by
      position: what is left is a prefix of what it is shown now, RECENT counts the rest, and EXISTS,
      sent exactly when there is a rest, counts both. */
  method WakeUp(fix: Fixture, account: Id, m: Id, cs: seq<Command>) returns (last: seq<nat>, report: IdleReport, now: seq<nat>)
    requires fix.Valid() && Servable(fix.Whole(), cs) && RunServer(fix.Whole(), cs).st.emailSeq <= U64_MAX
    modifies fix, fix.logs.Values
    ensures fix.Valid() && fix.Whole() == RunServer(old(fix.Whole()), cs)
    ensures last == Uids(View(old(fix.View()), account, m)) && now == Uids(View(fix.View(), account, m))
    ensures var left := Views.Replay(last, report.expunges);
            && now == left + Arrivals(last, now)
            && report.recent == |now| - |left|
            && (report.exists_ == if left == now then None else Some(|left| + report.recent))
  {
    hide Fits, Kept, Spent, ProperCommand, Fixture.LogsOk, RunServer, RunStore, View, Uids, Idle, Views.Replay, Arrivals;
    ghost var start := fix.Whole();
    var before := ImapMail.MailboxMessages(fix, account, m);
    last := Uids(before);
    Serve(fix, account, cs);
    report, now := ImapMail.EmitIdleUpdates(fix, account, m, last);
    RunServerStore(start, cs);
    IdleOverRun(start.st, cs, account, m);
  }
}
