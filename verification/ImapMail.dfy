/** The IMAP commands: `UID STORE`, `UID COPY`, `UID MOVE` and `UID EXPUNGE` edit the fixture and
    report to the client; `UID FETCH (CHANGEDSINCE)`, QRESYNC and IDLE only read it. As on the JMAP
    side, every edit is proved to be one step of the server of Replay.dfy, and every report is
    proved to be the one whose replay Views.dfy describes. */
module ImapMail {
  import opened Basics
  import opened Sorting
  import opened Patches
  import opened Flags
  import opened Ledgers
  import opened ChangeLogs
  import opened UidSets
  import opened Stores
  import opened Upkeep
  import opened SpentSlots
  import opened Runs
  import opened Splits
  import opened Views
  import opened Replay
  import opened Fixtures
  import JmapMail

  // ----- Reading the ledger -----

  /** The live slots with their UIDs. */
  method LiveSlots(slots: Slots) returns (live: seq<Seen>)
    ensures live == Live(slots)
  {
    live := [];
    for i := 0 to |slots|
      invariant live == Live(slots[..i])
    {
      assert slots[..i + 1][..i] == slots[..i];
      if slots[i].Some? {
        live := live + [Seen(i + 1, slots[i].value)];
      }
    }
    assert slots[..|slots|] == slots;
  }

  /** `mailbox_messages`: the live slots whose email belongs to the account. */
  method MailboxMessages(fix: Fixture, account: Id, m: Id) returns (view: seq<Seen>)
    ensures view == View(fix.View(), account, m)
  {
    var live := LiveSlots(SlotsOf(fix.ledger, m));
    view := [];
    for i := 0 to |live|
      invariant view == Visible(fix.View(), account, live[..i])
    {
      assert live[..i + 1][..i] == live[..i];
      var e := Lookup(fix.emails, live[i].id);
      if e.Some? && e.value.account == account {
        view := view + [live[i]];
      }
    }
    assert live[..|live|] == live;
  }

  /** `expunged_uids`. */
  method ListExpunged(fix: Fixture, m: Id, known: Option<UidSet>) returns (uids: seq<nat>)
    ensures uids == ExpungedUids(SlotsOf(fix.ledger, m), known) && UidSets.StrictlyAscending(uids)
  {
    hide Matches, UidSets.StrictlyAscending;
    var slots := SlotsOf(fix.ledger, m);
    uids := [];
    for i := 0 to |slots|
      invariant uids == ExpungedUids(slots[..i], known)
    {
      assert slots[..i + 1][..i] == slots[..i];
      if slots[i].None? && (known.None? || Matches(known.value, i + 1)) {
        uids := uids + [i + 1];
      }
    }
    assert slots[..|slots|] == slots;
    ExpungedAscend(slots, known);
  }

  /** The `VANISHED (EARLIER)` line of a SELECT with QRESYNC. */
  method VanishedEarlier(fix: Fixture, m: Id, known: Option<UidSet>) returns (text: Option<string>)
    requires |SlotsOf(fix.ledger, m)| <= U32_MAX
    ensures text == VanishedText(SlotsOf(fix.ledger, m), known)
  {
    hide Matches, UidSets.StrictlyAscending, PrintRuns, UidSets.Runs;
    var gone := ListExpunged(fix, m, known);
    assert forall i :: 0 <= i < |gone| ==> gone[i] in gone;
    if gone == [] {
      return None;
    }
    var ranges := FormatUidRanges(gone);
    return Some(ranges);
  }

  datatype Fetched = Fetched(n: nat, seen: Seen, modseq: nat)

  /** The rows of a view that are asked for and changed after `since` (section 3.1.4.1 of RFC 7162);
      the sequence number is the position in the whole view. */
  function Changed(hist: seq<Diff>, view: seq<Seen>, uids: UidSet, since: Option<nat>): seq<Fetched> {
    if view == [] then [] else
      var front, last := Changed(hist, view[..|view| - 1], uids, since), view[|view| - 1];
      var modseq := Modseq(hist, last.id);
      if Matches(uids, last.uid) && (since.None? || modseq > since.value) then front + [Fetched(|view|, last, modseq)]
      else front
  }

  lemma {:induction false} ChangedRows(hist: seq<Diff>, view: seq<Seen>, uids: UidSet, since: Option<nat>, r: Fetched)
    ensures r in Changed(hist, view, uids, since) <==>
            && 1 <= r.n <= |view| && r.seen == view[r.n - 1] && r.modseq == Modseq(hist, r.seen.id)
            && Matches(uids, r.seen.uid) && (since.None? || r.modseq > since.value)
  {
    hide Modseq, Matches;
    if view != [] {
      var front := view[..|view| - 1];
      ChangedRows(hist, front, uids, since, r);
      assert 1 <= r.n <= |front| ==> front[r.n - 1] == view[r.n - 1];
    }
  }

  /** The snapshot of `UID FETCH`. */
  method FetchSnapshot(fix: Fixture, account: Id, m: Id, uids: UidSet, since: Option<nat>) returns (rows: seq<Fetched>)
    requires fix.LogsOk()
    ensures rows == Changed(HistOf(fix.Hists(), account), View(fix.View(), account, m), uids, since)
  {
    hide Matches, Modseq, View, Fixture.LogsOk, HistOf;
    var view := MailboxMessages(fix, account, m);
    ghost var hist := HistOf(fix.Hists(), account);
    rows := [];
    for i := 0 to |view|
      invariant rows == Changed(hist, view[..i], uids, since)
    {
      assert view[..i + 1][..i] == view[..i];
      if Matches(uids, view[i].uid) {
        var modseq := fix.EmailModseq(account, view[i].id);
        if since.None? || modseq > since.value {
          rows := rows + [Fetched(i + 1, view[i], modseq)];
        }
      }
    }
    assert view[..|view|] == view;
  }

  predicate Higher(a: nat, b: nat) {
    a >= b
  }

  /** The sequence numbers, in the view last reported, of what is gone; highest first. */
  method GoneLines(last: seq<nat>, now: seq<nat>) returns (lines: seq<nat>)
    ensures lines == Positions(last, Gone(last, now))
  {
    hide Gone;
    var expunged: seq<nat> := [];
    ghost var gone := Gone(last, now);
    assert last[..0] == [];
    for i := 0 to |last|
      invariant forall j :: 0 <= j < |expunged| ==> expunged[j] <= i
      invariant forall j, k :: 0 <= j < k < |expunged| ==> expunged[j] < expunged[k]
      invariant Reversed(expunged) == Positions(last[..i], gone)
    {
      assert last[..i + 1][..i] == last[..i];
      InGone(last, now, i);
      if last[i] !in now {
        assert (expunged + [i + 1])[..|expunged|] == expunged;
        expunged := expunged + [i + 1];
      }
    }
    assert last[..|last|] == last;
    SortReverses(expunged, Higher);
    lines := Sort(expunged, Higher);
  }

  lemma InGone(last: seq<nat>, now: seq<nat>, i: nat)
    requires i < |last|
    ensures last[i] in Gone(last, now) <==> last[i] !in now
  {
  }

  method NewArrivals(last: seq<nat>, now: seq<nat>) returns (arrivals: seq<nat>)
    ensures arrivals == Arrivals(last, now)
  {
    arrivals := [];
    for i := 0 to |now|
      invariant arrivals == Without(now[..i], Elems(last))
    {
      assert now[..i + 1] == now[..i] + [now[i]];
      WithoutSnoc(now[..i], now[i], Elems(last));
      if now[i] !in last {
        arrivals := arrivals + [now[i]];
      }
    }
    assert now[..|now|] == now;
  }

  /** `emit_idle_updates`: compare the view last reported with the view now. */
  method EmitIdleUpdates(fix: Fixture, account: Id, selected: Id, last: seq<nat>) returns (report: IdleReport, now: seq<nat>)
    ensures now == Uids(View(fix.View(), account, selected))
    ensures report == Idle(last, now)
  {
    var view := MailboxMessages(fix, account, selected);
    now := Uids(view);
    var lines := GoneLines(last, now);
    var arrivals := NewArrivals(last, now);
    report := IdleReport(lines, if |arrivals| > 0 then Some(|now|) else None, |arrivals|);
  }

  // ----- UID STORE -----

  function Flaggings(seen: seq<Seen>, op: StoreOp): (r: seq<Edit>)
    ensures |r| == |seen| && forall i :: 0 <= i < |r| ==> r[i] == Flag(seen[i].id, op)
  {
    seq(|seen|, i requires 0 <= i < |seen| => Flag(seen[i].id, op))
  }

  /** The indices of the emails that list the mailbox, in storage order: `UID STORE` takes the k-th
      of them for UID k. */
  method MailboxIndices(emails: seq<Email>, m: Id) returns (indices: seq<nat>)
    ensures |indices| == |StoreNumbered(emails, m)|
    ensures forall k :: 0 <= k < |indices| ==>
              indices[k] < |emails| && StoreNumbered(emails, m)[k] == Seen(k + 1, emails[indices[k]].id)
    ensures forall j, k :: 0 <= j < k < |indices| ==> indices[j] < indices[k]
  {
    indices := [];
    for i := 0 to |emails|
      invariant |indices| == |StoreNumbered(emails[..i], m)|
      invariant forall k :: 0 <= k < |indices| ==>
                  indices[k] < i && StoreNumbered(emails[..i], m)[k] == Seen(k + 1, emails[indices[k]].id)
      invariant forall j, k :: 0 <= j < k < |indices| ==> indices[j] < indices[k]
    {
      assert emails[..i + 1][..i] == emails[..i];
      if m in emails[i].mailboxIds {
        indices := indices + [i];
      }
    }
    assert emails[..|emails|] == emails;
  }

  ghost predicate SameIds(a: seq<Email>, b: seq<Email>) {
    |a| == |b| && forall i :: 0 <= i < |a| ==> a[i].id == b[i].id
  }

  lemma IndexOfSame(emails: seq<Email>, now: seq<Email>, i: nat)
    requires UniqueIds(emails) && SameIds(emails, now) && i < |emails|
    ensures IndexOf(now, emails[i].id) == i
  {
  }

  /** One message of `UID STORE`, edited in place. */
  method FlagOne(fix: Fixture, i: nat, op: StoreOp, log: Touched) returns (log': Touched)
    requires i < |fix.emails| && IndexOf(fix.emails, fix.emails[i].id) == i
    modifies fix`emails
    ensures Work(fix.View(), log') == Do(Work(old(fix.View()), log), Flag(old(fix.emails[i].id), op))
    ensures SameIds(old(fix.emails), fix.emails)
    ensures forall j :: 0 <= j < |fix.emails| && j != i ==> fix.emails[j] == old(fix.emails[j])
  {
    hide KeywordsAfter, Changes, IndexOf;
    var e := fix.emails[i];
    var keywords, changed := ApplyInPlace(op, e.keywords);
    fix.emails := fix.emails[i := e.(keywords := keywords)];
    log' := log;
    if changed {
      log' := log.(updated := log.updated + [e.id]);
    }
  }

  lemma SelectedSnoc(seen: seq<Seen>, k: nat, uids: UidSet)
    requires k < |seen|
    ensures Selected(seen[..k + 1], uids) ==
            if Matches(uids, seen[k].uid) then Selected(seen[..k], uids) + [seen[k]] else Selected(seen[..k], uids)
  {
    hide Matches;
    assert seen[..k + 1][..k] == seen[..k];
  }

  lemma FlagStep(w: Work, front: seq<Seen>, s: Seen, op: StoreOp)
    ensures DoAll(w, Flaggings(front + [s], op)) == Do(DoAll(w, Flaggings(front, op)), Flag(s.id, op))
  {
    hide Do;
    assert Flaggings(front + [s], op) == Flaggings(front, op) + [Flag(s.id, op)];
    JmapMail.DoAllSnoc(w, Flaggings(front, op), Flag(s.id, op));
  }

  lemma FlagsAreStore(st: Store, selected: Id, uids: UidSet, op: StoreOp)
    ensures DoAll(Work(st, UNTOUCHED), Flaggings(Selected(StoreNumbered(st.emails, selected), uids), op)) ==
            Exec(st, UidStore(selected, uids, op))
  {
    hide Selected, StoreNumbered, DoAll;
    assert Flaggings(Selected(StoreNumbered(st.emails, selected), uids), op) == Edits(st, UidStore(selected, uids, op));
  }

  /** An untagged FETCH of `UID STORE`: its number stands for both sequence number and UID. */
  datatype FlagLine = FlagLine(n: nat, flags: string)

  /** One line for each addressed message, with the flags it has in `emails`. */
  ghost predicate Tell(emails: seq<Email>, addressed: seq<Seen>, lines: seq<FlagLine>) {
    && |lines| == |addressed|
    && forall i :: 0 <= i < |lines| ==>
         var e := Lookup(emails, addressed[i].id);
         e.Some? && lines[i] == FlagLine(addressed[i].uid, FlagsFor(e.value.keywords))
  }

  /** The lines so far, by the places of their emails in the list. */
  ghost predicate TellAt(emails: seq<Email>, addressed: seq<Seen>, lines: seq<FlagLine>, at: seq<nat>) {
    && |lines| == |addressed| == |at|
    && forall i :: 0 <= i < |at| ==>
         && at[i] < |emails| && emails[at[i]].id == addressed[i].id
         && lines[i] == FlagLine(addressed[i].uid, FlagsFor(emails[at[i]].keywords))
  }

  lemma TellByPlace(emails: seq<Email>, addressed: seq<Seen>, lines: seq<FlagLine>, at: seq<nat>)
    requires UniqueIds(emails) && TellAt(emails, addressed, lines, at)
    ensures Tell(emails, addressed, lines)
  {
    hide FlagsFor, Lookup, UniqueIds;
    forall i | 0 <= i < |at| {
      LookupAt(emails, at[i]);
    }
  }

  lemma SameUnique(a: seq<Email>, b: seq<Email>)
    requires UniqueIds(a) && SameIds(a, b)
    ensures UniqueIds(b)
  {
  }

  lemma NothingTold(emails: seq<Email>, op: StoreOp)
    ensures TellAt(emails, [], [], []) && Flaggings([], op) == []
  {
  }

  lemma TellStep(was: seq<Email>, now: seq<Email>, addressed: seq<Seen>, lines: seq<FlagLine>, at: seq<nat>, place: nat, s: Seen)
    requires TellAt(was, addressed, lines, at) && (forall i :: 0 <= i < |at| ==> at[i] < place)
    requires |now| == |was| && place < |now| && now[place].id == s.id
    requires forall j :: 0 <= j < |now| && j != place ==> now[j] == was[j]
    ensures TellAt(now, addressed + [s], lines + [FlagLine(s.uid, FlagsFor(now[place].keywords))], at + [place])
  {
    hide FlagsFor;
  }

  method FlagAll(fix: Fixture, selected: Id, uids: UidSet, op: StoreOp) returns (log: Touched, lines: seq<FlagLine>)
    requires UniqueIds(fix.emails)
    modifies fix`emails
    ensures Work(fix.View(), log) == Exec(old(fix.View()), UidStore(selected, uids, op))
    ensures Tell(fix.emails, Selected(StoreNumbered(old(fix.emails), selected), uids), lines)
  {
    hide Do, DoAll, Exec, Matches, Selected, StoreNumbered, IndexOf, UniqueIds, FlagsFor, Tell, TellAt, Flaggings;
    ghost var st := fix.View();
    ghost var w := Work(st, UNTOUCHED);
    ghost var seen := StoreNumbered(st.emails, selected);
    ghost var at: seq<nat> := [];
    var indices := MailboxIndices(fix.emails, selected);
    log, lines := UNTOUCHED, [];
    NoneSelected(seen[..0], uids);
    NoEdits(w);
    NothingTold(fix.emails, op);
    for k := 0 to |indices|
      invariant SameIds(st.emails, fix.emails)
      invariant Work(fix.View(), log) == DoAll(w, Flaggings(Selected(seen[..k], uids), op))
      invariant TellAt(fix.emails, Selected(seen[..k], uids), lines, at)
      invariant forall i :: 0 <= i < |at| ==> k < |indices| ==> at[i] < indices[k]
    {
      SelectedSnoc(seen, k, uids);
      if Matches(uids, k + 1) {
        IndexOfSame(st.emails, fix.emails, indices[k]);
        FlagStep(w, Selected(seen[..k], uids), seen[k], op);
        ghost var was, told := fix.emails, lines;
        log := FlagOne(fix, indices[k], op, log);
        TellStep(was, fix.emails, Selected(seen[..k], uids), told, at, indices[k], seen[k]);
        lines := lines + [FlagLine(k + 1, FlagsFor(fix.emails[indices[k]].keywords))];
        at := at + [indices[k]];
      }
    }
    assert seen[..|seen|] == seen;
    FlagsAreStore(st, selected, uids, op);
    SameUnique(st.emails, fix.emails);
    TellByPlace(fix.emails, Selected(seen, uids), lines, at);
  }

  lemma NoEdits(w: Work)
    ensures DoAll(w, []) == w
  {
  }

  lemma NoneSelected(seen: seq<Seen>, uids: UidSet)
    requires seen == []
    ensures Selected(seen, uids) == []
  {
  }

  /** `UID STORE`. Unless it is silent, every addressed message is reported with the flags it has now. */
  method StoreMessages(fix: Fixture, selected: Id, uids: UidSet, op: StoreOp, silent: bool) returns (lines: seq<FlagLine>)
    requires fix.Valid() && fix.Room() && fix.emailSeq <= U64_MAX
    modifies fix, fix.logs.Values
    ensures fix.Valid() && fresh(fix.logs.Values - old(fix.logs.Values))
    ensures fix.Whole() == Step(old(fix.Whole()), UidStore(selected, uids, op))
    ensures if silent then lines == [] else Tell(fix.emails, Selected(StoreNumbered(old(fix.emails), selected), uids), lines)
  {
    hide Do, Edits, Kept, Spent, Fixture.LogsOk, Fixture.Room, Step, Tell;
    ghost var before := fix.Whole();
    KeptUnique(before.st);
    var log;
    log, lines := FlagAll(fix, selected, uids, op);
    fix.Commit(log, before, UidStore(selected, uids, op));
    if silent {
      lines := [];
    }
  }

  // ----- UID COPY -----

  method CopyOne(fix: Fixture, id: Id, target: Id, log: Touched) returns (log': Touched)
    modifies fix`emails, fix`ledger
    ensures Work(fix.View(), log') == Do(Work(old(fix.View()), log), Copy(id, target))
  {
    hide Assign, IndexOf;
    log' := log;
    var i := IndexOf(fix.emails, id);
    if i < |fix.emails| {
      var e := fix.emails[i];
      if target !in e.mailboxIds {
        fix.emails := fix.emails[i := e.(mailboxIds := e.mailboxIds + [target])];
        log' := log.(updated := log.updated + [e.id]);
        var _ := fix.AssignUid(target, id);
      }
    }
  }

  lemma CopyStep(w: Work, front: seq<Seen>, s: Seen, target: Id)
    ensures DoAll(w, Copies(front + [s], target)) == Do(DoAll(w, Copies(front, target)), Copy(s.id, target))
  {
    hide Do;
    assert Copies(front + [s], target) == Copies(front, target) + [Copy(s.id, target)];
    JmapMail.DoAllSnoc(w, Copies(front, target), Copy(s.id, target));
  }

  lemma CopiesAreCopy(st: Store, selected: Id, uids: UidSet, target: Id)
    ensures DoAll(Work(st, UNTOUCHED), Copies(Selected(Live(SlotsOf(st.ledger, selected)), uids), target)) ==
            Exec(st, UidCopy(selected, uids, Some(target)))
  {
    hide Selected, Live, DoAll, SlotsOf;
    assert Copies(Selected(Live(SlotsOf(st.ledger, selected)), uids), target) == Edits(st, UidCopy(selected, uids, Some(target)));
  }

  method CopyAll(fix: Fixture, selected: Id, uids: UidSet, target: Id) returns (log: Touched)
    modifies fix`emails, fix`ledger
    ensures Work(fix.View(), log) == Exec(old(fix.View()), UidCopy(selected, uids, Some(target)))
  {
    hide Do, DoAll, Exec, Matches, Selected, Live;
    ghost var st := fix.View();
    ghost var w := Work(st, UNTOUCHED);
    var live := LiveSlots(SlotsOf(fix.ledger, selected));
    log := UNTOUCHED;
    NoneSelected(live[..0], uids);
    NoEdits(w);
    assert Copies([], target) == [];
    for k := 0 to |live|
      invariant Work(fix.View(), log) == DoAll(w, Copies(Selected(live[..k], uids), target))
    {
      SelectedSnoc(live, k, uids);
      if Matches(uids, live[k].uid) {
        CopyStep(w, Selected(live[..k], uids), live[k], target);
        log := CopyOne(fix, live[k].id, target, log);
      }
    }
    assert live[..|live|] == live;
    CopiesAreCopy(st, selected, uids, target);
  }

  /** A command without edits is not recorded. */
  lemma NothingDone(s: Server, c: Command)
    requires Edits(s.st, c) == [] && !c.Elsewhere?
    ensures Step(s, c) == s
  {
    hide Edits, Do;
    JmapMail.NothingRecordedBy(s.hists, DirectoryOf(s.st));
  }

  /** `UID COPY`; a target name that does not resolve (`None`) answers NO and changes nothing. */
  method CopyMessages(fix: Fixture, selected: Id, uids: UidSet, target: Option<Id>) returns (ok: bool)
    requires fix.Valid() && fix.Room() && fix.emailSeq <= U64_MAX
    modifies fix, fix.logs.Values
    ensures fix.Valid() && fresh(fix.logs.Values - old(fix.logs.Values))
    ensures fix.Whole() == Step(old(fix.Whole()), UidCopy(selected, uids, target))
    ensures ok <==> target.Some?
  {
    hide Do, Kept, Spent, Selected, Fixture.LogsOk, Fixture.Room, Step;
    ghost var before := fix.Whole();
    ok := target.Some?;
    if ok {
      var log := CopyAll(fix, selected, uids, target.value);
      fix.Commit(log, before, UidCopy(selected, uids, target));
    } else {
      NothingDone(before, UidCopy(selected, uids, target));
    }
  }

  // ----- Rows: live messages with their sequence numbers -----

  datatype Row = Row(n: nat, seen: Seen)

  /** The rows of the live view that are in `picked`, lowest sequence number first. */
  function RowsOf(live: seq<Seen>, picked: set<Seen>): (r: seq<Row>)
    ensures forall i :: 0 <= i < |r| ==> 1 <= r[i].n <= |live| && live[r[i].n - 1] == r[i].seen
    ensures forall i, j :: 0 <= i < j < |r| ==> r[i].n < r[j].n
  {
    if live == [] then [] else
      var front, last := RowsOf(live[..|live| - 1], picked), live[|live| - 1];
      if last in picked then front + [Row(|live|, last)] else front
  }

  function Numbers(rows: seq<Row>): (r: seq<nat>)
    ensures |r| == |rows| && forall i :: 0 <= i < |r| ==> r[i] == rows[i].n
  {
    seq(|rows|, i requires 0 <= i < |rows| => rows[i].n)
  }

  function SeenOf(rows: seq<Row>): (r: seq<Seen>)
    ensures |r| == |rows| && forall i :: 0 <= i < |r| ==> r[i] == rows[i].seen
  {
    seq(|rows|, i requires 0 <= i < |rows| => rows[i].seen)
  }

  lemma RowsSnoc(live: seq<Seen>, k: nat, picked: set<Seen>)
    requires k < |live|
    ensures RowsOf(live[..k + 1], picked) ==
            if live[k] in picked then RowsOf(live[..k], picked) + [Row(k + 1, live[k])] else RowsOf(live[..k], picked)
  {
    assert live[..k + 1][..k] == live[..k];
  }

  lemma {:induction false} RowsPosition(live: seq<Seen>, picked: set<Seen>)
    ensures Reversed(Numbers(RowsOf(live, picked))) == Positions(live, picked)
  {
    if live != [] {
      var front := RowsOf(live[..|live| - 1], picked);
      RowsPosition(live[..|live| - 1], picked);
      var rows := RowsOf(live, picked);
      if live[|live| - 1] in picked {
        assert Numbers(rows)[..|rows| - 1] == Numbers(front);
      }
    }
  }

  lemma {:induction false} RowsSelected(live: seq<Seen>, uids: UidSet, picked: set<Seen>)
    requires forall s :: s in live ==> (s in picked <==> Matches(uids, s.uid))
    ensures SeenOf(RowsOf(live, picked)) == Selected(live, uids)
  {
    hide Matches;
    if live != [] {
      var front := live[..|live| - 1];
      assert live == front + [live[|live| - 1]];
      RowsSelected(front, uids, picked);
      var rows := RowsOf(front, picked);
      assert SeenOf(rows + [Row(|live|, live[|live| - 1])]) == SeenOf(rows) + [live[|live| - 1]];
    }
  }

  lemma ReversedSnoc<T>(s: seq<T>, x: T)
    ensures Reversed(s + [x]) == [x] + Reversed(s)
  {
    assert (s + [x])[..|s|] == s;
  }

  lemma SeenSnoc(rows: seq<Row>, row: Row)
    ensures SeenOf(rows + [row]) == SeenOf(rows) + [row.seen]
  {
  }

  lemma VictimsSnoc(st: Store, seen: seq<Seen>, last: Seen)
    ensures Victims(st, seen + [last]) == if IsDeleted(st.emails, last.id) then [last] + Victims(st, seen) else Victims(st, seen)
  {
    hide IsDeleted;
    assert (seen + [last])[..|seen|] == seen;
  }

  lemma {:induction false} RowsVictims(st: Store, live: seq<Seen>, uids: UidSet, picked: set<Seen>)
    requires forall i :: 0 <= i < |live| ==> (live[i] in picked <==> Matches(uids, live[i].uid) && IsDeleted(st.emails, live[i].id))
    ensures Reversed(SeenOf(RowsOf(live, picked))) == Victims(st, Selected(live, uids))
  {
    hide Matches, IsDeleted, Victims, Reversed, Selected, RowsOf;
    if live == [] {
      NoRows(st, uids, picked);
    } else {
      var k := |live| - 1;
      var front, last := live[..k], live[k];
      assert live == live[..k + 1];
      RowsVictims(st, front, uids, picked);
      RowsSnoc(live, k, picked);
      SelectedSnoc(live, k, uids);
      SeenSnoc(RowsOf(front, picked), Row(k + 1, last));
      ReversedSnoc(SeenOf(RowsOf(front, picked)), last);
      VictimsSnoc(st, Selected(front, uids), last);
    }
  }

  lemma NoRows(st: Store, uids: UidSet, picked: set<Seen>)
    ensures Reversed(SeenOf(RowsOf([], picked))) == Victims(st, Selected([], uids))
  {
  }

  predicate HigherRow(a: Row, b: Row) {
    a.n >= b.n
  }

  lemma {:induction false} ReversedFields(rows: seq<Row>)
    ensures Numbers(Reversed(rows)) == Reversed(Numbers(rows))
    ensures SeenOf(Reversed(rows)) == Reversed(SeenOf(rows))
  {
    if rows != [] {
      var front := rows[..|rows| - 1];
      ReversedFields(front);
      assert Numbers(rows)[..|rows| - 1] == Numbers(front);
      assert SeenOf(rows)[..|rows| - 1] == SeenOf(front);
    }
  }

  // ----- UID EXPUNGE -----

  /** One victim: drop the membership and the slot; an email left without a mailbox goes entirely. */
  method ExpungeOne(fix: Fixture, id: Id, selected: Id, log: Touched) returns (log': Touched)
    modifies fix`emails, fix`ledger
    ensures Work(fix.View(), log') == Do(Work(old(fix.View()), log), Expunge(id, selected))
  {
    hide Retire, IndexOf, Without;
    log' := log;
    var i := IndexOf(fix.emails, id);
    if i < |fix.emails| {
      var e := fix.emails[i];
      var rest := Without(e.mailboxIds, {selected});
      fix.emails := fix.emails[i := e.(mailboxIds := rest)];
      fix.RetireUid(selected, id);
      if rest == [] {
        fix.emails := fix.emails[..i] + fix.emails[i + 1..];
        assert fix.emails == old(fix.emails)[..i] + old(fix.emails)[i + 1..];
        log' := log.(destroyed := log.destroyed + [id], sidecar := log.sidecar + [e.account]);
      } else {
        log' := log.(updated := log.updated + [id]);
      }
    }
  }

  /** The victims with their sequence numbers, highest first. */
  method FindVictims(fix: Fixture, selected: Id, uids: UidSet) returns (victims: seq<Row>)
    ensures SeenOf(victims) == ExpungedBy(fix.View(), selected, uids)
    ensures Numbers(victims) == ExpungeLines(fix.View(), selected, uids)
  {
    hide Matches, IsDeleted, Live, Positions, Selected, Victims;
    ghost var st := fix.View();
    var live := LiveSlots(SlotsOf(fix.ledger, selected));
    ghost var picked := Elems(ExpungedBy(st, selected, uids));
    victims := [];
    for k := 0 to |live|
      invariant victims == RowsOf(live[..k], picked)
    {
      RowsSnoc(live, k, picked);
      if Matches(uids, live[k].uid) && IsDeleted(fix.emails, live[k].id) {
        victims := victims + [Row(k + 1, live[k])];
      }
    }
    assert live[..|live|] == live;
    SortReverses(victims, HigherRow);
    ReversedFields(victims);
    RowsPosition(live, picked);
    RowsVictims(st, live, uids, picked);
    victims := Sort(victims, HigherRow);
  }

  method ExpungeAll(fix: Fixture, selected: Id, uids: UidSet) returns (log: Touched, lines: seq<nat>)
    modifies fix`emails, fix`ledger
    ensures Work(fix.View(), log) == Exec(old(fix.View()), UidExpunge(selected, uids))
    ensures lines == ExpungeLines(old(fix.View()), selected, uids)
  {
    hide Do, ExpungedBy, ExpungeLines;
    ghost var st := fix.View();
    ghost var w := Work(st, UNTOUCHED);
    var victims := FindVictims(fix, selected, uids);
    lines := Numbers(victims);
    log := UNTOUCHED;
    for k := 0 to |victims|
      invariant Work(fix.View(), log) == DoAll(w, Expunges(SeenOf(victims[..k]), selected))
    {
      var id := victims[k].seen.id;
      JmapMail.DoAllSnoc(w, Expunges(SeenOf(victims[..k]), selected), Expunge(id, selected));
      assert Expunges(SeenOf(victims[..k + 1]), selected) == Expunges(SeenOf(victims[..k]), selected) + [Expunge(id, selected)];
      log := ExpungeOne(fix, id, selected, log);
    }
    assert victims[..|victims|] == victims;
    ExpungeEdits(st, selected, uids);
  }

  /** `UID EXPUNGE`, with the EXPUNGE lines in the order they are written. */
  method ExpungeMessages(fix: Fixture, selected: Id, uids: UidSet) returns (lines: seq<nat>)
    requires fix.Valid() && fix.Room() && fix.emailSeq <= U64_MAX
    modifies fix, fix.logs.Values
    ensures fix.Valid() && fresh(fix.logs.Values - old(fix.logs.Values))
    ensures fix.Whole() == Step(old(fix.Whole()), UidExpunge(selected, uids))
    ensures lines == ExpungeLines(old(fix.View()), selected, uids)
  {
    hide Do, Kept, Spent, Edits, ExpungeLines, Fixture.LogsOk, Fixture.Room, Step;
    ghost var before := fix.Whole();
    var log;
    log, lines := ExpungeAll(fix, selected, uids);
    fix.Commit(log, before, UidExpunge(selected, uids));
  }

  // ----- UID MOVE -----

  /** The matched messages the store still holds. */
  function Present(emails: seq<Email>, rows: seq<Row>): seq<Row> {
    if rows == [] then [] else
      var front, last := Present(emails, rows[..|rows| - 1]), rows[|rows| - 1];
      if Lookup(emails, last.seen.id).Some? then front + [last] else front
  }

  lemma {:induction false} PresentSeen(emails: seq<Email>, rows: seq<Row>)
    ensures SeenOf(Present(emails, rows)) == Stored(emails, SeenOf(rows))
  {
    hide Lookup;
    if rows != [] {
      var front, last := rows[..|rows| - 1], rows[|rows| - 1];
      PresentSeen(emails, front);
      assert SeenOf(rows)[..|rows| - 1] == SeenOf(front);
      SeenSnoc(Present(emails, front), last);
    }
  }

  lemma {:induction false} PresentRows(emails: seq<Email>, live: seq<Seen>, picked: set<Seen>, stored: set<Seen>)
    requires forall s :: s in stored <==> s in picked && Lookup(emails, s.id).Some?
    ensures Present(emails, RowsOf(live, picked)) == RowsOf(live, stored)
  {
    hide Lookup, RowsOf;
    if live == [] {
      NoRow(picked);
      NoRow(stored);
    } else {
      var k := |live| - 1;
      assert live == live[..k + 1];
      PresentRows(emails, live[..k], picked, stored);
      RowsSnoc(live, k, picked);
      RowsSnoc(live, k, stored);
      var front := RowsOf(live[..k], picked);
      assert (front + [Row(k + 1, live[k])])[..|front|] == front;
    }
  }

  lemma NoRow(picked: set<Seen>)
    ensures RowsOf([], picked) == []
  {
  }

  /** One message: it joins the target, with a fresh UID, before it leaves the source. */
  method MoveOne(fix: Fixture, id: Id, selected: Id, target: Id, log: Touched) returns (log': Touched, dst: Option<nat>)
    requires target != selected
    modifies fix`emails, fix`ledger
    ensures Work(fix.View(), log') == Do(Work(old(fix.View()), log), Move(id, selected, target))
    ensures SameIds(old(fix.emails), fix.emails)
    ensures dst.Some? <==> Lookup(old(fix.emails), id).Some?
    ensures dst.Some? ==> dst.value == UidNext(old(fix.ledger), target) && UidNext(fix.ledger, target) == dst.value + 1
    ensures dst.None? ==> fix.ledger == old(fix.ledger)
  {
    hide IndexOf, Include, Without;
    log', dst := log, None;
    var i := IndexOf(fix.emails, id);
    if i < |fix.emails| {
      var e := fix.emails[i];
      var joined := Include(e.mailboxIds, target);
      fix.emails := fix.emails[i := e.(mailboxIds := joined)];
      var uid := fix.AssignUid(target, id);
      fix.emails := fix.emails[i := e.(mailboxIds := Without(joined, {selected}))];
      fix.RetireUid(selected, id);
      dst := Some(uid);
      log' := log.(updated := log.updated + [id]);
    }
  }

  lemma SameLookup(a: seq<Email>, b: seq<Email>, id: Id)
    requires SameIds(a, b)
    ensures Lookup(a, id).Some? <==> Lookup(b, id).Some?
  {
    var i, j := IndexOf(a, id), IndexOf(b, id);
  }

  predicate LowerUid(a: Row, b: Row) {
    a.seen.uid <= b.seen.uid
  }

  /** The matched messages with their sequence numbers, lowest UID first. */
  method FindMatched(fix: Fixture, selected: Id, uids: UidSet) returns (rows: seq<Row>)
    ensures SeenOf(rows) == Matched(fix.View(), selected, uids)
    ensures rows == RowsOf(Live(SlotsOf(fix.ledger, selected)), Elems(Matched(fix.View(), selected, uids)))
  {
    hide Matches, Live, Selected, Ascending;
    ghost var st := fix.View();
    var live := LiveSlots(SlotsOf(fix.ledger, selected));
    ghost var picked := Elems(Matched(st, selected, uids));
    rows := [];
    for k := 0 to |live|
      invariant rows == RowsOf(live[..k], picked)
    {
      RowsSnoc(live, k, picked);
      if Matches(uids, live[k].uid) {
        rows := rows + [Row(k + 1, live[k])];
      }
    }
    assert live[..|live|] == live;
    LiveAscends(SlotsOf(fix.ledger, selected));
    RowsAscend(live, picked);
    SortOfSorted(rows, LowerUid);
    RowsSelected(live, uids, picked);
    rows := Sort(rows, LowerUid);
  }

  lemma RowsAscend(live: seq<Seen>, picked: set<Seen>)
    requires Ascending(live)
    ensures Sorted(RowsOf(live, picked), LowerUid)
  {
  }

  datatype MoveReport = MoveReport(sources: seq<nat>, targets: seq<nat>, lines: seq<nat>)

  lemma MoveStep(w: Work, rows: seq<Row>, k: nat, selected: Id, target: Id)
    requires k < |rows|
    ensures DoAll(w, Moves(SeenOf(rows[..k + 1]), selected, target)) ==
            Do(DoAll(w, Moves(SeenOf(rows[..k]), selected, target)), Move(rows[k].seen.id, selected, target))
  {
    hide Do;
    var front := Moves(SeenOf(rows[..k]), selected, target);
    assert Moves(SeenOf(rows[..k + 1]), selected, target) == front + [Move(rows[k].seen.id, selected, target)];
    JmapMail.DoAllSnoc(w, front, Move(rows[k].seen.id, selected, target));
  }

  lemma NonePresent(emails: seq<Email>)
    ensures Present(emails, []) == []
  {
  }

  lemma PresentStep(emails: seq<Email>, rows: seq<Row>, k: nat)
    requires k < |rows|
    ensures var front := Present(emails, rows[..k]);
            Present(emails, rows[..k + 1]) == if Lookup(emails, rows[k].seen.id).Some? then front + [rows[k]] else front
  {
    hide Lookup;
    assert rows[..k + 1][..k] == rows[..k];
  }

  /** The loop of `UID MOVE`: the moved rows come back with the UIDs they were given. */
  method MoveRows(fix: Fixture, selected: Id, target: Id, rows: seq<Row>)
      returns (log: Touched, ghost moved: seq<Row>, sources: seq<nat>, targets: seq<nat>, numbers: seq<nat>)
    requires target != selected
    modifies fix`emails, fix`ledger
    ensures Work(fix.View(), log) == DoAll(Work(old(fix.View()), UNTOUCHED), Moves(SeenOf(rows), selected, target))
    ensures moved == Present(old(fix.emails), rows)
    ensures sources == Uids(SeenOf(moved)) && numbers == Numbers(moved)
    ensures |targets| == |moved|
    ensures forall j :: 0 <= j < |targets| ==> targets[j] == UidNext(old(fix.ledger), target) + j
  {
    hide Do, DoAll, Lookup, SlotsOf, Present, Moves;
    ghost var st := fix.View();
    ghost var w := Work(st, UNTOUCHED);
    log := UNTOUCHED;
    moved := [];
    sources, targets, numbers := [], [], [];
    NoEdits(w);
    NonePresent(st.emails);
    assert rows[..0] == [] && Moves(SeenOf([]), selected, target) == [];
    for k := 0 to |rows|
      invariant SameIds(st.emails, fix.emails)
      invariant Work(fix.View(), log) == DoAll(w, Moves(SeenOf(rows[..k]), selected, target))
      invariant moved == Present(st.emails, rows[..k])
      invariant sources == Uids(SeenOf(moved)) && numbers == Numbers(moved)
      invariant |targets| == |moved| && forall j :: 0 <= j < |targets| ==> targets[j] == UidNext(st.ledger, target) + j
      invariant UidNext(fix.ledger, target) == UidNext(st.ledger, target) + |targets|
    {
      var row := rows[k];
      MoveStep(w, rows, k, selected, target);
      PresentStep(st.emails, rows, k);
      SameLookup(st.emails, fix.emails, row.seen.id);
      var dst;
      log, dst := MoveOne(fix, row.seen.id, selected, target, log);
      if dst.Some? {
        moved := moved + [row];
        sources := sources + [row.seen.uid];
        targets := targets + [dst.value];
        numbers := numbers + [row.n];
      }
    }
    assert rows[..|rows|] == rows;
  }

  /** The COPYUID lists correspond by position; the EXPUNGE numbers are sorted, highest first. */
  method MoveAll(fix: Fixture, selected: Id, uids: UidSet, target: Id) returns (log: Touched, report: MoveReport)
    requires target != selected
    modifies fix`emails, fix`ledger
    ensures Work(fix.View(), log) == Exec(old(fix.View()), UidMove(selected, uids, Some(target)))
    ensures Reports(old(fix.View()), selected, uids, target, report)
  {
    hide Do, DoAll, Lookup, Matched, SlotsOf, Present, Sort, RowsOf, Positions, Stored, MoveLines, Live;
    ghost var st := fix.View();
    var rows := FindMatched(fix, selected, uids);
    var sources, targets, numbers;
    ghost var moved;
    log, moved, sources, targets, numbers := MoveRows(fix, selected, target, rows);
    MovesOfMatched(st, selected, uids, target);
    ghost var live, picked := Live(SlotsOf(st.ledger, selected)), Matched(st, selected, uids);
    PresentSeen(st.emails, rows);
    PresentRows(st.emails, live, Elems(picked), Elems(Stored(st.emails, picked)));
    RowsPosition(live, Elems(Stored(st.emails, picked)));
    SortReverses(numbers, Higher);
    MoveLinesAre(st, selected, uids);
    report := MoveReport(sources, targets, Sort(numbers, Higher));
  }

  lemma MoveLinesAre(st: Store, selected: Id, uids: UidSet)
    ensures MoveLines(st, selected, uids) ==
            Positions(Live(SlotsOf(st.ledger, selected)), Elems(Stored(st.emails, Matched(st, selected, uids))))
  {
  }

  /** The report of a carried-out `UID MOVE`: the UIDs of the matched messages that are stored, the run
      of UIDs they were given, and their sequence numbers, highest first. */
  ghost predicate Reports(st: Store, selected: Id, uids: UidSet, target: Id, report: MoveReport) {
    var moved := Stored(st.emails, Matched(st, selected, uids));
    && report.sources == Uids(moved)
    && |report.targets| == |moved| && (forall j :: 0 <= j < |moved| ==> report.targets[j] == UidNext(st.ledger, target) + j)
    && report.lines == MoveLines(st, selected, uids)
  }

  lemma NowhereToMove(st: Store, c: Command)
    requires c.UidMove? && (c.target.None? || c.target.value == c.selected)
    ensures Edits(st, c) == []
  {
  }

  /** `UID MOVE`. An unknown target answers NO; moving into the selected mailbox does nothing; under
      the ledger law the report is the one that Clients.dfy replays. */
  method MoveMessages(fix: Fixture, selected: Id, uids: UidSet, target: Option<Id>) returns (ok: bool, report: MoveReport)
    requires fix.Valid() && fix.Room() && fix.emailSeq <= U64_MAX
    modifies fix, fix.logs.Values
    ensures fix.Valid() && fresh(fix.logs.Values - old(fix.logs.Values))
    ensures fix.Whole() == Step(old(fix.Whole()), UidMove(selected, uids, target))
    ensures ok <==> target.Some?
    ensures target.None? || target.value == selected ==> report == MoveReport([], [], [])
    ensures target.Some? && target.value != selected ==> Reports(old(fix.View()), selected, uids, target.value, report)
    ensures target.Some? && target.value != selected && old(LedgerOk(fix.View())) ==>
              && report.sources == Uids(Matched(old(fix.View()), selected, uids))
              && report.lines == MoveLines(old(fix.View()), selected, uids)
  {
    hide Do, Exec, Edits, Kept, Spent, LedgerOk, Matched, Lookup, SlotsOf, Positions, Stored, Fixture.LogsOk, Fixture.Room, Step;
    ghost var before := fix.Whole();
    ghost var c := UidMove(selected, uids, target);
    ok, report := target.Some?, MoveReport([], [], []);
    if target.None? || target.value == selected {
      NowhereToMove(before.st, c);
      NothingDone(before, c);
    } else {
      if LedgerOk(before.st) {
        LawfulIn(before.st, selected);
        NothingSkipped(before.st, selected, uids);
      }
      var log;
      log, report := MoveAll(fix, selected, uids, target.value);
      fix.Commit(log, before, c);
    }
  }
}
