/** Commands and whole runs: the ledger law, where MOVE breaks it, and what a UID can ever mean. */
module Runs {
  import opened Basics
  import opened Patches
  import opened Ledgers
  import opened ChangeLogs
  import opened UidSets
  import opened Stores
  import opened Upkeep

  /** The arguments of a command came out of a JSON parser. */
  ghost predicate ProperCommand(c: Command) {
    match c
    case EmailSet(creates, updates, _) =>
      && (forall i :: 0 <= i < |creates| ==> WellFormed(creates[i]))
      && (forall i :: 0 <= i < |updates| ==> WellFormed(updates[i].patch))
    case EmailImport(bodies) => forall i :: 0 <= i < |bodies| ==> WellFormed(bodies[i])
    case EmailSubmissionSet(_, onUpdate, _) => forall k :: k in onUpdate ==> WellFormed(onUpdate[k])
    case _ => true
  }

  lemma {:induction false} SubmissionEditsProper(c: Command)
    requires c.EmailSubmissionSet? && ProperCommand(c)
    ensures AllProper(SubmissionEdits(c))
    ensures forall i :: 0 <= i < |SubmissionEdits(c)| ==> !SubmissionEdits(c)[i].Move?
    decreases |c.submissions|
  {
    hide WellFormed;
    var n := |c.submissions|;
    if n > 0 {
      SubmissionEditsProper(c.(submissions := c.submissions[..n - 1]));
    }
  }

  lemma EditsProper(st: Store, c: Command)
    requires ProperCommand(c)
    ensures AllProper(Edits(st, c))
    ensures !c.UidMove? ==> forall i :: 0 <= i < |Edits(st, c)| ==> !Edits(st, c)[i].Move?
  {
    hide WellFormed, Selected, Live, Victims, StoreNumbered, SlotsOf, SubmissionEdits;
    if c.EmailSubmissionSet? {
      SubmissionEditsProper(c);
    }
  }

  lemma ExecKept(st: Store, c: Command)
    requires Kept(st) && ProperCommand(c) && Exec(st, c).st.emailSeq <= U64_MAX
    ensures Kept(Exec(st, c).st)
  {
    hide Kept, Edits, ProperCommand, Around;
    EditsProper(st, c);
    AroundKept(st, c);
    DoAllKept(Work(Around(st, c), UNTOUCHED), Edits(st, c));
  }

  lemma AroundKept(st: Store, c: Command)
    ensures Kept(Around(st, c)) <==> Kept(st)
    ensures LedgerOk(Around(st, c)) <==> LedgerOk(st)
  {
    hide Around;
  }

  /** The primary account never changes and the mint counter never falls. */
  lemma ExecFrame(st: Store, c: Command)
    ensures Exec(st, c).st.primary == st.primary && st.emailSeq <= Exec(st, c).st.emailSeq
  {
    hide DoAll, Edits;
    DoAllFrame(Work(Around(st, c), UNTOUCHED), Edits(st, c));
  }

  /** No command makes an email name a mailbox twice. */
  lemma ExecNoRepeats(st: Store, c: Command)
    requires NoRepeats(st.emails) && ProperCommand(c)
    ensures NoRepeats(Exec(st, c).st.emails)
  {
    hide NoRepeats, Edits, ProperCommand;
    EditsProper(st, c);
    DoAllNoRepeats(Work(Around(st, c), UNTOUCHED), Edits(st, c));
  }

  lemma {:induction false} DoAllLedger(w: Work, edits: seq<Edit>)
    requires Kept(w.st) && LedgerOk(w.st) && AllProper(edits) && DoAll(w, edits).st.emailSeq <= U64_MAX
    requires forall i :: 0 <= i < |edits| ==> !edits[i].Move?
    ensures LedgerOk(DoAll(w, edits).st)
  {
    hide Do, Kept, LedgerOk, Proper;
    if edits != [] {
      var front, last := edits[..|edits| - 1], edits[|edits| - 1];
      DoFrame(DoAll(w, front), last);
      DoAllKept(w, front);
      DoAllLedger(w, front);
      DoLedger(DoAll(w, front), last);
    }
  }

  // ----- MOVE -----

  /** The live slots of a mailbox under the ledger law: one per listed email, no id twice. */
  lemma LiveLaw(st: Store, m: Id, s: Seen, t: Seen)
    requires SlotsMatchIn(st, m) && s in Live(SlotsOf(st.ledger, m)) && t in Live(SlotsOf(st.ledger, m))
    ensures Lists(st.emails, s.id, m)
    ensures s.id == t.id ==> s == t
  {
    hide Lists;
    var slots := SlotsOf(st.ledger, m);
    assert slots[s.uid - 1] in multiset(slots);
    assert Count(st.ledger, m, s.id) == if Lists(st.emails, s.id, m) then 1 else 0;
    if s.id == t.id && s.uid != t.uid {
      AtMostOnce(slots, Some(s.id), s.uid - 1, t.uid - 1);
    }
  }

  ghost predicate Ascending(seen: seq<Seen>) {
    forall i, j :: 0 <= i < j < |seen| ==> seen[i].uid < seen[j].uid
  }

  lemma AscendingSnoc(seen: seq<Seen>, last: Seen)
    requires Ascending(seen) && forall s :: s in seen ==> s.uid < last.uid
    ensures Ascending(seen + [last])
  {
    assert forall i :: 0 <= i < |seen| ==> seen[i] in seen;
  }

  lemma {:induction false} LiveAscends(slots: Slots)
    ensures Ascending(Live(slots))
  {
    if slots != [] {
      var n := |slots| - 1;
      LiveAscends(slots[..n]);
      if slots[n].Some? {
        AscendingSnoc(Live(slots[..n]), Seen(n + 1, slots[n].value));
      }
    }
  }

  lemma {:induction false} SelectedAscends(seen: seq<Seen>, uids: UidSet)
    requires Ascending(seen)
    ensures Ascending(Selected(seen, uids))
  {
    hide Matches;
    if seen != [] {
      var front, last := seen[..|seen| - 1], seen[|seen| - 1];
      SelectedAscends(front, uids);
      forall s | s in Selected(front, uids)
        ensures s.uid < last.uid
      {
        var k :| 0 <= k < |front| && front[k] == s;
      }
      AscendingSnoc(Selected(front, uids), last);
    }
  }

  function Matched(st: Store, selected: Id, uids: UidSet): seq<Seen> {
    Selected(Live(SlotsOf(st.ledger, selected)), uids)
  }

  lemma MatchedAscends(st: Store, selected: Id, uids: UidSet)
    ensures Ascending(Matched(st, selected, uids))
  {
    LiveAscends(SlotsOf(st.ledger, selected));
    SelectedAscends(Live(SlotsOf(st.ledger, selected)), uids);
  }

  /** The matched messages: ascending UIDs, and, where the mailbox's slots match its memberships,
      distinct stored emails that list it. */
  lemma MatchedLaw(st: Store, selected: Id, uids: UidSet)
    requires SlotsMatchIn(st, selected)
    ensures var r := Matched(st, selected, uids);
            && Ascending(r)
            && (forall i, j :: 0 <= i < j < |r| ==> r[i].id != r[j].id)
            && (forall i :: 0 <= i < |r| ==> Lists(st.emails, r[i].id, selected))
  {
    hide SlotsMatchIn, Lists;
    MatchedAscends(st, selected, uids);
    var r := Matched(st, selected, uids);
    forall i, j | 0 <= i < |r| && 0 <= j < |r|
      ensures Lists(st.emails, r[i].id, selected) && (r[i].id == r[j].id ==> r[i] == r[j])
    {
      assert r[i] in r && r[j] in r;
      LiveLaw(st, selected, r[i], r[j]);
    }
    forall i, j | 0 <= i < j < |r|
      ensures r[i].id != r[j].id
    {
      assert r[i].uid < r[j].uid;
    }
  }

  function Moves(seen: seq<Seen>, source: Id, target: Id): (r: seq<Edit>)
    ensures |r| == |seen| && forall i :: 0 <= i < |r| ==> r[i] == Move(seen[i].id, source, target)
  {
    seq(|seen|, i requires 0 <= i < |seen| => Move(seen[i].id, source, target))
  }

  function SeenIds(seen: seq<Seen>): (r: seq<Id>)
    ensures |r| == |seen| && forall i :: 0 <= i < |r| ==> r[i] == seen[i].id
  {
    seq(|seen|, i requires 0 <= i < |seen| => seen[i].id)
  }

  function Moved(e: Email, source: Id, target: Id): Email {
    e.(mailboxIds := Without(Include(e.mailboxIds, target), {source}))
  }

  /** What a batch of moves does: each message changes its membership list once, gains a target slot
      whether or not it had one, and gives up its source slot. */
  lemma MovesSnoc(w: Work, seen: seq<Seen>, source: Id, target: Id)
    requires seen != []
    ensures var front, last := seen[..|seen| - 1], seen[|seen| - 1];
            && DoAll(w, Moves(seen, source, target)) == Do(DoAll(w, Moves(front, source, target)), Move(last.id, source, target))
            && SeenIds(seen) == SeenIds(front) + [last.id]
  {
    hide Do;
    var edits := Moves(seen, source, target);
    assert edits[..|edits| - 1] == Moves(seen[..|seen| - 1], source, target);
  }

  lemma NoMoves(w: Work, source: Id, target: Id)
    ensures DoAll(w, Moves([], source, target)) == w && w.log == w.log.(updated := w.log.updated + SeenIds([]))
  {
    assert w.log.updated + SeenIds([]) == w.log.updated;
  }

  lemma {:induction false} MovesEffect(w: Work, seen: seq<Seen>, source: Id, target: Id, m: Id, id: Id)
    requires Kept(w.st) && source != target
    requires forall i, j :: 0 <= i < j < |seen| ==> seen[i].id != seen[j].id
    requires forall i :: 0 <= i < |seen| ==> Lookup(w.st.emails, seen[i].id).Some?
    ensures var v := DoAll(w, Moves(seen, source, target));
            && v.st.emailSeq == w.st.emailSeq
            && v.log == w.log.(updated := w.log.updated + SeenIds(seen))
            && Lookup(v.st.emails, id) ==
                 (if id in SeenIds(seen) then Some(Moved(Lookup(w.st.emails, id).value, source, target)) else Lookup(w.st.emails, id))
            && Count(v.st.ledger, m, id) == Count(w.st.ledger, m, id)
                 + (if id in SeenIds(seen) && m == target then 1 else 0)
                 - (if id in SeenIds(seen) && m == source && Count(w.st.ledger, source, id) > 0 then 1 else 0)
  {
    hide Count, Kept, Assign, Retire, Lookup, Moved, Do, DoAll, Moves;
    if seen != [] {
      var front, last := seen[..|seen| - 1], seen[|seen| - 1];
      MovesSnoc(w, seen, source, target);
      assert last.id !in SeenIds(front);
      MovesEffect(w, front, source, target, m, id);
      MovesEffect(w, front, source, target, source, last.id);
      var v := DoAll(w, Moves(front, source, target));
      DoAllKeptNoMint(w, Moves(front, source, target));
      OneMove(v, last.id, source, target, m, id);
      assert w.log.updated + SeenIds(front) + [last.id] == w.log.updated + SeenIds(seen);
    } else {
      NoMoves(w, source, target);
    }
  }

  /** Moves mint nothing, so `Kept` needs no bound on the counter. */
  lemma {:induction false} DoAllKeptNoMint(w: Work, edits: seq<Edit>)
    requires Kept(w.st) && AllProper(edits)
    requires forall i :: 0 <= i < |edits| ==> edits[i].Move?
    ensures Kept(DoAll(w, edits).st)
  {
    hide Kept, DoAt;
    if edits != [] {
      var front, last := edits[..|edits| - 1], edits[|edits| - 1];
      DoAllKeptNoMint(w, front);
      var v := DoAll(w, front);
      var i := IndexOf(v.st.emails, last.id);
      if i < |v.st.emails| {
        DoAtKept(v, last, i);
      }
    }
  }

  lemma OneMoveCount(l: Ledger, x: Id, source: Id, target: Id, m: Id, id: Id)
    requires source != target
    ensures Count(Retire(Assign(l, target, x), source, x), m, id) == Count(l, m, id)
              + (if id == x && m == target then 1 else 0)
              - (if id == x && m == source && Count(l, source, x) > 0 then 1 else 0)
  {
    hide Count, Assign, Retire;
    CountAssign(l, target, x, m, id);
    CountAssign(l, target, x, source, x);
    CountRetire(Assign(l, target, x), source, x, m, id);
  }

  lemma OneMove(w: Work, x: Id, source: Id, target: Id, m: Id, id: Id)
    requires Kept(w.st) && Lookup(w.st.emails, x).Some? && source != target
    ensures var v := Do(w, Move(x, source, target));
            && v.st.emailSeq == w.st.emailSeq
            && v.log == w.log.(updated := w.log.updated + [x])
            && Lookup(v.st.emails, id) == (if id == x then Some(Moved(Lookup(w.st.emails, x).value, source, target)) else Lookup(w.st.emails, id))
            && Count(v.st.ledger, m, id) == Count(w.st.ledger, m, id)
                 + (if id == x && m == target then 1 else 0)
                 - (if id == x && m == source && Count(w.st.ledger, source, x) > 0 then 1 else 0)
  {
    hide Count, Assign, Retire, MintBound, Without, Include;
    var i := IndexOf(w.st.emails, x);
    LookupPut(w.st.emails, i, Moved(w.st.emails[i], source, target), id);
    OneMoveCount(w.st.ledger, x, source, target, m, id);
  }

  /** MOVE keeps the ledger law exactly when no matched message is already in the target: it assigns
      a target UID without asking, so a message that had one ends up with two live slots. */
  lemma MoveKeepsLedgerIff(st: Store, selected: Id, uids: UidSet, target: Id)
    requires Kept(st) && LedgerOk(st) && target != selected
    ensures LedgerOk(Exec(st, UidMove(selected, uids, Some(target))).st) <==> MoveClean(st, selected, uids, target)
    ensures SlotsMatch(Exec(st, UidMove(selected, uids, Some(target))).st) <==> MoveClean(st, selected, uids, target)
  {
    hide Count, Kept, Lists, Matched, Exec, NoRepeats;
    ExecNoRepeats(st, UidMove(selected, uids, Some(target)));
    var seen := Matched(st, selected, uids);
    var st' := Exec(st, UidMove(selected, uids, Some(target))).st;
    forall m, id {
      AfterMove(st, selected, uids, target, m, id);
    }
    if SlotsMatch(st') {
      forall s | s in seen
        ensures !Lists(st.emails, s.id, target)
      {
        var i :| 0 <= i < |seen| && seen[i] == s;
        assert SeenIds(seen)[i] == s.id;
        assert Count(st'.ledger, target, s.id) == if Lists(st'.emails, s.id, target) then 1 else 0;
      }
    }
    if MoveClean(st, selected, uids, target) {
      forall m, id
        ensures Count(st'.ledger, m, id) == if Lists(st'.emails, id, m) then 1 else 0
      {
        if id in SeenIds(seen) {
          var i :| 0 <= i < |seen| && SeenIds(seen)[i] == id;
          assert seen[i] in seen;
        }
      }
    }
  }

  /** Slots and membership of one email in one mailbox after the command. */
  lemma AfterMove(st: Store, selected: Id, uids: UidSet, target: Id, m: Id, id: Id)
    requires Kept(st) && LedgerOk(st) && target != selected
    ensures var st' := Exec(st, UidMove(selected, uids, Some(target))).st;
            var hit := id in SeenIds(Matched(st, selected, uids));
            && Count(st'.ledger, m, id) == (if hit && m == selected then 0 else if Lists(st.emails, id, m) then 1 else 0)
                                           + (if hit && m == target then 1 else 0)
            && (Lists(st'.emails, id, m) <==> if hit then m != selected && (m == target || Lists(st.emails, id, m))
                                              else Lists(st.emails, id, m))
  {
    hide Count, Kept, Lookup, Matched, Edits;
    var seen := Matched(st, selected, uids);
    LawfulIn(st, selected);
    MatchedLaw(st, selected, uids);
    MovesOfMatched(st, selected, uids, target);
    MovesEffect(Work(st, UNTOUCHED), seen, selected, target, m, id);
    assert Count(st.ledger, m, id) == if Lists(st.emails, id, m) then 1 else 0;
    assert Count(st.ledger, selected, id) == if Lists(st.emails, id, selected) then 1 else 0;
  }

  ghost predicate MoveClean(st: Store, selected: Id, uids: UidSet, target: Id) {
    forall s :: s in Matched(st, selected, uids) ==> !Lists(st.emails, s.id, target)
  }

  lemma MovesOfMatched(st: Store, selected: Id, uids: UidSet, target: Id)
    requires target != selected
    ensures Edits(st, UidMove(selected, uids, Some(target))) == Moves(Matched(st, selected, uids), selected, target)
  {
  }

  /** The one thing a caller must see to before a command, for the ledger's sake. */
  ghost predicate Clean(st: Store, c: Command) {
    c.UidMove? && c.target.Some? && c.target.value != c.selected ==>
      MoveClean(st, c.selected, c.uids, c.target.value)
  }

  lemma ExecLedger(st: Store, c: Command)
    requires Kept(st) && LedgerOk(st) && ProperCommand(c) && Exec(st, c).st.emailSeq <= U64_MAX
    ensures c.UidMove? && c.target.Some? && c.target.value != c.selected ==>
              (LedgerOk(Exec(st, c).st) <==> Clean(st, c))
    ensures Clean(st, c) ==> LedgerOk(Exec(st, c).st)
  {
    hide Kept, LedgerOk, ProperCommand, Edits, MoveClean;
    if c.UidMove? && c.target.Some? && c.target.value != c.selected {
      MoveKeepsLedgerIff(st, c.selected, c.uids, c.target.value);
    } else {
      EditsProper(st, c);
      NoMoveEdits(st, c);
      AroundKept(st, c);
      DoAllLedger(Work(Around(st, c), UNTOUCHED), Edits(st, c));
    }
  }

  lemma NoMoveEdits(st: Store, c: Command)
    requires ProperCommand(c)
    requires !(c.UidMove? && c.target.Some? && c.target.value != c.selected)
    ensures forall i :: 0 <= i < |Edits(st, c)| ==> !Edits(st, c)[i].Move?
  {
    EditsProper(st, c);
  }

  // ----- Runs -----

  function RunStore(st: Store, cs: seq<Command>): Store {
    if cs == [] then st else Exec(RunStore(st, cs[..|cs| - 1]), cs[|cs| - 1]).st
  }

  /** Every command of the run is proper and meets its store clean. */
  ghost predicate CleanRun(st: Store, cs: seq<Command>) {
    forall i :: 0 <= i < |cs| ==> ProperCommand(cs[i]) && Clean(RunStore(st, cs[..i]), cs[i])
  }

  lemma {:induction false} RunFrame(st: Store, cs: seq<Command>)
    ensures RunStore(st, cs).primary == st.primary && st.emailSeq <= RunStore(st, cs).emailSeq
  {
    hide Exec;
    if cs != [] {
      RunFrame(st, cs[..|cs| - 1]);
      ExecFrame(RunStore(st, cs[..|cs| - 1]), cs[|cs| - 1]);
    }
  }

  /** Whatever the commands do, every email stays in at least one mailbox, ids stay unique and minted
      ids stay fresh, as long as the mint counter has not overflowed. */
  lemma {:induction false} RunKept(st: Store, cs: seq<Command>)
    requires Kept(st) && (forall i :: 0 <= i < |cs| ==> ProperCommand(cs[i]))
    requires RunStore(st, cs).emailSeq <= U64_MAX
    ensures Kept(RunStore(st, cs))
  {
    hide Exec, Kept, ProperCommand;
    if cs != [] {
      var front, last := cs[..|cs| - 1], cs[|cs| - 1];
      ExecFrame(RunStore(st, front), last);
      RunKept(st, front);
      ExecKept(RunStore(st, front), last);
    }
  }

  /** The ledger law over whole runs of all commands. */
  lemma {:induction false} RunLedger(st: Store, cs: seq<Command>)
    requires Kept(st) && LedgerOk(st) && CleanRun(st, cs)
    requires RunStore(st, cs).emailSeq <= U64_MAX
    ensures LedgerOk(RunStore(st, cs))
  {
    hide Exec, Kept, LedgerOk, ProperCommand, Clean;
    if cs != [] {
      var front, last := cs[..|cs| - 1], cs[|cs| - 1];
      assert forall i :: 0 <= i < |front| ==> front[..i] == cs[..i];
      ExecFrame(RunStore(st, front), last);
      RunLedger(st, front);
      RunKept(st, front);
      ExecLedger(RunStore(st, front), last);
    }
  }

  /** Over any run at all, a UID never names two messages and UIDNEXT never shrinks. */
  lemma {:induction false} RunAges(st: Store, cs: seq<Command>)
    ensures Ages(st.ledger, RunStore(st, cs).ledger)
    ensures forall m :: UidNext(st.ledger, m) <= UidNext(RunStore(st, cs).ledger, m)
  {
    hide Edits;
    if cs == [] {
      AgesItself(st.ledger);
    } else {
      var front, last := cs[..|cs| - 1], cs[|cs| - 1];
      var mid := RunStore(st, front);
      RunAges(st, front);
      DoAllAges(Work(Around(mid, last), UNTOUCHED), Edits(mid, last));
      AgesTransitive(st.ledger, mid.ledger, RunStore(st, cs).ledger);
    }
    forall m
      ensures UidNext(st.ledger, m) <= UidNext(RunStore(st, cs).ledger, m)
    {
      assert SlotsAge(SlotsOf(st.ledger, m), SlotsOf(RunStore(st, cs).ledger, m));
    }
  }

  lemma UidNamesOneMessage(st: Store, cs: seq<Command>, m: Id, uid: nat, a: Id, b: Id)
    requires Seen(uid, a) in Live(SlotsOf(st.ledger, m))
    requires Seen(uid, b) in Live(SlotsOf(RunStore(st, cs).ledger, m))
    ensures a == b
  {
    hide RunStore, SlotsOf;
    RunAges(st, cs);
    assert SlotsAge(SlotsOf(st.ledger, m), SlotsOf(RunStore(st, cs).ledger, m));
  }

  // ----- Load -----

  /** The loader gives every declared membership the next slot, email by email. */
  function LoadLedger(emails: seq<Email>): Ledger {
    if emails == [] then map[] else
      var last := emails[|emails| - 1];
      AssignAll(LoadLedger(emails[..|emails| - 1]), last.mailboxIds, last.id)
  }

  /** What the loader leaves: checked declarations, their slots, and a mint counter beyond both the
      number of emails and every number already used in an id. */
  ghost predicate JustLoaded(st: Store) {
    && UniqueIds(st.emails) && Placed(st.emails) && st.ledger == LoadLedger(st.emails)
    && |st.emails| <= st.emailSeq && MaxMockSeq(EmailIds(st.emails)) <= st.emailSeq
  }

  lemma {:induction false} CountAssignAllAny(l: Ledger, ms: seq<Id>, id: Id, m: Id, id': Id)
    ensures Count(AssignAll(l, ms, id), m, id') == Count(l, m, id') + if id' == id then multiset(ms)[m] else 0
  {
    hide Count, Assign;
    if ms != [] {
      var front, last := ms[..|ms| - 1], ms[|ms| - 1];
      assert ms == front + [last];
      CountAssignAllAny(l, front, id, m, id');
      CountAssign(AssignAll(l, front, id), last, id, m, id');
    }
  }

  lemma {:induction false} LoadCounts(emails: seq<Email>, m: Id, id: Id)
    requires UniqueIds(emails)
    ensures Count(LoadLedger(emails), m, id) ==
            match Lookup(emails, id)
            case None => 0
            case Some(e) => multiset(e.mailboxIds)[m]
  {
    hide Count, Lookup;
    if emails == [] {
      LoadNothing(m, id);
    } else {
      var front, last := emails[..|emails| - 1], emails[|emails| - 1];
      assert emails == front + [last];
      LoadCounts(front, m, id);
      CountAssignAllAny(LoadLedger(front), last.mailboxIds, last.id, m, id);
      LastIsNew(front, last);
      LookupAdd(front, last, id);
    }
  }

  lemma LoadNothing(m: Id, id: Id)
    ensures Count(LoadLedger([]), m, id) == 0 && Lookup([], id) == None
  {
  }

  lemma LastIsNew(front: seq<Email>, last: Email)
    requires UniqueIds(front + [last])
    ensures UniqueIds(front) && Lookup(front, last.id) == None
  {
    assert forall j :: 0 <= j < |front| ==> (front + [last])[j] == front[j];
    assert (front + [last])[|front|] == last;
  }

  lemma DistinctIffOnce(ms: seq<Id>)
    ensures Distinct(ms) <==> forall m :: multiset(ms)[m] == if m in ms then 1 else 0
  {
    if Distinct(ms) {
      forall m
        ensures multiset(ms)[m] == if m in ms then 1 else 0
      {
        OnceInDistinct(ms, m);
      }
    } else {
      var i, j :| 0 <= i < j < |ms| && ms[i] == ms[j];
      if multiset(ms)[ms[i]] <= 1 {
        AtMostOnce(ms, ms[j], i, j);
      }
      assert ms[i] in ms;
    }
  }

  lemma {:induction false} OnceInDistinct(ms: seq<Id>, m: Id)
    requires Distinct(ms)
    ensures multiset(ms)[m] == if m in ms then 1 else 0
  {
    if ms != [] {
      var front, last := ms[..|ms| - 1], ms[|ms| - 1];
      assert ms == front + [last];
      OnceInDistinct(front, m);
    }
  }

  /** At load the slots match the memberships exactly when no loaded email names a mailbox twice,
      which the loader does not check. */
  lemma LoadEstablishesLedgerIff(st: Store)
    requires UniqueIds(st.emails) && st.ledger == LoadLedger(st.emails)
    ensures SlotsMatch(st) <==> NoRepeats(st.emails)
  {
    hide Count, Lookup, Distinct;
    forall m, id {
      LoadCounts(st.emails, m, id);
    }
    forall ms {
      DistinctIffOnce(ms);
    }
    if SlotsMatch(st) {
      forall i | 0 <= i < |st.emails|
        ensures Distinct(st.emails[i].mailboxIds)
      {
        var e := st.emails[i];
        LookupAt(st.emails, i);
        forall m
          ensures multiset(e.mailboxIds)[m] == if m in e.mailboxIds then 1 else 0
        {
          assert Count(st.ledger, m, e.id) == if Lists(st.emails, e.id, m) then 1 else 0;
        }
      }
    }
    if forall i :: 0 <= i < |st.emails| ==> Distinct(st.emails[i].mailboxIds) {
      forall m, id
        ensures Count(st.ledger, m, id) == if Lists(st.emails, id, m) then 1 else 0
      {
        if Lookup(st.emails, id).Some? {
          LookupIsElement(st.emails, id);
        }
      }
    }
  }

  lemma LookupIsElement(emails: seq<Email>, id: Id)
    requires Lookup(emails, id).Some?
    ensures exists i :: 0 <= i < |emails| && emails[i] == Lookup(emails, id).value
  {
    assert emails[IndexOf(emails, id)] == Lookup(emails, id).value;
  }
}
