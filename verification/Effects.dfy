/** What each command does to each email, in terms of membership and keyword sets: the law a user
    of the command expects, with everything it must leave alone. */
module Effects {
  import opened Basics
  import opened Patches
  import opened Flags
  import opened Ledgers
  import opened ChangeLogs
  import opened UidSets
  import opened Stores
  import opened Upkeep
  import opened Runs
  import opened Views
  import opened Replay

  // ----- Edits of one email each -----

  predicate Single(edit: Edit) {
    !edit.Create? && !edit.Import? && !edit.DestroyBatch?
  }

  /** The email after an edit of it; `None` when it is gone. */
  function Edited(edit: Edit, e: Email): Option<Email>
    requires Single(edit)
  {
    match edit
    case Patch(_, patch) => (
      match Patched(e.keywords, e.mailboxIds, patch)
      case None => Some(e)
      case Some(p) => Some(e.(keywords := p.keywords, mailboxIds := p.mailboxIds)))
    case Discard(_) => None
    case Copy(_, target) => Some(e.(mailboxIds := Include(e.mailboxIds, target)))
    case Move(_, source, target) => Some(e.(mailboxIds := Without(Include(e.mailboxIds, target), {source})))
    case Expunge(_, source) =>
      var rest := Without(e.mailboxIds, {source});
      if rest == [] then None else Some(e.(mailboxIds := rest))
    case Flag(_, op) => Some(e.(keywords := KeywordsAfter(op, e.keywords)))
  }

  ghost predicate Becomes(before: Option<Email>, after: Option<Email>, edit: Edit)
    requires Single(edit)
  {
    after == if before.Some? then Edited(edit, before.value) else None
  }

  lemma OneEditAt(w: Work, edit: Edit, i: nat, id: Id)
    requires Single(edit) && UniqueIds(w.st.emails) && i < |w.st.emails| && w.st.emails[i].id == edit.id
    ensures var v := DoAt(w, edit, i);
            && UniqueIds(v.st.emails)
            && (id != edit.id ==> Lookup(v.st.emails, id) == Lookup(w.st.emails, id))
            && (id == edit.id ==> Becomes(Lookup(w.st.emails, id), Lookup(v.st.emails, id), edit))
  {
    hide Lookup, UniqueIds, Patched, KeywordsAfter, Changes, Sync, Assign, Retire, RetireAll;
    var e, v := w.st.emails[i], DoAt(w, edit, i);
    LookupAt(w.st.emails, i);
    if Edited(edit, e).None? {
      LookupDrop(w.st.emails, i, id);
    } else if v.st.emails != w.st.emails {
      LookupPut(w.st.emails, i, v.st.emails[i], id);
    }
  }

  lemma OneEdit(w: Work, edit: Edit, id: Id)
    requires Single(edit) && UniqueIds(w.st.emails)
    ensures var v := Do(w, edit);
            && UniqueIds(v.st.emails)
            && (id != edit.id ==> Lookup(v.st.emails, id) == Lookup(w.st.emails, id))
            && (id == edit.id ==> Becomes(Lookup(w.st.emails, id), Lookup(v.st.emails, id), edit))
  {
    hide UniqueIds, DoAt, Edited;
    var i := IndexOf(w.st.emails, edit.id);
    if i < |w.st.emails| {
      OneEditAt(w, edit, i, id);
    }
  }

  /** Whether an edit that leaves the email stored is recorded as an update of it. */
  ghost predicate Worthy(edit: Edit, e: Email) {
    match edit
    case Patch(_, patch) => Patched(e.keywords, e.mailboxIds, patch).Some?
    case Copy(_, target) => target !in e.mailboxIds
    case Flag(_, op) => Target(op, e.keywords) != Elems(e.keywords)
    case _ => true
  }

  /** What one edit records: nothing for an unknown email, a tombstone with the email's account if the
      edit ends it, and otherwise an update, unless the edit was refused or changed nothing. */
  lemma EditRecords(w: Work, edit: Edit)
    requires Single(edit)
    ensures var log, e := Do(w, edit).log, Lookup(w.st.emails, edit.id);
            log == if e.None? then w.log
                   else if Edited(edit, e.value).None? then
                     w.log.(destroyed := w.log.destroyed + [edit.id], sidecar := w.log.sidecar + [e.value.account])
                   else if Worthy(edit, e.value) then w.log.(updated := w.log.updated + [edit.id])
                   else w.log
  {
    hide Patched, KeywordsAfter, Changes, Sync, Assign, Retire, RetireAll, Target, Canonical;
    var i := IndexOf(w.st.emails, edit.id);
    if i < |w.st.emails| && edit.Flag? {
      StoreMeaning(edit.op, w.st.emails[i].keywords);
    }
  }

  /** A mutation elsewhere replaces what it says it replaces, and records no email. */
  lemma ElsewhereEffect(st: Store, c: Command)
    requires c.Elsewhere?
    ensures Exec(st, c) == Work(Store(st.primary, c.mailboxes, c.folders, c.contacts, st.blobs, st.emails, st.ledger, st.emailSeq), UNTOUCHED)
  {
  }

  ghost predicate AllSingle(edits: seq<Edit>) {
    forall i :: 0 <= i < |edits| ==> Single(edits[i])
  }

  /** An email none of the edits is about is not touched. */
  lemma {:induction false} Untouched(w: Work, edits: seq<Edit>, id: Id)
    requires AllSingle(edits) && UniqueIds(w.st.emails)
    requires forall i :: 0 <= i < |edits| ==> edits[i].id != id
    ensures UniqueIds(DoAll(w, edits).st.emails)
    ensures Lookup(DoAll(w, edits).st.emails, id) == Lookup(w.st.emails, id)
  {
    hide Do, Lookup, UniqueIds, Becomes;
    if edits != [] {
      var front := edits[..|edits| - 1];
      Untouched(w, front, id);
      OneEdit(DoAll(w, front), edits[|edits| - 1], id);
    }
  }

  lemma {:induction false} StillUnique(w: Work, edits: seq<Edit>)
    requires AllSingle(edits) && UniqueIds(w.st.emails)
    ensures UniqueIds(DoAll(w, edits).st.emails)
  {
    hide Do, Lookup, UniqueIds, Becomes;
    if edits != [] {
      var front := edits[..|edits| - 1];
      StillUnique(w, front);
      OneEdit(DoAll(w, front), edits[|edits| - 1], edits[|edits| - 1].id);
    }
  }

  /** An email exactly one edit is about ends as that edit leaves it, wherever it stands in the list. */
  lemma {:induction false} TouchedOnce(w: Work, edits: seq<Edit>, k: nat)
    requires AllSingle(edits) && UniqueIds(w.st.emails) && k < |edits|
    requires forall i :: 0 <= i < |edits| && i != k ==> edits[i].id != edits[k].id
    ensures Becomes(Lookup(w.st.emails, edits[k].id), Lookup(DoAll(w, edits).st.emails, edits[k].id), edits[k])
  {
    hide Do, Lookup, UniqueIds, Becomes;
    var front, last := edits[..|edits| - 1], edits[|edits| - 1];
    StillUnique(w, front);
    OneEdit(DoAll(w, front), last, edits[k].id);
    if k < |front| {
      TouchedOnce(w, front, k);
    } else {
      Untouched(w, front, last.id);
    }
  }

  // ----- The IMAP commands -----

  function Keywords(emails: seq<Email>, id: Id): set<string> {
    var e := Lookup(emails, id);
    if e.Some? then Elems(e.value.keywords) else {}
  }

  /** One edit per message, in order. */
  ghost predicate OnePerMessage(seen: seq<Seen>, edits: seq<Edit>) {
    && |edits| == |seen| && AllSingle(edits)
    && forall i :: 0 <= i < |edits| ==> edits[i].id == seen[i].id
  }

  lemma PerMessage(st: Store, seen: seq<Seen>, edits: seq<Edit>, id: Id)
    requires UniqueIds(st.emails) && DistinctIds(seen) && OnePerMessage(seen, edits)
    ensures var after := DoAll(Work(st, UNTOUCHED), edits).st.emails;
            && (id !in SeenIds(seen) ==> Lookup(after, id) == Lookup(st.emails, id))
            && (id in SeenIds(seen) ==>
                  exists k :: 0 <= k < |edits| && edits[k].id == id && Becomes(Lookup(st.emails, id), Lookup(after, id), edits[k]))
  {
    hide Lookup, UniqueIds, Becomes, DoAll;
    if id in SeenIds(seen) {
      var k :| 0 <= k < |seen| && SeenIds(seen)[k] == id;
      TouchedOnce(Work(st, UNTOUCHED), edits, k);
    } else {
      assert forall i :: 0 <= i < |edits| ==> SeenIds(seen)[i] == edits[i].id;
      Untouched(Work(st, UNTOUCHED), edits, id);
    }
  }

  /** What becomes of one email under a list of edits: those about it, in order. */
  function Outcome(e: Option<Email>, edits: seq<Edit>, id: Id): Option<Email>
    requires AllSingle(edits)
  {
    if edits == [] then e else
      var front, last := Outcome(e, edits[..|edits| - 1], id), edits[|edits| - 1];
      if last.id == id && front.Some? then Edited(last, front.value) else front
  }

  lemma {:induction false} OutcomeIs(w: Work, edits: seq<Edit>, id: Id)
    requires AllSingle(edits) && UniqueIds(w.st.emails)
    ensures Lookup(DoAll(w, edits).st.emails, id) == Outcome(Lookup(w.st.emails, id), edits, id)
  {
    hide Do, Lookup, UniqueIds, Edited;
    if edits != [] {
      var front := edits[..|edits| - 1];
      StillUnique(w, front);
      OutcomeIs(w, front, id);
      OneEdit(DoAll(w, front), edits[|edits| - 1], id);
    }
  }

  lemma SeenIdsSnoc(seen: seq<Seen>, id: Id)
    requires seen != []
    ensures id in SeenIds(seen) <==> id in SeenIds(seen[..|seen| - 1]) || seen[|seen| - 1].id == id
  {
    var front := seen[..|seen| - 1];
    assert SeenIds(seen) == SeenIds(front) + [seen[|seen| - 1].id];
  }

  /** The same message may be matched twice, by two live slots; copying it again changes nothing. */
  lemma {:induction false} CopiesOutcome(e: Email, seen: seq<Seen>, target: Id)
    ensures Outcome(Some(e), Copies(seen, target), e.id) ==
            Some(if e.id in SeenIds(seen) then e.(mailboxIds := Include(e.mailboxIds, target)) else e)
  {
    hide Include;
    if seen == [] {
    } else {
      var front := seen[..|seen| - 1];
      CopiesOutcome(e, front, target);
      SeenIdsSnoc(seen, e.id);
      assert Copies(seen, target)[..|seen| - 1] == Copies(front, target);
      IncludeTwice(e.mailboxIds, target);
    }
  }

  lemma IncludeTwice(s: seq<string>, x: string)
    ensures Include(Include(s, x), x) == Include(s, x)
  {
  }

  lemma {:induction false} MovesOutcome(e: Email, seen: seq<Seen>, source: Id, target: Id)
    requires source != target
    ensures var r := Outcome(Some(e), Moves(seen, source, target), e.id);
            && r.Some? && r.value == e.(mailboxIds := r.value.mailboxIds)
            && forall m :: m in r.value.mailboxIds <==>
                 if e.id in SeenIds(seen) then m == target || (m in e.mailboxIds && m != source) else m in e.mailboxIds
  {
    hide Include, Without;
    if seen == [] {
    } else {
      var front := seen[..|seen| - 1];
      MovesOutcome(e, front, source, target);
      SeenIdsSnoc(seen, e.id);
      assert Moves(seen, source, target)[..|seen| - 1] == Moves(front, source, target);
      var mid := Outcome(Some(e), Moves(front, source, target), e.id).value.mailboxIds;
      IncludedWithout(mid, source, target);
    }
  }

  lemma IncludedWithout(s: seq<Id>, source: Id, target: Id)
    requires source != target
    ensures forall m :: m in Without(Include(s, target), {source}) <==> m == target || (m in s && m != source)
  {
    hide Without;
    assert forall m :: m in Without(Include(s, target), {source}) <==> m in Include(s, target) && m !in {source};
  }

  lemma {:induction false} ExpungesOutcome(e: Email, seen: seq<Seen>, source: Id)
    requires e.mailboxIds != []
    ensures var r, hit := Outcome(Some(e), Expunges(seen, source), e.id), e.id in SeenIds(seen);
            && (r.None? <==> hit && forall m :: m in e.mailboxIds ==> m == source)
            && (r.Some? ==>
                  && r.value == e.(mailboxIds := r.value.mailboxIds) && r.value.mailboxIds != []
                  && forall m :: m in r.value.mailboxIds <==> m in e.mailboxIds && !(hit && m == source))
  {
    hide Edited;
    if seen == [] {
      assert e.mailboxIds[0] in e.mailboxIds;
    } else {
      var front := seen[..|seen| - 1];
      ExpungesOutcome(e, front, source);
      SeenIdsSnoc(seen, e.id);
      assert Expunges(seen, source)[..|seen| - 1] == Expunges(front, source);
      var mid := Outcome(Some(e), Expunges(front, source), e.id);
      if mid.Some? {
        ExpungedOnce(mid.value, source);
        assert mid.value.mailboxIds[0] in mid.value.mailboxIds;
      }
    }
  }

  lemma ExpungedOnce(e: Email, source: Id)
    ensures var r := Edited(Expunge(e.id, source), e);
            && (r.None? <==> forall m :: m in e.mailboxIds ==> m == source)
            && (r.Some? ==>
                  && r.value == e.(mailboxIds := r.value.mailboxIds) && r.value.mailboxIds != []
                  && forall m :: m in r.value.mailboxIds <==> m in e.mailboxIds && m != source)
  {
    hide Without;
    LastMailbox(e, source);
    WithoutOne(e.mailboxIds, source);
  }

  lemma WithoutOne(s: seq<Id>, x: Id)
    ensures forall m :: m in Without(s, {x}) <==> m in s && m != x
  {
    hide Without;
    assert forall m :: m in Without(s, {x}) <==> m in s && m !in {x};
  }

  lemma {:induction false} NothingToEdit(edits: seq<Edit>, id: Id)
    requires AllSingle(edits)
    ensures Outcome(None, edits, id) == None
  {
    if edits != [] {
      NothingToEdit(edits[..|edits| - 1], id);
    }
  }

  /** The email after a command that edits each of some messages once, whether or not one message
      shows up twice among them. */
  lemma CommandOutcome(st: Store, edits: seq<Edit>, id: Id)
    requires Kept(st) && AllSingle(edits)
    ensures var before, after := Lookup(st.emails, id), Lookup(DoAll(Work(st, UNTOUCHED), edits).st.emails, id);
            && (before.None? ==> after.None?)
            && (before.Some? ==> before.value.id == id && before.value.mailboxIds != [] && after == Outcome(before, edits, id))
  {
    hide Kept, DoAll, Outcome;
    KeptUnique(st);
    OutcomeIs(Work(st, UNTOUCHED), edits, id);
    NothingToEdit(edits, id);
    KeptPlaced(st, id);
  }

  lemma KeptPlaced(st: Store, id: Id)
    requires Kept(st)
    ensures Lookup(st.emails, id).Some? ==> Lookup(st.emails, id).value.id == id && Lookup(st.emails, id).value.mailboxIds != []
  {
    hide MintBound;
    var i := IndexOf(st.emails, id);
  }

  /** `UID COPY`: the matched messages join the target; nothing else about any email changes. */
  lemma CopyEffect(st: Store, selected: Id, uids: UidSet, target: Id, id: Id)
    requires Kept(st)
    ensures var after := Exec(st, UidCopy(selected, uids, Some(target))).st.emails;
            && (forall m :: Lists(after, id, m) <==>
                  Lists(st.emails, id, m) || (m == target && Known(st, id) && id in SeenIds(Matched(st, selected, uids))))
            && Keywords(after, id) == Keywords(st.emails, id)
            && (Lookup(after, id).Some? <==> Lookup(st.emails, id).Some?)
  {
    hide Kept, Lookup, Matched, DoAll, Edits, Outcome, Include;
    var seen := Matched(st, selected, uids);
    CopyEdits(st, selected, uids, target);
    CommandOutcome(st, Copies(seen, target), id);
    if Known(st, id) {
      CopiesOutcome(Lookup(st.emails, id).value, seen, target);
    }
  }

  /** `UID MOVE`: the matched messages join the target and leave the source. */
  lemma MoveEffect(st: Store, selected: Id, uids: UidSet, target: Id, id: Id)
    requires Kept(st) && target != selected
    ensures var after := Exec(st, UidMove(selected, uids, Some(target))).st.emails;
            && (forall m :: Lists(after, id, m) <==>
                  if Known(st, id) && id in SeenIds(Matched(st, selected, uids)) then m == target || (Lists(st.emails, id, m) && m != selected)
                  else Lists(st.emails, id, m))
            && Keywords(after, id) == Keywords(st.emails, id)
            && (Lookup(after, id).Some? <==> Lookup(st.emails, id).Some?)
  {
    hide Kept, Lookup, Matched, DoAll, Edits, Outcome;
    var seen := Matched(st, selected, uids);
    MovesOfMatched(st, selected, uids, target);
    CommandOutcome(st, Moves(seen, selected, target), id);
    if Known(st, id) {
      MovesOutcome(Lookup(st.emails, id).value, seen, selected, target);
    }
  }

  /** Which messages `UID EXPUNGE` takes: the stored ones in a live slot whose UID is asked for and whose
      email carries the deleted flag. */
  ghost predicate IsVictim(st: Store, selected: Id, uids: UidSet, id: Id) {
    && (exists i :: 0 <= i < |SlotsOf(st.ledger, selected)| && SlotsOf(st.ledger, selected)[i] == Some(id) && Matches(uids, i + 1))
    && (exists e :: e in st.emails && e.id == id && "$deleted" in e.keywords)
  }

  lemma VictimsAre(st: Store, selected: Id, uids: UidSet, id: Id)
    requires UniqueIds(st.emails)
    ensures id in SeenIds(ExpungedBy(st, selected, uids)) <==> IsVictim(st, selected, uids, id)
  {
    hide Matches, Live, Lookup, SlotsOf, UniqueIds;
    var slots, gone := SlotsOf(st.ledger, selected), ExpungedBy(st, selected, uids);
    DeletedIs(st.emails, id);
    if k :| 0 <= k < |gone| && SeenIds(gone)[k] == id {
      assert gone[k] in gone;
      assert slots[gone[k].uid - 1] == Some(id) && Matches(uids, (gone[k].uid - 1) + 1);
    }
    if IsVictim(st, selected, uids, id) {
      var i :| 0 <= i < |slots| && slots[i] == Some(id) && Matches(uids, i + 1);
      assert Seen(i + 1, id) in gone;
      var k :| 0 <= k < |gone| && gone[k] == Seen(i + 1, id);
      assert SeenIds(gone)[k] == id;
    }
  }

  lemma DeletedIs(emails: seq<Email>, id: Id)
    requires UniqueIds(emails)
    ensures IsDeleted(emails, id) <==> exists e :: e in emails && e.id == id && "$deleted" in e.keywords
  {
    hide Lookup;
    if e :| e in emails && e.id == id && "$deleted" in e.keywords {
      var i :| 0 <= i < |emails| && emails[i] == e;
      LookupAt(emails, i);
    }
    if IsDeleted(emails, id) {
      LookupIsElement(emails, id);
      var i :| 0 <= i < |emails| && emails[i] == Lookup(emails, id).value;
      FoundId(emails, id);
      assert emails[i] in emails;
    }
  }

  lemma FoundId(emails: seq<Email>, id: Id)
    ensures Lookup(emails, id).Some? ==> Lookup(emails, id).value.id == id
  {
  }

  /** They are taken highest UID first, each slot once. */
  lemma VictimsDescend(st: Store, selected: Id, uids: UidSet)
    ensures Descending(ExpungedBy(st, selected, uids))
  {
    var seen := Matched(st, selected, uids);
    MatchedAscends(st, selected, uids);
    VictimsTurnAround(st, seen);
    assert ExpungedBy(st, selected, uids) == Victims(st, seen);
  }

  ghost predicate Descending(seen: seq<Seen>) {
    forall i, j :: 0 <= i < j < |seen| ==> seen[i].uid > seen[j].uid
  }

  lemma {:induction false} VictimsTurnAround(st: Store, seen: seq<Seen>)
    requires Ascending(seen)
    ensures Descending(Victims(st, seen))
  {
    hide IsDeleted;
    if seen != [] {
      var front := seen[..|seen| - 1];
      VictimsTurnAround(st, front);
      forall s | s in Victims(st, front)
        ensures s.uid < seen[|seen| - 1].uid
      {
        assert s in front;
      }
      assert forall k :: 0 <= k < |Victims(st, front)| ==> Victims(st, front)[k] in Victims(st, front);
    }
  }

  /** The lines it writes: the places, highest first, of the live slots it takes. */
  lemma ExpungeLinesAre(st: Store, selected: Id, uids: UidSet, n: nat)
    requires UniqueIds(st.emails)
    ensures var live := Live(SlotsOf(st.ledger, selected));
            n in ExpungeLines(st, selected, uids) <==>
              && 1 <= n <= |live| && Matches(uids, live[n - 1].uid)
              && exists e :: e in st.emails && e.id == live[n - 1].id && "$deleted" in e.keywords
    ensures forall i, j :: 0 <= i < j < |ExpungeLines(st, selected, uids)| ==>
              ExpungeLines(st, selected, uids)[i] > ExpungeLines(st, selected, uids)[j]
  {
    hide Matches, Live, Lookup, SlotsOf, UniqueIds, Positions, IsDeleted;
    var live := Live(SlotsOf(st.ledger, selected));
    PlacesOf(live, Elems(ExpungedBy(st, selected, uids)));
    if 1 <= n <= |live| {
      DeletedIs(st.emails, live[n - 1].id);
      assert live[n - 1] in live;
    }
  }

  lemma {:induction false} PlacesOf<T(!new)>(view: seq<T>, drop: set<T>)
    ensures forall n :: n in Positions(view, drop) <==> 1 <= n <= |view| && view[n - 1] in drop
    ensures forall i, j :: 0 <= i < j < |Positions(view, drop)| ==> Positions(view, drop)[i] > Positions(view, drop)[j]
  {
    if view != [] {
      var front := view[..|view| - 1];
      PlacesOf(front, drop);
      PositionsBound(front, drop);
      assert forall i :: 0 <= i < |front| ==> front[i] == view[i];
    }
  }

  /** `UID EXPUNGE`: the asked-for messages that carry the deleted flag leave the mailbox, and an email
      is gone exactly when that was the only mailbox it was in. */
  lemma ExpungeEffect(st: Store, selected: Id, uids: UidSet, id: Id)
    requires Kept(st)
    ensures var after, hit := Exec(st, UidExpunge(selected, uids)).st.emails, IsVictim(st, selected, uids, id);
            && (forall m :: Lists(after, id, m) <==> Lists(st.emails, id, m) && !(m == selected && hit))
            && (Lookup(after, id).Some? <==>
                  Lookup(st.emails, id).Some? && !(hit && forall m :: Lists(st.emails, id, m) ==> m == selected))
            && (Lookup(after, id).Some? ==> Keywords(after, id) == Keywords(st.emails, id))
  {
    hide Kept, Lookup, ExpungedBy, IsVictim, DoAll, Edits, Outcome;
    var seen := ExpungedBy(st, selected, uids);
    ExpungeEdits(st, selected, uids);
    KeptUnique(st);
    VictimsAre(st, selected, uids, id);
    CommandOutcome(st, Expunges(seen, selected), id);
    if Known(st, id) {
      var e := Lookup(st.emails, id).value;
      ExpungesOutcome(e, seen, selected);
      assert forall m :: Lists(st.emails, id, m) <==> m in e.mailboxIds;
    }
  }

  lemma LastMailbox(e: Email, m: Id)
    ensures Without(e.mailboxIds, {m}) == [] <==> forall x :: x in e.mailboxIds ==> x == m
  {
    var rest := Without(e.mailboxIds, {m});
    assert rest != [] ==> rest[0] in rest;
  }

  /** `UID STORE`: the addressed messages' flags become the union, difference or replacement asked
      for; memberships stay. */
  lemma StoreEffect(st: Store, selected: Id, uids: UidSet, op: StoreOp, id: Id)
    requires Kept(st)
    ensures var after := Exec(st, UidStore(selected, uids, op)).st.emails;
            var addressed := SeenIds(Selected(StoreNumbered(st.emails, selected), uids));
            && (Lookup(after, id).Some? <==> Lookup(st.emails, id).Some?)
            && (forall m :: Lists(after, id, m) <==> Lists(st.emails, id, m))
            && (Lookup(st.emails, id).Some? && id in addressed ==>
                  Keywords(after, id) == Target(op, Lookup(st.emails, id).value.keywords))
            && (id !in addressed ==> Keywords(after, id) == Keywords(st.emails, id))
  {
    hide Kept, Lookup, StoreNumbered, Selected, DoAll, DistinctIds, UniqueIds, KeywordsAfter, Target;
    var seen := Selected(StoreNumbered(st.emails, selected), uids);
    var edits := Edits(st, UidStore(selected, uids, op));
    StoreEdits(st, selected, uids, op);
    KeptUnique(st);
    NumberedOnce(st.emails, selected, uids);
    PerMessage(st, seen, edits, id);
    if Lookup(st.emails, id).Some? {
      StoreMeaning(op, Lookup(st.emails, id).value.keywords);
    }
  }

  lemma StoreEdits(st: Store, selected: Id, uids: UidSet, op: StoreOp)
    ensures var seen := Selected(StoreNumbered(st.emails, selected), uids);
            var edits := Edits(st, UidStore(selected, uids, op));
            OnePerMessage(seen, edits) && forall i :: 0 <= i < |edits| ==> edits[i] == Flag(seen[i].id, op)
  {
    hide Selected, StoreNumbered;
  }

  lemma {:induction false} NumberedDistinct(emails: seq<Email>, m: Id)
    requires UniqueIds(emails)
    ensures DistinctIds(StoreNumbered(emails, m))
    ensures forall s :: s in StoreNumbered(emails, m) ==> exists i :: 0 <= i < |emails| && emails[i].id == s.id
  {
    if emails != [] {
      var front, last := emails[..|emails| - 1], emails[|emails| - 1];
      NumberedDistinct(front, m);
      var seen := StoreNumbered(front, m);
      forall k | 0 <= k < |seen|
        ensures seen[k].id != last.id
      {
        assert seen[k] in seen;
        var i :| 0 <= i < |front| && front[i].id == seen[k].id;
        assert emails[i] == front[i];
      }
      forall s | s in StoreNumbered(emails, m)
        ensures exists i :: 0 <= i < |emails| && emails[i].id == s.id
      {
        if s in seen {
          var i :| 0 <= i < |front| && front[i].id == s.id;
          assert emails[i].id == s.id;
        } else {
          assert emails[|emails| - 1].id == s.id;
        }
      }
    }
  }

  lemma {:induction false} SelectedDistinct(seen: seq<Seen>, uids: UidSet)
    requires DistinctIds(seen)
    ensures DistinctIds(Selected(seen, uids))
  {
    hide Matches;
    if seen != [] {
      var front, last := seen[..|seen| - 1], seen[|seen| - 1];
      SelectedDistinct(front, uids);
      var sel := Selected(front, uids);
      forall k | 0 <= k < |sel|
        ensures sel[k].id != last.id
      {
        assert sel[k] in front;
        var j :| 0 <= j < |front| && front[j] == sel[k];
        assert seen[j] == front[j];
      }
    }
  }

  lemma NumberedOnce(emails: seq<Email>, m: Id, uids: UidSet)
    requires UniqueIds(emails)
    ensures DistinctIds(Selected(StoreNumbered(emails, m), uids))
  {
    hide StoreNumbered, Selected, DistinctIds;
    NumberedDistinct(emails, m);
    SelectedDistinct(StoreNumbered(emails, m), uids);
  }

  // ----- Email/set -----

  /** What an id holds after the creates. */
  function AfterCreates(st: Store, c: Command, id: Id): Option<Email>
    requires c.EmailSet?
  {
    Lookup(st.emails + Newcomers(st, c.creates), id)
  }

  /** `Email/set`: an id that is asked to be destroyed is gone, whether it was stored or just created;
      any other id holds what it held after the creates, patched if an update names it and the patch
      is good as a whole. */
  lemma SetEffect(st: Store, c: Command, id: Id)
    requires Kept(st) && c.EmailSet? && ProperCommand(c) && Exec(st, c).st.emailSeq <= U64_MAX
    requires forall i, j :: 0 <= i < j < |c.updates| ==> c.updates[i].id != c.updates[j].id
    ensures var after := Lookup(Exec(st, c).st.emails, id);
            && (id in c.destroys ==> after == None)
            && (id !in c.destroys && (forall i :: 0 <= i < |c.updates| ==> c.updates[i].id != id) ==>
                  after == AfterCreates(st, c, id))
            && (forall i :: 0 <= i < |c.updates| && c.updates[i].id == id && id !in c.destroys ==>
                  Becomes(AfterCreates(st, c, id), after, Patch(id, c.updates[i].patch)))
  {
    hide Kept, Do, Lookup, Newcomers, UniqueIds, ProperCommand, Becomes, Exec;
    var w := DoAll(Work(st, UNTOUCHED), CreateEdits(c.creates));
    var v := DoAll(w, UpdateEdits(c.updates));
    EmailSetPhases(st, c);
    CreatesBuildNewcomers(st, c.creates);
    CreatesKept(st, c);
    var edits := UpdateEdits(c.updates);
    assert forall i :: 0 <= i < |edits| ==> edits[i] == Patch(c.updates[i].id, c.updates[i].patch);
    StillUnique(w, edits);
    BatchLookup(v, c.destroys, id);
    if i :| 0 <= i < |c.updates| && c.updates[i].id == id {
      TouchedOnce(w, edits, i);
    } else {
      Untouched(w, edits, id);
    }
  }

  lemma BatchLookup(w: Work, ids: seq<Id>, id: Id)
    requires UniqueIds(w.st.emails)
    ensures Lookup(Do(w, DestroyBatch(ids)).st.emails, id) == if id in ids then None else Lookup(w.st.emails, id)
  {
    hide Lookup, UniqueIds;
    var kept := w.(st := w.st.(emails := EmailsWithout(w.st.emails, Elems(ids))));
    DestroyEachStore(kept, w.st.emails, ids);
    LookupWithout(w.st.emails, Elems(ids), id);
  }

  // ----- Building -----

  /** The field of a request with this key: the first, and in parsed JSON the only one. */
  ghost predicate Says(fields: seq<Field>, key: string, v: Json) {
    exists i :: 0 <= i < |fields| && fields[i] == Field(key, v) && forall j :: 0 <= j < i ==> fields[j].key != key
  }

  lemma {:induction false} SaysIsGot(fields: seq<Field>, key: string, v: Json)
    requires Says(fields, key, v)
    ensures Get(fields, key) == v
  {
    var i :| 0 <= i < |fields| && fields[i] == Field(key, v) && forall j :: 0 <= j < i ==> fields[j].key != key;
    if i > 0 {
      var rest := fields[1..];
      assert rest[i - 1] == fields[i] && forall j :: 0 <= j < i - 1 ==> rest[j] == fields[j + 1];
      SaysIsGot(rest, key, v);
    }
  }

  lemma {:induction false} GetSays(fields: seq<Field>, key: string)
    ensures (forall f :: f in fields ==> f.key != key) ==> Get(fields, key) == Null
    ensures (exists f :: f in fields && f.key == key) ==> Says(fields, key, Get(fields, key))
  {
    if fields != [] {
      var rest := fields[1..];
      assert fields == [fields[0]] + rest;
      if fields[0].key == key {
        assert fields[0] == Field(key, fields[0].value);
      } else {
        GetSays(rest, key);
        SaysLater(fields, key, Get(rest, key));
      }
    }
  }

  lemma SaysLater(fields: seq<Field>, key: string, v: Json)
    requires fields != [] && fields[0].key != key
    ensures Says(fields[1..], key, v) ==> Says(fields, key, v)
  {
    var rest := fields[1..];
    if Says(rest, key, v) {
      var i :| 0 <= i < |rest| && rest[i] == Field(key, v) && forall j :: 0 <= j < i ==> rest[j].key != key;
      assert fields[i + 1] == rest[i] && forall j :: 1 <= j < i + 1 ==> fields[j] == rest[j - 1];
    }
  }

  /** In an object without repeated keys that is plain membership, wherever the field stands. */
  lemma SaysIsMember(fields: seq<Field>, key: string, v: Json)
    requires DistinctKeys(fields)
    ensures Says(fields, key, v) <==> Field(key, v) in fields
  {
    if Field(key, v) in fields {
      var i :| 0 <= i < |fields| && fields[i] == Field(key, v);
      assert forall j :: 0 <= j < i ==> fields[j].key != fields[i].key;
    }
  }

  ghost predicate AsksFor(fields: seq<Field>, m: Id) {
    exists v :: Says(fields, "mailboxIds", v) && v.Obj? && Field(m, Bool(true)) in v.fields
  }

  ghost predicate AsksFlag(fields: seq<Field>, k: string) {
    exists v :: Says(fields, "keywords", v) && v.Obj? && Field(k, Bool(true)) in v.fields
  }

  /** The request names its mailboxes in an object. */
  ghost predicate NamesMailboxes(fields: seq<Field>) {
    exists v :: Says(fields, "mailboxIds", v) && v.Obj?
  }

  lemma OneAnswer(fields: seq<Field>, key: string)
    ensures forall v :: Says(fields, key, v) ==> v == Get(fields, key)
    ensures Get(fields, key).Obj? ==> Says(fields, key, Get(fields, key))
  {
    hide Get, Says;
    GetSays(fields, key);
    forall v | Says(fields, key, v)
      ensures v == Get(fields, key)
    {
      SaysIsGot(fields, key, v);
    }
  }

  lemma AskedThroughGet(fields: seq<Field>)
    ensures NamesMailboxes(fields) <==> Get(fields, "mailboxIds").Obj?
    ensures forall m :: AsksFor(fields, m) <==> Get(fields, "mailboxIds").Obj? && Field(m, Bool(true)) in Get(fields, "mailboxIds").fields
    ensures forall k :: AsksFlag(fields, k) <==> Get(fields, "keywords").Obj? && Field(k, Bool(true)) in Get(fields, "keywords").fields
  {
    hide Get, Says;
    OneAnswer(fields, "mailboxIds");
    OneAnswer(fields, "keywords");
  }

  /** A new email is built exactly when `mailboxIds` is an object that maps at least one mailbox to
      true and only known ones; each refusal has its own reason. It is in exactly the requested
      mailboxes, carries exactly the requested keywords, belongs to the account of the first stored
      mailbox among them, and is dated like the newest stored email. */
  lemma BuiltMeaning(st: Store, fields: seq<Field>)
    ensures var b := BuildFrom(st, fields);
            && (b == Refused(MissingMailboxIds) <==> !NamesMailboxes(fields))
            && (b == Refused(NoMailbox) <==> NamesMailboxes(fields) && forall m :: !AsksFor(fields, m))
            && (b == Refused(UnknownMailbox) <==> exists m :: AsksFor(fields, m) && !KnownMailbox(st.mailboxes, m))
            && (b.Fresh? <==> (exists m :: AsksFor(fields, m)) && forall m :: AsksFor(fields, m) ==> KnownMailbox(st.mailboxes, m))
            && (b.Fresh? ==>
                  && (forall m :: m in b.email.mailboxIds <==> AsksFor(fields, m))
                  && (forall k :: k in b.email.keywords <==> AsksFlag(fields, k))
                  && FirstOwner(st.mailboxes, b.email.mailboxIds, b.email.account)
                  && Newest(st.emails, b.email.receivedAt))
  {
    hide Get, BoolSet, KnownMailbox, AccountFor, NewestReceived, MintId, FirstOwner, Newest, AsksFor, AsksFlag, NamesMailboxes;
    AskedThroughGet(fields);
    var v := Get(fields, "mailboxIds");
    if v.Obj? {
      var ids := BoolSet(v.fields);
      assert forall m :: m in ids <==> AsksFor(fields, m);
      assert ids != [] ==> ids[0] in ids;
      if i :| 0 <= i < |ids| && !KnownMailbox(st.mailboxes, ids[i]) {
        assert AsksFor(fields, ids[i]);
      }
      if ids != [] && forall i :: 0 <= i < |ids| ==> KnownMailbox(st.mailboxes, ids[i]) {
        assert KnownMailbox(st.mailboxes, ids[0]) && ids[0] in ids;
        FirstOwnerIs(st.mailboxes, ids, st.primary, ids[0]);
        NewestIs(st.emails);
      }
    }
  }

  /** `account` owns the first mailbox of the list that is among `ids`. */
  ghost predicate FirstOwner(mailboxes: seq<Mailbox>, ids: seq<Id>, account: Id) {
    exists i :: 0 <= i < |mailboxes| && mailboxes[i].id in ids && mailboxes[i].account == account
                && forall j :: 0 <= j < i ==> mailboxes[j].id !in ids
  }

  lemma {:induction false} FirstOwnerIs(mailboxes: seq<Mailbox>, ids: seq<Id>, primary: Id, known: Id)
    requires known in ids && KnownMailbox(mailboxes, known)
    ensures FirstOwner(mailboxes, ids, AccountFor(mailboxes, ids, primary))
  {
    if mailboxes[0].id !in ids {
      var rest := mailboxes[1..];
      var k :| 0 <= k < |mailboxes| && mailboxes[k].id == known;
      assert rest[k - 1] == mailboxes[k];
      FirstOwnerIs(rest, ids, primary, known);
      var i :| 0 <= i < |rest| && rest[i].id in ids && rest[i].account == AccountFor(rest, ids, primary)
               && forall j :: 0 <= j < i ==> rest[j].id !in ids;
      assert mailboxes[i + 1] == rest[i];
      assert forall j :: 1 <= j < i + 1 ==> mailboxes[j] == rest[j - 1];
    } else {
      assert mailboxes[0].account == AccountFor(mailboxes, ids, primary);
    }
  }

  /** `t` is the newest date stored, or the fixed epoch in an empty store. */
  ghost predicate Newest(emails: seq<Email>, t: int) {
    if emails == [] then t == 1767225600
    else (forall i :: 0 <= i < |emails| ==> emails[i].receivedAt <= t) && exists i :: 0 <= i < |emails| && emails[i].receivedAt == t
  }

  lemma {:induction false} NewestIs(emails: seq<Email>)
    ensures Newest(emails, NewestReceived(emails))
  {
    if |emails| > 1 {
      var rest := emails[1..];
      NewestIs(rest);
      var i :| 0 <= i < |rest| && rest[i].receivedAt == NewestReceived(rest);
      assert emails[i + 1] == rest[i];
      assert emails[0].receivedAt <= NewestReceived(emails);
      assert forall j :: 1 <= j < |emails| ==> emails[j] == rest[j - 1];
    } else if |emails| == 1 {
      assert emails[0].receivedAt == NewestReceived(emails);
    }
  }

  // ----- Email/import -----

  /** The uploaded blob is looked at before anything else of an entry; with it in place the entry is
      built like a create. */
  lemma ImportedMeaning(st: Store, body: Json)
    ensures var r, c := BuildFromImport(st, body), BuildFromCreate(st, body);
            && (r == Refused(NotAnObject) <==> !body.Obj?) && (c == Refused(NotAnObject) <==> !body.Obj?)
            && (body.Obj? ==>
                  && (r == Refused(MissingBlobId) <==> !exists b :: Says(body.fields, "blobId", Str(b)))
                  && (forall b :: Says(body.fields, "blobId", Str(b)) ==>
                        && (r == Refused(BlobNotFound) <==> b !in st.blobs)
                        && (b in st.blobs ==> r == c)))
  {
    hide Get, Says, BoolSet, KnownMailbox, AccountFor, NewestReceived, MintId;
    if body.Obj? {
      GetSays(body.fields, "blobId");
      forall v | Says(body.fields, "blobId", v)
        ensures v == Get(body.fields, "blobId")
      {
        SaysIsGot(body.fields, "blobId", v);
      }
    }
  }

  /** The bodies an import takes: whether one is good depends on nothing the others do. */
  function Good(st: Store, bodies: seq<Json>): (r: seq<Json>)
    ensures forall i :: 0 <= i < |r| ==> r[i].Obj?
  {
    if bodies == [] then [] else
      var front, last := Good(st, bodies[..|bodies| - 1]), bodies[|bodies| - 1];
      if BuildFromImport(st, last).Fresh? then front + [last] else front
  }

  /** The email an import makes of the k-th good body. */
  ghost predicate ImportOf(st: Store, body: Json, e: Email, k: nat)
    requires body.Obj?
  {
    && e.id == MintId(st.emailSeq + 1 + k)
    && (forall m :: m in e.mailboxIds <==> AsksFor(body.fields, m))
    && (forall k :: k in e.keywords <==> AsksFlag(body.fields, k))
    && FirstOwner(st.mailboxes, e.mailboxIds, e.account)
    && Newest(st.emails, e.receivedAt)
  }

  ghost predicate ImportedAll(st: Store, good: seq<Json>, w: Work)
    requires forall i :: 0 <= i < |good| ==> good[i].Obj?
  {
    && |w.st.emails| == |st.emails| + |good| && w.st.emails[..|st.emails|] == st.emails
    && (forall k :: 0 <= k < |good| ==> ImportOf(st, good[k], w.st.emails[|st.emails| + k], k))
    && w.st.emailSeq == st.emailSeq + |good| && NewestReceived(w.st.emails) == NewestReceived(st.emails)
    && w.log == UNTOUCHED.(created := EmailIds(w.st.emails[|st.emails|..]))
  }

  function ImportEdits(bodies: seq<Json>): seq<Edit> {
    seq(|bodies|, i requires 0 <= i < |bodies| => Import(bodies[i]))
  }

  lemma {:induction false} SameNewest(emails: seq<Email>, e: Email)
    requires e.receivedAt == NewestReceived(emails)
    ensures NewestReceived(emails + [e]) == NewestReceived(emails)
  {
    if |emails| > 1 {
      assert (emails + [e])[1..] == emails[1..] + [e];
      NewestIs(emails);
      NewestIs(emails + [e]);
      assert (emails + [e])[|emails|] == e;
      assert forall i :: 0 <= i < |emails| ==> (emails + [e])[i] == emails[i];
    }
  }

  lemma GoodMeaning(st: Store, v: Store, body: Json)
    requires v == st.(emails := v.emails, ledger := v.ledger, emailSeq := v.emailSeq)
    ensures BuildFromImport(v, body).Fresh? <==> BuildFromImport(st, body).Fresh?
    ensures BuildFromImport(v, body).Fresh? ==>
              var e := BuildFromImport(v, body).email;
              && body.Obj? && e.id == MintId(v.emailSeq + 1) && e.receivedAt == NewestReceived(v.emails)
              && (forall m :: m in e.mailboxIds <==> AsksFor(body.fields, m))
              && (forall k :: k in e.keywords <==> AsksFlag(body.fields, k))
              && FirstOwner(st.mailboxes, e.mailboxIds, e.account)
  {
    hide Get, BoolSet, KnownMailbox, AccountFor, NewestReceived, MintId, FirstOwner, Newest;
    if body.Obj? {
      BuiltMeaning(v, body.fields);
    }
  }

  lemma {:induction false} ImportsBuild(st: Store, bodies: seq<Json>)
    ensures ImportedAll(st, Good(st, bodies), DoAll(Work(st, UNTOUCHED), ImportEdits(bodies)))
  {
    hide BuildFromImport, ImportOf, NewestReceived, AsksFor, AsksFlag, FirstOwner, MintId, AssignAll;
    var w, edits := Work(st, UNTOUCHED), ImportEdits(bodies);
    if bodies == [] {
      assert st.emails[|st.emails|..] == [];
    } else {
      var front, last := bodies[..|bodies| - 1], bodies[|bodies| - 1];
      assert edits[..|edits| - 1] == ImportEdits(front);
      var v := DoAll(w, ImportEdits(front));
      ImportsBuild(st, front);
      DoAllFrame(w, ImportEdits(front));
      GoodMeaning(st, v.st, last);
      if BuildFromImport(st, last).Fresh? {
        OneMoreImport(st, Good(st, front), v, last);
      }
    }
  }

  lemma OneMoreImport(st: Store, good: seq<Json>, v: Work, body: Json)
    requires (forall i :: 0 <= i < |good| ==> good[i].Obj?) && ImportedAll(st, good, v)
    requires body.Obj? && BuildFromImport(v.st, body).Fresh?
    requires v.st == st.(emails := v.st.emails, ledger := v.st.ledger, emailSeq := v.st.emailSeq)
    ensures ImportedAll(st, good + [body], AddBuilt(v, BuildFromImport(v.st, body)))
  {
    hide BuildFromImport, NewestReceived, AsksFor, AsksFlag, FirstOwner, MintId, AssignAll, Newest;
    NewestIs(st.emails);
    var e, n := BuildFromImport(v.st, body).email, |st.emails|;
    GoodMeaning(st, v.st, body);
    SameNewest(v.st.emails, e);
    var after := v.st.emails + [e];
    assert after[n..] == v.st.emails[n..] + [e];
    assert EmailIds(after[n..]) == EmailIds(v.st.emails[n..]) + [e.id];
    assert after[..n] == v.st.emails[..n];
    forall k | 0 <= k < |good + [body]|
      ensures ImportOf(st, (good + [body])[k], after[n + k], k)
    {
      assert k < |good| ==> ImportOf(st, good[k], v.st.emails[n + k], k);
    }
  }

  /** `Email/import`: the stored emails stay as they are, and one new email follows for each good body,
      in order, with the next ids, in the mailboxes and with the keywords that body asks for, owned by the first stored one's
      account, all dated like the newest email there was. */
  lemma ImportEffect(st: Store, bodies: seq<Json>)
    ensures ImportedAll(st, Good(st, bodies), Exec(st, EmailImport(bodies)))
  {
    hide DoAll, ImportedAll;
    ImportsBuild(st, bodies);
    assert Edits(st, EmailImport(bodies)) == ImportEdits(bodies);
  }

  // ----- EmailSubmission/set -----

  /** What becomes of one email under its own submissions, in order. */
  function Fate(e: Option<Email>, c: Command, id: Id): Option<Email>
    requires c.EmailSubmissionSet?
    decreases |c.submissions|
  {
    var n := |c.submissions|;
    if n == 0 then e else
      var before := Fate(e, c.(submissions := c.submissions[..n - 1]), id);
      var key := "#" + c.submissions[n - 1].createId;
      if c.submissions[n - 1].emailId != Some(id) || before.None? then before
      else if key in c.onUpdate then Edited(Patch(id, c.onUpdate[key]), before.value)
      else if key in c.onDestroy then None
      else before
  }

  /** A submission of `id` that discards it. */
  predicate Discards(c: Command, i: nat, id: Id)
    requires c.EmailSubmissionSet? && i < |c.submissions|
  {
    var key := "#" + c.submissions[i].createId;
    c.submissions[i].emailId == Some(id) && key !in c.onUpdate && key in c.onDestroy
  }

  lemma {:induction false} SubmissionsFold(w: Work, c: Command, id: Id)
    requires c.EmailSubmissionSet? && UniqueIds(w.st.emails)
    ensures var v := DoAll(w, SubmissionEdits(c));
            UniqueIds(v.st.emails) && Lookup(v.st.emails, id) == Fate(Lookup(w.st.emails, id), c, id)
    decreases |c.submissions|
  {
    hide Do, Lookup, UniqueIds, Patched;
    var n := |c.submissions|;
    if n > 0 {
      var front := c.(submissions := c.submissions[..n - 1]);
      SubmissionsFold(w, front, id);
      var before, all := SubmissionEdits(front), SubmissionEdits(c);
      if all != before {
        assert all[..|all| - 1] == before;
        OneEdit(DoAll(w, before), all[|all| - 1], id);
      }
    }
  }

  lemma {:induction false} GoneIffDiscarded(e: Option<Email>, c: Command, id: Id)
    requires c.EmailSubmissionSet?
    ensures Fate(e, c, id).None? <==> e.None? || exists i :: 0 <= i < |c.submissions| && Discards(c, i, id)
    decreases |c.submissions|
  {
    hide Patched;
    var n := |c.submissions|;
    if n > 0 {
      var front := c.(submissions := c.submissions[..n - 1]);
      GoneIffDiscarded(e, front, id);
      assert forall i :: 0 <= i < n - 1 ==> (Discards(c, i, id) <==> Discards(front, i, id));
      if Discards(c, n - 1, id) {
        assert Fate(e, c, id).None?;
      } else {
        assert Fate(e, c, id).None? <==> Fate(e, front, id).None?;
      }
    }
  }

  /** `EmailSubmission/set`: an email's fate is decided by its own submissions, in order, and it is gone
      exactly when one of them discards it; a key listed under both effects only patches. */
  lemma SubmitEffect(st: Store, c: Command, id: Id)
    requires c.EmailSubmissionSet? && Kept(st)
    ensures var after := Lookup(Exec(st, c).st.emails, id);
            && after == Fate(Lookup(st.emails, id), c, id)
            && (after.None? <==> Lookup(st.emails, id).None? || exists i :: 0 <= i < |c.submissions| && Discards(c, i, id))
  {
    hide Kept, Lookup, DoAll, Fate, SubmissionEdits, Discards;
    KeptUnique(st);
    SubmissionsFold(Work(st, UNTOUCHED), c, id);
    GoneIffDiscarded(Lookup(st.emails, id), c, id);
  }
}
