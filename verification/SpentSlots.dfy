/** The ledger never runs ahead of the mint: no slot holds an id that is still to be minted. So a
    slot cannot come to name an email that did not exist when the slot was assigned. This holds in
    every state of every run, whatever MOVE did. */
module SpentSlots {
  import opened Basics
  import opened Patches
  import opened Ledgers
  import opened ChangeLogs
  import opened Flags
  import opened Stores
  import opened Upkeep
  import opened Runs

  /** `id` is not one that a 64-bit mint counter standing at `minted` can still produce. */
  ghost predicate NeverAgain(minted: nat, id: Id) {
    forall n: nat :: minted < n <= U64_MAX ==> id != MintId(n)
  }

  ghost predicate AllSpent(l: Ledger, minted: nat) {
    forall m, i :: 0 <= i < |SlotsOf(l, m)| && SlotsOf(l, m)[i].Some? ==> NeverAgain(minted, SlotsOf(l, m)[i].value)
  }

  ghost predicate Spent(st: Store) {
    AllSpent(st.ledger, st.emailSeq)
  }

  // ----- Edits of the ledger -----

  lemma SpentLater(l: Ledger, a: nat, b: nat)
    requires AllSpent(l, a) && a <= b
    ensures AllSpent(l, b)
  {
    hide SlotsOf;
  }

  lemma SpentAssign(l: Ledger, minted: nat, m: Id, id: Id)
    requires AllSpent(l, minted) && NeverAgain(minted, id)
    ensures AllSpent(Assign(l, m, id), minted)
  {
    hide NeverAgain;
    var l' := Assign(l, m, id);
    forall m', i | 0 <= i < |SlotsOf(l', m')| && SlotsOf(l', m')[i].Some?
      ensures NeverAgain(minted, SlotsOf(l', m')[i].value)
    {
      assert i < |SlotsOf(l, m')| ==> SlotsOf(l', m')[i] == SlotsOf(l, m')[i];
    }
  }

  lemma SpentRetire(l: Ledger, minted: nat, m: Id, id: Id)
    requires AllSpent(l, minted)
    ensures AllSpent(Retire(l, m, id), minted)
  {
    hide NeverAgain;
    var l' := Retire(l, m, id);
    forall m', i | 0 <= i < |SlotsOf(l', m')| && SlotsOf(l', m')[i].Some?
      ensures NeverAgain(minted, SlotsOf(l', m')[i].value)
    {
      assert SlotsOf(l', m')[i] == SlotsOf(l, m')[i];
    }
  }

  lemma {:induction false} SpentAssignAll(l: Ledger, minted: nat, ms: seq<Id>, id: Id)
    requires AllSpent(l, minted) && NeverAgain(minted, id)
    ensures AllSpent(AssignAll(l, ms, id), minted)
  {
    hide AllSpent, NeverAgain;
    if ms != [] {
      SpentAssignAll(l, minted, ms[..|ms| - 1], id);
      SpentAssign(AssignAll(l, ms[..|ms| - 1], id), minted, ms[|ms| - 1], id);
    }
  }

  lemma {:induction false} SpentRetireAll(l: Ledger, minted: nat, ms: seq<Id>, id: Id)
    requires AllSpent(l, minted)
    ensures AllSpent(RetireAll(l, ms, id), minted)
  {
    hide AllSpent;
    if ms != [] {
      SpentRetireAll(l, minted, ms[..|ms| - 1], id);
      SpentRetire(RetireAll(l, ms[..|ms| - 1], id), minted, ms[|ms| - 1], id);
    }
  }

  // ----- Edits of the store -----

  lemma LiveIsSpent(st: Store, i: nat)
    requires Kept(st) && i < |st.emails|
    ensures NeverAgain(st.emailSeq, st.emails[i].id)
  {
    hide MintId;
    LookupAt(st.emails, i);
    forall n: nat | st.emailSeq < n <= U64_MAX
      ensures st.emails[i].id != MintId(n)
    {
      assert Lookup(st.emails, MintId(n)) == None;
    }
  }

  lemma MintedIsSpent(n: nat)
    ensures NeverAgain(n, MintId(n))
  {
    hide MintId;
    forall k: nat | n < k <= U64_MAX
      ensures MintId(n) != MintId(k)
    {
      MintInjective(n, k);
    }
  }

  lemma AddBuiltSpent(w: Work, b: Built)
    requires Spent(w.st) && (b.Fresh? ==> b.email.id == MintId(w.st.emailSeq + 1))
    ensures Spent(AddBuilt(w, b).st)
  {
    hide MintId, AllSpent, NeverAgain;
    if b.Fresh? {
      SpentLater(w.st.ledger, w.st.emailSeq, w.st.emailSeq + 1);
      MintedIsSpent(w.st.emailSeq + 1);
      SpentAssignAll(w.st.ledger, w.st.emailSeq + 1, b.email.mailboxIds, b.email.id);
    }
  }

  lemma DoAtSpent(w: Work, edit: Edit, i: nat)
    requires !edit.Create? && !edit.Import? && !edit.DestroyBatch?
    requires Kept(w.st) && Spent(w.st) && i < |w.st.emails| && w.st.emails[i].id == edit.id
    ensures Spent(DoAt(w, edit, i).st)
  {
    hide Kept, AllSpent, NeverAgain, Patched, KeywordsAfter, Changes, RetireAll, AssignAll, Retire, Assign, Include, Without;
    var e, l, n := w.st.emails[i], w.st.ledger, w.st.emailSeq;
    LiveIsSpent(w.st, i);
    match edit {
      case Patch(id, patch) =>
        var p := Patched(e.keywords, e.mailboxIds, patch);
        if p.Some? {
          var left, joined := Without(e.mailboxIds, Elems(p.value.mailboxIds)), Without(p.value.mailboxIds, Elems(e.mailboxIds));
          SpentRetireAll(l, n, left, id);
          SpentAssignAll(RetireAll(l, left, id), n, joined, id);
        }
      case Discard(id) => SpentRetireAll(l, n, e.mailboxIds, id);
      case Copy(id, target) => SpentAssign(l, n, target, id);
      case Move(id, source, target) =>
        SpentAssign(l, n, target, id);
        SpentRetire(Assign(l, target, id), n, source, id);
      case Expunge(id, source) => SpentRetire(l, n, source, id);
      case Flag(_, _) =>
    }
  }

  lemma {:induction false} DestroyEachSpent(w: Work, gone: seq<Email>, ids: seq<Id>)
    requires Spent(w.st)
    ensures Spent(DestroyEach(w, gone, ids).st)
  {
    hide AllSpent, Lookup;
    DestroyEachStore(w, gone, ids);
    if ids != [] {
      var front, last := ids[..|ids| - 1], ids[|ids| - 1];
      DestroyEachSpent(w, gone, front);
      DestroyEachStore(w, gone, front);
      var e := Lookup(gone, last);
      if e.Some? {
        SpentRetireAll(DestroyEach(w, gone, front).st.ledger, w.st.emailSeq, e.value.mailboxIds, last);
      }
    }
  }

  lemma DoSpent(w: Work, edit: Edit)
    requires Kept(w.st) && Spent(w.st)
    ensures Spent(Do(w, edit).st)
  {
    hide Kept, Spent, DoAt, BuildFrom, MintId;
    match edit {
      case Create(body) =>
        BuiltMinted(w.st, body);
        AddBuiltSpent(w, BuildFromCreate(w.st, body));
      case Import(body) =>
        BuiltMinted(w.st, body);
        AddBuiltSpent(w, BuildFromImport(w.st, body));
      case DestroyBatch(ids) =>
        var v := w.(st := w.st.(emails := EmailsWithout(w.st.emails, Elems(ids))));
        SameLedger(w.st, v.st);
        DestroyEachSpent(v, w.st.emails, ids);
      case _ =>
        var i := IndexOf(w.st.emails, edit.id);
        if i < |w.st.emails| {
          DoAtSpent(w, edit, i);
        }
    }
  }

  lemma SameLedger(a: Store, b: Store)
    requires a.ledger == b.ledger && a.emailSeq == b.emailSeq
    ensures Spent(a) <==> Spent(b)
  {
  }

  lemma BuiltMinted(st: Store, body: Json)
    ensures BuildFromCreate(st, body).Fresh? ==> BuildFromCreate(st, body).email.id == MintId(st.emailSeq + 1)
    ensures BuildFromImport(st, body).Fresh? ==> BuildFromImport(st, body).email.id == MintId(st.emailSeq + 1)
  {
    hide MintId, Get, BoolSet, KnownMailbox, AccountFor, NewestReceived;
  }

  lemma {:induction false} DoAllSpent(w: Work, edits: seq<Edit>)
    requires Kept(w.st) && Spent(w.st) && AllProper(edits) && DoAll(w, edits).st.emailSeq <= U64_MAX
    ensures Spent(DoAll(w, edits).st)
  {
    hide Do, Kept, Spent, Proper;
    if edits != [] {
      var front, last := edits[..|edits| - 1], edits[|edits| - 1];
      DoFrame(DoAll(w, front), last);
      DoAllKept(w, front);
      DoAllSpent(w, front);
      DoSpent(DoAll(w, front), last);
    }
  }

  // ----- Commands, runs, load -----

  lemma AroundSpent(st: Store, c: Command)
    ensures Spent(Around(st, c)) <==> Spent(st)
  {
    hide Around, AllSpent;
  }

  lemma ExecSpent(st: Store, c: Command)
    requires Kept(st) && Spent(st) && ProperCommand(c) && Exec(st, c).st.emailSeq <= U64_MAX
    ensures Spent(Exec(st, c).st)
  {
    hide Kept, Spent, Edits, ProperCommand, Around;
    EditsProper(st, c);
    AroundKept(st, c);
    AroundSpent(st, c);
    DoAllSpent(Work(Around(st, c), UNTOUCHED), Edits(st, c));
  }

  /** Loading assigns slots to loaded emails only. */
  lemma {:induction false} LoadSpent(emails: seq<Email>, minted: nat)
    requires forall i :: 0 <= i < |emails| ==> NeverAgain(minted, emails[i].id)
    ensures AllSpent(LoadLedger(emails), minted)
  {
    hide NeverAgain;
    if emails != [] {
      var front, last := emails[..|emails| - 1], emails[|emails| - 1];
      LoadSpent(front, minted);
      SpentAssignAll(LoadLedger(front), minted, last.mailboxIds, last.id);
    }
  }

  lemma LoadedStoreSpent(st: Store)
    requires Kept(st) && st.ledger == LoadLedger(st.emails)
    ensures Spent(st)
  {
    hide Kept, NeverAgain, LoadLedger, AllSpent;
    forall i | 0 <= i < |st.emails| {
      LiveIsSpent(st, i);
    }
    LoadSpent(st.emails, st.emailSeq);
  }
}
