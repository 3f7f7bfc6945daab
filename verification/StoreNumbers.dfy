/** `UID STORE` numbers messages its own way: by position among the emails that list the mailbox,
    not by ledger slot. This module says when the two numberings are the same. */
module StoreNumbers {
  import opened Basics
  import opened Patches
  import opened Ledgers
  import opened ChangeLogs
  import opened Stores
  import opened Upkeep
  import opened UidSets
  import opened Runs
  import opened Views
  import opened Clients

  /** `UID STORE` and `UID FETCH` mean the same message by the same UID. */
  ghost predicate Coherent(st: Store, m: Id) {
    StoreNumbered(st.emails, m) == Live(SlotsOf(st.ledger, m))
  }

  /** No retired slot lies before a live one. */
  ghost predicate NoGap(slots: Slots) {
    forall i, j :: 0 <= i < j < |slots| && slots[j].Some? ==> slots[i].Some?
  }

  lemma {:induction false} NumberedFromOne(emails: seq<Email>, m: Id)
    ensures forall i :: 0 <= i < |StoreNumbered(emails, m)| ==> StoreNumbered(emails, m)[i].uid == i + 1
  {
    if emails != [] {
      NumberedFromOne(emails[..|emails| - 1], m);
    }
  }

  lemma {:induction false} LiveWithoutGap(slots: Slots)
    requires NoGap(slots)
    ensures forall i :: 0 <= i < |Live(slots)| ==> Live(slots)[i].uid == i + 1
    ensures slots != [] && slots[|slots| - 1].Some? ==> |Live(slots)| == |slots|
  {
    if slots != [] {
      var n := |slots| - 1;
      LiveWithoutGap(slots[..n]);
      if slots[n].Some? && n > 0 {
        assert slots[n - 1].Some?;
      }
    }
  }

  /** Numbered 1, 2, 3, ... leaves no room for a retired slot. */
  lemma GaplessFromOne(slots: Slots)
    requires forall i :: 0 <= i < |Live(slots)| ==> Live(slots)[i].uid == i + 1
    ensures NoGap(slots)
  {
    hide Live;
    var seen := Live(slots);
    forall i, j | 0 <= i < j < |slots| && slots[j].Some?
      ensures slots[i].Some?
    {
      assert Seen(j + 1, slots[j].value) in seen;
      var k :| 0 <= k < |seen| && seen[k] == Seen(j + 1, slots[j].value);
      assert seen[i] in seen && seen[i].uid == i + 1;
    }
  }

  /** The two numberings agree exactly when no retired slot lies before a live one and both name the
      same messages in the same order. */
  lemma SameNumbersIff(st: Store, m: Id)
    ensures Coherent(st, m) <==>
            NoGap(SlotsOf(st.ledger, m)) &&
            SeenIds(Live(SlotsOf(st.ledger, m))) == SeenIds(StoreNumbered(st.emails, m))
  {
    hide Live, StoreNumbered, NoGap;
    var slots := SlotsOf(st.ledger, m);
    var a, b := StoreNumbered(st.emails, m), Live(slots);
    NumberedFromOne(st.emails, m);
    if Coherent(st, m) {
      GaplessFromOne(slots);
    }
    if NoGap(slots) && SeenIds(b) == SeenIds(a) {
      LiveWithoutGap(slots);
      forall i | 0 <= i < |a|
        ensures a[i] == b[i]
      {
        assert SeenIds(a)[i] == SeenIds(b)[i];
      }
      assert |SeenIds(a)| == |SeenIds(b)|;
    }
  }

  /** Where in the email list the emails of a mailbox stand. */
  function Rows(emails: seq<Email>, m: Id): (r: seq<nat>)
    ensures forall n: nat :: n in r <==> n < |emails| && m in emails[n].mailboxIds
  {
    if emails == [] then [] else
      var front, last := Rows(emails[..|emails| - 1], m), |emails| - 1;
      if m in emails[last].mailboxIds then front + [last] else front
  }

  lemma {:induction false} RowsNumbered(emails: seq<Email>, m: Id)
    ensures var r, a := Rows(emails, m), StoreNumbered(emails, m);
            && StrictlyAscending(r) && |r| == |a| && forall i :: 0 <= i < |a| ==> r[i] < |emails| && a[i].id == emails[r[i]].id
  {
    if emails != [] {
      var front := emails[..|emails| - 1];
      RowsNumbered(front, m);
      assert forall i :: 0 <= i < |Rows(front, m)| ==> Rows(front, m)[i] in Rows(front, m);
    }
  }

  function Places(emails: seq<Email>, seen: seq<Seen>): (r: seq<nat>)
    ensures |r| == |seen| && forall i :: 0 <= i < |r| ==> r[i] == IndexOf(emails, seen[i].id)
  {
    seq(|seen|, i requires 0 <= i < |seen| => IndexOf(emails, seen[i].id))
  }

  /** The live slots of the mailbox follow the email list. */
  ghost predicate InListOrder(st: Store, m: Id) {
    StrictlyAscending(Places(st.emails, Live(SlotsOf(st.ledger, m))))
  }

  /** Where slots and memberships match, the live slots and the listing emails are the same messages. */
  lemma SameRows(st: Store, m: Id, n: nat)
    requires UniqueIds(st.emails) && SlotsMatchIn(st, m)
    ensures n in Places(st.emails, Live(SlotsOf(st.ledger, m))) <==> n in Rows(st.emails, m)
  {
    hide Live, Rows;
    var slots := SlotsOf(st.ledger, m);
    var live := Live(slots);
    if n in Rows(st.emails, m) {
      var id := st.emails[n].id;
      LookupAt(st.emails, n);
      assert IndexOf(st.emails, id) == n;
      assert Count(st.ledger, m, id) == if Lists(st.emails, id, m) then 1 else 0;
      assert Some(id) in slots;
      var k :| 0 <= k < |slots| && slots[k] == Some(id);
      assert Seen(k + 1, id) in live;
      var i :| 0 <= i < |live| && live[i] == Seen(k + 1, id);
      assert Places(st.emails, live)[i] == n;
    }
    if i :| 0 <= i < |live| && Places(st.emails, live)[i] == n {
      assert live[i] in live;
      LiveLaw(st, m, live[i], live[i]);
    }
  }

  /** The two numberings agree exactly when no retired slot lies before a live one and the live slots
      follow the order of the email list. One EXPUNGE below a surviving message breaks the first; a
      COPY of an older email into the mailbox breaks the second. */
  lemma CoherentIff(st: Store, m: Id)
    requires UniqueIds(st.emails) && SlotsMatchIn(st, m)
    ensures Coherent(st, m) <==> NoGap(SlotsOf(st.ledger, m)) && InListOrder(st, m)
  {
    hide Live, StoreNumbered, NoGap, Rows, SlotsMatchIn, StrictlyAscending, Coherent, UniqueIds;
    var live, a := Live(SlotsOf(st.ledger, m)), StoreNumbered(st.emails, m);
    var places, rows := Places(st.emails, live), Rows(st.emails, m);
    SameNumbersIff(st, m);
    RowsNumbered(st.emails, m);
    forall n {
      SameRows(st, m, n);
    }
    if SeenIds(live) == SeenIds(a) {
      forall i | 0 <= i < |live|
        ensures places[i] == rows[i]
      {
        assert SeenIds(live)[i] == SeenIds(a)[i] == st.emails[rows[i]].id;
        OnePlace(st.emails, rows[i]);
      }
      assert |SeenIds(live)| == |SeenIds(a)|;
      assert places == rows;
    }
    if InListOrder(st, m) {
      SameAscending(places, rows);
      forall i | 0 <= i < |live|
        ensures SeenIds(live)[i] == SeenIds(a)[i]
      {
        assert places[i] == rows[i] < |st.emails|;
      }
      assert SeenIds(live) == SeenIds(a);
    }
  }

  lemma OnePlace(emails: seq<Email>, i: nat)
    requires UniqueIds(emails) && i < |emails|
    ensures IndexOf(emails, emails[i].id) == i
  {
  }

  /** For a client, which is shown only its account's emails, the two agree exactly when moreover the
      mailbox holds no other account's. */
  lemma ShownCoherentIff(st: Store, account: Id, m: Id)
    requires UniqueIds(st.emails) && SlotsMatchIn(st, m)
    ensures StoreNumbered(st.emails, m) == View(st, account, m) <==>
            NoGap(SlotsOf(st.ledger, m)) && InListOrder(st, m) && OwnMailbox(st, account, m)
  {
    hide Live, StoreNumbered, NoGap, InListOrder, SlotsMatchIn, Visible, IsVisible, UniqueIds;
    CoherentIff(st, m);
    if OwnMailbox(st, account, m) {
      ViewIsLive(st, account, m);
    }
    if StoreNumbered(st.emails, m) == View(st, account, m) {
      VisibleAre(st, account, Live(SlotsOf(st.ledger, m)));
      forall i | 0 <= i < |st.emails| && m in st.emails[i].mailboxIds
        ensures st.emails[i].account == account
      {
        NumberedNames(st.emails, m, i);
        LookupAt(st.emails, i);
        OwnerOf(st, account, st.emails[i].id);
      }
    }
  }

  lemma OwnerOf(st: Store, account: Id, id: Id)
    requires IsVisible(st, account, id)
    ensures Lookup(st.emails, id).Some? && Lookup(st.emails, id).value.account == account
  {
  }

  lemma NumberedNames(emails: seq<Email>, m: Id, i: nat)
    requires i < |emails| && m in emails[i].mailboxIds
    ensures exists s :: s in StoreNumbered(emails, m) && s.id == emails[i].id
  {
    hide StoreNumbered, Rows;
    RowsNumbered(emails, m);
    assert i in Rows(emails, m);
    var k :| 0 <= k < |Rows(emails, m)| && Rows(emails, m)[k] == i;
    assert StoreNumbered(emails, m)[k] in StoreNumbered(emails, m);
  }

  /** After message 1 of two is expunged, `UID STORE 1` edits the survivor, which `UID FETCH` calls 2. */
  lemma RetiredSlotExample(b: Email)
    requires b.mailboxIds == ["inbox"]
    ensures StoreNumbered([b], "inbox") == [Seen(1, b.id)]
    ensures Live([None, Some(b.id)]) == [Seen(2, b.id)]
  {
    assert [b][..0] == [];
    var slots: Slots := [None, Some(b.id)];
    assert slots[..1] == [None] && slots[..1][..0] == [];
    assert StoreNumbered([], "inbox") == [];
    assert Live(slots[..1]) == Live(slots[..1][..0]);
  }

  // ----- From load by creates alone -----

  function Names(emails: seq<Email>, m: Id): seq<Id> {
    if emails == [] then [] else
      var last := emails[|emails| - 1];
      if m in last.mailboxIds then Names(emails[..|emails| - 1], m) + [last.id] else Names(emails[..|emails| - 1], m)
  }

  ghost predicate Aligned(emails: seq<Email>, l: Ledger) {
    forall m :: SlotsOf(l, m) == Somes(Names(emails, m))
  }

  lemma {:induction false} AssignAllSlots(l: Ledger, ms: seq<Id>, id: Id, m: Id)
    requires Distinct(ms)
    ensures SlotsOf(AssignAll(l, ms, id), m) == SlotsOf(l, m) + if m in ms then [Some(id)] else []
  {
    if ms != [] {
      var front, last := ms[..|ms| - 1], ms[|ms| - 1];
      assert ms == front + [last] && last !in front;
      AssignAllSlots(l, front, id, m);
    }
  }

  lemma AlignedAdd(emails: seq<Email>, l: Ledger, e: Email)
    requires Aligned(emails, l) && Distinct(e.mailboxIds)
    ensures Aligned(emails + [e], AssignAll(l, e.mailboxIds, e.id))
  {
    forall m
      ensures SlotsOf(AssignAll(l, e.mailboxIds, e.id), m) == Somes(Names(emails + [e], m))
    {
      AssignAllSlots(l, e.mailboxIds, e.id, m);
      assert (emails + [e])[..|emails|] == emails;
    }
  }

  lemma {:induction false} LoadAligned(emails: seq<Email>)
    requires forall i :: 0 <= i < |emails| ==> Distinct(emails[i].mailboxIds)
    ensures Aligned(emails, LoadLedger(emails))
  {
    hide Aligned, Distinct;
    if emails == [] {
      NothingAligned();
    } else {
      LoadAligned(emails[..|emails| - 1]);
      AlignedAdd(emails[..|emails| - 1], LoadLedger(emails[..|emails| - 1]), emails[|emails| - 1]);
      assert emails == emails[..|emails| - 1] + [emails[|emails| - 1]];
    }
  }

  lemma NothingAligned()
    ensures Aligned([], map[])
  {
  }

  lemma {:induction false} NamesNumbered(emails: seq<Email>, m: Id)
    ensures Live(Somes(Names(emails, m))) == StoreNumbered(emails, m)
    ensures |StoreNumbered(emails, m)| == |Names(emails, m)|
  {
    if emails != [] {
      var front := emails[..|emails| - 1];
      NamesNumbered(front, m);
      assert Somes(Names(emails, m))[..|Names(front, m)|] == Somes(Names(front, m));
    }
  }

  /** Commands that only create: `Email/import`, and `Email/set` without updates or destroys. */
  predicate OnlyCreates(c: Command) {
    c.EmailImport? || (c.EmailSet? && c.updates == [] && c.destroys == [])
  }

  lemma {:induction false} CreatesAligned(w: Work, edits: seq<Edit>)
    requires Aligned(w.st.emails, w.st.ledger) && AllProper(edits)
    requires forall i :: 0 <= i < |edits| ==> edits[i].Create? || edits[i].Import? || edits[i] == DestroyBatch([])
    ensures var v := DoAll(w, edits); Aligned(v.st.emails, v.st.ledger)
  {
    hide Aligned, BuildFrom, WellFormed;
    if edits != [] {
      var front, last := edits[..|edits| - 1], edits[|edits| - 1];
      CreatesAligned(w, front);
      OneAligned(DoAll(w, front), last);
    }
  }

  lemma OneAligned(w: Work, edit: Edit)
    requires Aligned(w.st.emails, w.st.ledger) && Proper(edit)
    requires edit.Create? || edit.Import? || edit == DestroyBatch([])
    ensures var v := Do(w, edit); Aligned(v.st.emails, v.st.ledger)
  {
    hide Aligned, BuildFrom, WellFormed, AssignAll;
    if edit.DestroyBatch? {
      NothingDropped(w.st.emails);
      assert Elems(edit.ids) == {};
    } else {
      var body := edit.body;
      if body.Obj? && BuildFrom(w.st, body.fields).Fresh? {
        BuiltPlaced(w.st, body.fields);
        AlignedAdd(w.st.emails, w.st.ledger, BuildFrom(w.st, body.fields).email);
      }
    }
  }

  lemma {:induction false} NothingDropped(emails: seq<Email>)
    ensures EmailsWithout(emails, {}) == emails
  {
    if emails != [] {
      NothingDropped(emails[..|emails| - 1]);
      assert emails == emails[..|emails| - 1] + [emails[|emails| - 1]];
    }
  }

  lemma {:induction false} RunAligned(st: Store, cs: seq<Command>)
    requires Aligned(st.emails, st.ledger)
    requires forall i :: 0 <= i < |cs| ==> ProperCommand(cs[i]) && OnlyCreates(cs[i])
    ensures Aligned(RunStore(st, cs).emails, RunStore(st, cs).ledger)
  {
    hide Aligned, DoAll, ProperCommand;
    if cs != [] {
      var front, last := cs[..|cs| - 1], cs[|cs| - 1];
      RunAligned(st, front);
      EditsProper(RunStore(st, front), last);
      CreatesAligned(Work(RunStore(st, front), UNTOUCHED), Edits(RunStore(st, front), last));
    }
  }

  /** In every state reached from a load (with duplicate-free memberships) by creates alone, the two
      numberings agree in every mailbox. */
  lemma CoherentFromLoad(st: Store, cs: seq<Command>, m: Id)
    requires st.ledger == LoadLedger(st.emails)
    requires forall i :: 0 <= i < |st.emails| ==> Distinct(st.emails[i].mailboxIds)
    requires forall i :: 0 <= i < |cs| ==> ProperCommand(cs[i]) && OnlyCreates(cs[i])
    ensures Coherent(RunStore(st, cs), m)
  {
    hide RunStore, StoreNumbered, Live, Names, ProperCommand, OnlyCreates, LoadLedger;
    LoadAligned(st.emails);
    RunAligned(st, cs);
    NamesNumbered(RunStore(st, cs).emails, m);
  }
}
