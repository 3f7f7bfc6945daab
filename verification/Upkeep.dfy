/** What every edit, and so every command and every run, keeps: unique email ids, no email without
    a mailbox, fresh minted ids, and the ledger in step with the membership lists. */
module Upkeep {
  import opened Basics
  import opened Patches
  import opened Ledgers
  import opened Flags
  import opened Stores
  import Decimal

  ghost predicate UniqueIds(emails: seq<Email>) {
    forall i, j :: 0 <= i < j < |emails| ==> emails[i].id != emails[j].id
  }

  /** Section 4.1.1 of RFC 8621: an email belongs to one or more mailboxes at all times. */
  ghost predicate Placed(emails: seq<Email>) {
    forall i :: 0 <= i < |emails| ==> emails[i].mailboxIds != []
  }

  /** No live id is one that a later mint would produce. */
  ghost predicate MintBound(st: Store) {
    forall n: nat :: st.emailSeq < n <= U64_MAX ==> Lookup(st.emails, MintId(n)) == None
  }

  ghost predicate Kept(st: Store) {
    UniqueIds(st.emails) && Placed(st.emails) && MintBound(st)
  }

  /** Each mailbox has exactly one live slot for each email that lists it, and none for any other. */
  ghost predicate SlotsMatch(st: Store) {
    forall m, id :: Count(st.ledger, m, id) == if Lists(st.emails, id, m) then 1 else 0
  }

  /** The same of one mailbox. */
  ghost predicate SlotsMatchIn(st: Store, m: Id) {
    forall id :: Count(st.ledger, m, id) == if Lists(st.emails, id, m) then 1 else 0
  }

  lemma LawfulIn(st: Store, m: Id)
    requires LedgerOk(st)
    ensures SlotsMatchIn(st, m)
  {
    hide Count, Lists;
  }

  /** No email names a mailbox twice. */
  ghost predicate NoRepeats(emails: seq<Email>) {
    forall i :: 0 <= i < |emails| ==> Distinct(emails[i].mailboxIds)
  }

  /** The ledger law. */
  ghost predicate LedgerOk(st: Store) {
    NoRepeats(st.emails) && SlotsMatch(st)
  }

  // ----- Lookups through the list operations -----

  lemma LookupPut(emails: seq<Email>, i: nat, e: Email, id: Id)
    requires UniqueIds(emails) && i < |emails| && e.id == emails[i].id
    ensures UniqueIds(emails[i := e])
    ensures Lookup(emails[i := e], id) == if id == e.id then Some(e) else Lookup(emails, id)
  {
    var after := emails[i := e];
    assert forall j :: 0 <= j < |emails| ==> after[j].id == emails[j].id;
    var k, k' := IndexOf(emails, id), IndexOf(after, id);
    assert k == k';
  }

  lemma LookupAdd(emails: seq<Email>, e: Email, id: Id)
    requires UniqueIds(emails) && Lookup(emails, e.id) == None
    ensures UniqueIds(emails + [e])
    ensures Lookup(emails + [e], id) == if id == e.id then Some(e) else Lookup(emails, id)
  {
    var k, k' := IndexOf(emails, id), IndexOf(emails + [e], id);
    assert (emails + [e])[|emails|] == e;
    assert forall j :: 0 <= j < |emails| ==> (emails + [e])[j] == emails[j];
  }

  lemma LookupDrop(emails: seq<Email>, i: nat, id: Id)
    requires UniqueIds(emails) && i < |emails|
    ensures UniqueIds(emails[..i] + emails[i + 1..])
    ensures Lookup(emails[..i] + emails[i + 1..], id) == if id == emails[i].id then None else Lookup(emails, id)
  {
    var after := emails[..i] + emails[i + 1..];
    assert forall j :: 0 <= j < |after| ==> after[j] == emails[if j < i then j else j + 1];
    var k, k' := IndexOf(emails, id), IndexOf(after, id);
    if k < |emails| && k != i {
      assert after[if k < i then k else k - 1] == emails[k];
    }
  }

  lemma {:induction false} LookupWithout(emails: seq<Email>, ids: set<Id>, id: Id)
    requires UniqueIds(emails)
    ensures UniqueIds(EmailsWithout(emails, ids))
    ensures Lookup(EmailsWithout(emails, ids), id) == if id in ids then None else Lookup(emails, id)
    ensures forall e :: e in EmailsWithout(emails, ids) ==> e in emails
  {
    if emails != [] {
      var front, last := emails[..|emails| - 1], emails[|emails| - 1];
      assert emails == front + [last];
      LookupWithout(front, ids, id);
      LookupWithout(front, ids, last.id);
      assert Lookup(front, last.id) == None;
      LookupAdd(front, last, id);
      if last.id !in ids {
        LookupAdd(EmailsWithout(front, ids), last, id);
      }
    }
  }

  lemma LookupAt(emails: seq<Email>, i: nat)
    requires UniqueIds(emails) && i < |emails|
    ensures Lookup(emails, emails[i].id) == Some(emails[i])
  {
  }

  // ----- Minted ids -----

  lemma MintInjective(m: nat, n: nat)
    ensures MintId(m) == MintId(n) <==> m == n
  {
    if MintId(m) == MintId(n) {
      assert MintId(m)[11..] == Decimal.Print(m);
      assert MintId(n)[11..] == Decimal.Print(n);
      Decimal.PrintInjective(m, n);
    }
  }

  /** The loader's starting counter: the largest number that follows "mock-email-" in a loaded id. */
  function MaxMockSeq(ids: seq<Id>): nat {
    if ids == [] then 0 else
      var rest := MaxMockSeq(ids[1..]);
      var id := ids[0];
      if |id| >= 11 && id[..11] == "mock-email-" then
        match Decimal.Parse(id[11..], U64_MAX)
        case Some(n) => if n > rest then n else rest
        case None => rest
      else rest
  }

  /** Starting the counter at that number, or above, is what makes every later mint fresh. */
  lemma {:induction false} MaxMockSeqBounds(ids: seq<Id>, n: nat)
    requires MintId(n) in ids && n <= U64_MAX
    ensures n <= MaxMockSeq(ids)
  {
    hide MintId;
    if ids[0] == MintId(n) {
      MintParses(n);
    } else {
      assert ids == [ids[0]] + ids[1..];
      MaxMockSeqBounds(ids[1..], n);
    }
  }

  lemma MintParses(n: nat)
    requires n <= U64_MAX
    ensures var id := MintId(n); |id| >= 11 && id[..11] == "mock-email-" && Decimal.Parse(id[11..], U64_MAX) == Some(n)
  {
    var prefix := "mock-email-";
    assert |prefix| == 11;
    assert MintId(n)[..11] == prefix && MintId(n)[11..] == Decimal.Print(n);
    Decimal.ParsePrint(n, U64_MAX);
  }

  // ----- Arguments -----

  /** The JSON an edit carries came out of a parser, so no object repeats a key; and a move has two
      different ends, because `UID MOVE` into the selected mailbox edits nothing. */
  ghost predicate Proper(edit: Edit) {
    match edit
    case Create(body) => WellFormed(body)
    case Import(body) => WellFormed(body)
    case Patch(_, patch) => WellFormed(patch)
    case Move(_, source, target) => source != target
    case _ => true
  }

  lemma {:induction false} GetWellFormed(fields: seq<Field>, key: string)
    requires WellFormed(Obj(fields))
    ensures WellFormed(Get(fields, key))
  {
    if fields != [] {
      assert fields[0] in fields;
      if fields[0].key != key {
        assert forall f :: f in fields[1..] ==> f in fields;
        GetWellFormed(fields[1..], key);
      }
    }
  }

  lemma BuiltPlaced(st: Store, fields: seq<Field>)
    requires WellFormed(Obj(fields)) && BuildFrom(st, fields).Fresh?
    ensures var e := BuildFrom(st, fields).email;
            e.id == MintId(st.emailSeq + 1) && e.mailboxIds != [] && Distinct(e.mailboxIds)
  {
    hide MintId;
    GetWellFormed(fields, "mailboxIds");
    BoolSetDistinct(Get(fields, "mailboxIds").fields);
  }

  // ----- Kept -----

  lemma AddBuiltKept(w: Work, b: Built)
    requires Kept(w.st) && AddBuilt(w, b).st.emailSeq <= U64_MAX
    requires b.Fresh? ==> b.email.id == MintId(w.st.emailSeq + 1) && b.email.mailboxIds != []
    ensures Kept(AddBuilt(w, b).st)
  {
    hide MintId, Lookup;
    if b.Fresh? {
      var st, st' := w.st, AddBuilt(w, b).st;
      forall n: nat | st'.emailSeq < n <= U64_MAX
        ensures Lookup(st'.emails, MintId(n)) == None
      {
        MintInjective(n, st.emailSeq + 1);
        LookupAdd(st.emails, b.email, MintId(n));
      }
      LookupAdd(st.emails, b.email, b.email.id);
    }
  }

  lemma PutKept(st: Store, i: nat, e: Email, ledger: Ledger)
    requires Kept(st) && i < |st.emails| && e.id == st.emails[i].id
    requires e.mailboxIds != []
    ensures Kept(st.(emails := st.emails[i := e], ledger := ledger))
  {
    hide MintId, Lookup;
    LookupPut(st.emails, i, e, e.id);
    forall n: nat | st.emailSeq < n <= U64_MAX
      ensures Lookup(st.emails[i := e], MintId(n)) == None
    {
      LookupPut(st.emails, i, e, MintId(n));
      LookupAt(st.emails, i);
    }
  }

  lemma DropKept(st: Store, i: nat, ledger: Ledger)
    requires Kept(st) && i < |st.emails|
    ensures Kept(st.(emails := st.emails[..i] + st.emails[i + 1..], ledger := ledger))
  {
    hide MintId, Lookup;
    var after := st.emails[..i] + st.emails[i + 1..];
    assert forall j :: 0 <= j < |after| ==> after[j] == st.emails[if j < i then j else j + 1];
    LookupDrop(st.emails, i, st.emails[i].id);
    forall n: nat | st.emailSeq < n <= U64_MAX
      ensures Lookup(after, MintId(n)) == None
    {
      LookupDrop(st.emails, i, MintId(n));
    }
  }

  lemma {:induction false} DestroyEachStore(w: Work, gone: seq<Email>, ids: seq<Id>)
    ensures DestroyEach(w, gone, ids).st == w.st.(ledger := DestroyEach(w, gone, ids).st.ledger)
  {
    if ids != [] {
      DestroyEachStore(w, gone, ids[..|ids| - 1]);
    }
  }

  lemma {:induction false} DestroyEachLists(w: Work, gone: seq<Email>, ids: seq<Id>)
    ensures var v := DestroyEach(w, gone, ids); v.log.created == w.log.created && v.log.updated == w.log.updated
  {
    hide Lookup;
    if ids != [] {
      DestroyEachLists(w, gone, ids[..|ids| - 1]);
    }
  }

  lemma BatchKept(w: Work, ids: seq<Id>)
    requires Kept(w.st)
    ensures Kept(Do(w, DestroyBatch(ids)).st)
  {
    hide MintId, Lookup;
    var after := EmailsWithout(w.st.emails, Elems(ids));
    DestroyEachStore(w.(st := w.st.(emails := after)), w.st.emails, ids);
    LookupWithout(w.st.emails, Elems(ids), "");
    forall j | 0 <= j < |after|
      ensures after[j].mailboxIds != []
    {
      assert after[j] in w.st.emails;
    }
    forall n: nat | w.st.emailSeq < n <= U64_MAX
      ensures Lookup(after, MintId(n)) == None
    {
      LookupWithout(w.st.emails, Elems(ids), MintId(n));
    }
  }

  lemma PlacedAt(st: Store, i: nat)
    requires Kept(st) && i < |st.emails|
    ensures st.emails[i].mailboxIds != []
  {
  }

  lemma DoAtKept(w: Work, edit: Edit, i: nat)
    requires !edit.Create? && !edit.Import? && !edit.DestroyBatch?
    requires Kept(w.st) && Proper(edit) && i < |w.st.emails|
    ensures Kept(DoAt(w, edit, i).st)
  {
    hide Kept, Patched, KeywordsAfter, Changes, Sync, RetireAll, Retire, Assign;
    var e, l := w.st.emails[i], w.st.ledger;
    PlacedAt(w.st, i);
    match edit {
      case Patch(id, patch) =>
        var p := Patched(e.keywords, e.mailboxIds, patch);
        if p.Some? {
          PatchedMailboxes(e.keywords, e.mailboxIds, patch);
          PutKept(w.st, i, e.(keywords := p.value.keywords, mailboxIds := p.value.mailboxIds),
                  Sync(l, id, e.mailboxIds, p.value.mailboxIds));
        }
      case Discard(id) => DropKept(w.st, i, RetireAll(l, e.mailboxIds, id));
      case Copy(id, target) =>
        if target !in e.mailboxIds {
          PutKept(w.st, i, e.(mailboxIds := e.mailboxIds + [target]), Assign(l, target, id));
        }
      case Move(id, source, target) =>
        var joined := Include(e.mailboxIds, target);
        assert target in Without(joined, {source});
        PutKept(w.st, i, e.(mailboxIds := Without(joined, {source})), Retire(Assign(l, target, id), source, id));
      case Expunge(id, source) =>
        var rest := Without(e.mailboxIds, {source});
        if rest == [] {
          DropKept(w.st, i, Retire(l, source, id));
        } else {
          PutKept(w.st, i, e.(mailboxIds := rest), Retire(l, source, id));
        }
      case Flag(id, op) => PutKept(w.st, i, e.(keywords := KeywordsAfter(op, e.keywords)), l);
    }
  }

  lemma DoKept(w: Work, edit: Edit)
    requires Kept(w.st) && Proper(edit) && Do(w, edit).st.emailSeq <= U64_MAX
    ensures Kept(Do(w, edit).st)
  {
    hide Kept, DoAt;
    match edit {
      case Create(body) =>
        if body.Obj? && BuildFrom(w.st, body.fields).Fresh? {
          BuiltPlaced(w.st, body.fields);
        }
        AddBuiltKept(w, BuildFromCreate(w.st, body));
      case Import(body) =>
        if body.Obj? && BuildFrom(w.st, body.fields).Fresh? {
          BuiltPlaced(w.st, body.fields);
        }
        AddBuiltKept(w, BuildFromImport(w.st, body));
      case DestroyBatch(ids) => BatchKept(w, ids);
      case _ =>
        var i := IndexOf(w.st.emails, edit.id);
        if i < |w.st.emails| {
          DoAtKept(w, edit, i);
        }
    }
  }

  /** Only emails, ledger and mint counter are touched; the mint counter never goes back. */
  lemma DoAtFrame(w: Work, edit: Edit, i: nat)
    requires !edit.Create? && !edit.Import? && !edit.DestroyBatch? && i < |w.st.emails|
    ensures var st, st' := w.st, DoAt(w, edit, i).st;
            st' == st.(emails := st'.emails, ledger := st'.ledger)
  {
    hide Patched, KeywordsAfter, Changes, Sync, Assign, Retire, RetireAll, Without, Include;
  }

  lemma DoFrame(w: Work, edit: Edit)
    ensures var st, st' := w.st, Do(w, edit).st;
            && st' == st.(emails := st'.emails, ledger := st'.ledger, emailSeq := st'.emailSeq)
            && st.emailSeq <= st'.emailSeq
  {
    hide DoAt, BuildFromCreate, BuildFromImport, IndexOf, DestroyEach, EmailsWithout, AssignAll;
    if edit.DestroyBatch? {
      DestroyEachStore(w.(st := w.st.(emails := EmailsWithout(w.st.emails, Elems(edit.ids)))), w.st.emails, edit.ids);
    } else if !edit.Create? && !edit.Import? {
      var i := IndexOf(w.st.emails, edit.id);
      if i < |w.st.emails| {
        DoAtFrame(w, edit, i);
      }
    }
  }

  ghost predicate AllProper(edits: seq<Edit>) {
    forall i :: 0 <= i < |edits| ==> Proper(edits[i])
  }

  lemma {:induction false} DoAllFrame(w: Work, edits: seq<Edit>)
    ensures var st, st' := w.st, DoAll(w, edits).st;
            && st' == st.(emails := st'.emails, ledger := st'.ledger, emailSeq := st'.emailSeq)
            && st.emailSeq <= st'.emailSeq
  {
    hide Do;
    if edits != [] {
      var front := edits[..|edits| - 1];
      DoAllFrame(w, front);
      DoFrame(DoAll(w, front), edits[|edits| - 1]);
    }
  }

  lemma {:induction false} DoAllKept(w: Work, edits: seq<Edit>)
    requires Kept(w.st) && AllProper(edits) && DoAll(w, edits).st.emailSeq <= U64_MAX
    ensures Kept(DoAll(w, edits).st)
  {
    hide Do, Kept, Proper;
    if edits != [] {
      var front, last := edits[..|edits| - 1], edits[|edits| - 1];
      DoFrame(DoAll(w, front), last);
      DoAllKept(w, front);
      DoKept(DoAll(w, front), last);
    }
  }

  // ----- The ledger law, edit by edit -----

  lemma AddBuiltLedger(w: Work, b: Built)
    requires Kept(w.st) && SlotsMatch(w.st) && AddBuilt(w, b).st.emailSeq <= U64_MAX
    requires b.Fresh? ==> b.email.id == MintId(w.st.emailSeq + 1) && Distinct(b.email.mailboxIds)
    ensures SlotsMatch(AddBuilt(w, b).st)
  {
    hide MintId, Lookup, Count, AssignAll;
    if b.Fresh? {
      var st, st', e := w.st, AddBuilt(w, b).st, b.email;
      forall m, id
        ensures Count(st'.ledger, m, id) == if Lists(st'.emails, id, m) then 1 else 0
      {
        CountAssignAll(st.ledger, e.mailboxIds, e.id, m, id);
        LookupAdd(st.emails, e, id);
      }
    }
  }

  /** One email's membership list changes, and the counts of its own slots change with it. */
  lemma PutLedger(st: Store, i: nat, e: Email, ledger: Ledger)
    requires UniqueIds(st.emails) && SlotsMatch(st) && i < |st.emails| && e.id == st.emails[i].id
    requires forall m, id :: Count(ledger, m, id) ==
               if id == e.id then (if m in e.mailboxIds then 1 else 0) else Count(st.ledger, m, id)
    ensures SlotsMatch(st.(emails := st.emails[i := e], ledger := ledger))
  {
    hide Count, Lookup;
    forall m, id
      ensures Count(ledger, m, id) == if Lists(st.emails[i := e], id, m) then 1 else 0
    {
      LookupPut(st.emails, i, e, id);
    }
  }

  lemma DropLedger(st: Store, i: nat, ledger: Ledger)
    requires UniqueIds(st.emails) && SlotsMatch(st) && i < |st.emails|
    requires forall m, id :: Count(ledger, m, id) == if id == st.emails[i].id then 0 else Count(st.ledger, m, id)
    ensures SlotsMatch(st.(emails := st.emails[..i] + st.emails[i + 1..], ledger := ledger))
  {
    hide Count, Lookup;
    forall m, id
      ensures Count(ledger, m, id) == if Lists(st.emails[..i] + st.emails[i + 1..], id, m) then 1 else 0
    {
      LookupDrop(st.emails, i, id);
    }
  }

  /** The slots of one live email, read off the law. */
  lemma CountsOf(st: Store, i: nat)
    requires UniqueIds(st.emails) && SlotsMatch(st) && i < |st.emails|
    ensures forall m :: Count(st.ledger, m, st.emails[i].id) == if m in st.emails[i].mailboxIds then 1 else 0
  {
    hide Count;
    LookupAt(st.emails, i);
    forall m
      ensures Count(st.ledger, m, st.emails[i].id) == if m in st.emails[i].mailboxIds then 1 else 0
    {
      assert Lists(st.emails, st.emails[i].id, m) <==> m in st.emails[i].mailboxIds;
    }
  }

  lemma DoAtLedger(w: Work, edit: Edit, i: nat)
    requires !edit.Create? && !edit.Import? && !edit.DestroyBatch?
    requires Kept(w.st) && LedgerOk(w.st) && Proper(edit)
    requires i < |w.st.emails| && w.st.emails[i].id == edit.id
    requires edit.Move? ==> edit.target !in w.st.emails[i].mailboxIds
    ensures SlotsMatch(DoAt(w, edit, i).st)
  {
    hide SlotsMatch, Count, Patched, KeywordsAfter, Changes, Sync, RetireAll, Retire, Assign, Lookup, MintId;
    var st, e, l := w.st, w.st.emails[i], w.st.ledger;
    CountsOf(st, i);
    match edit {
      case Patch(id, patch) =>
        var p := Patched(e.keywords, e.mailboxIds, patch);
        if p.Some? {
          NoRepeatsAt(st.emails, i);
          PatchedDistinct(e.keywords, e.mailboxIds, patch);
          forall m', id' {
            CountSync(l, id, e.mailboxIds, p.value.mailboxIds, m', id');
          }
          PutLedger(st, i, e.(keywords := p.value.keywords, mailboxIds := p.value.mailboxIds),
                    Sync(l, id, e.mailboxIds, p.value.mailboxIds));
        }
      case Discard(id) =>
        forall m', id' {
          CountRetireAll(l, e.mailboxIds, id, m', id');
        }
        DropLedger(st, i, RetireAll(l, e.mailboxIds, id));
      case Copy(id, target) =>
        if target !in e.mailboxIds {
          forall m', id' {
            CountAssign(l, target, id, m', id');
          }
          PutLedger(st, i, e.(mailboxIds := e.mailboxIds + [target]), Assign(l, target, id));
        }
      case Move(id, source, target) =>
        forall m', id' {
          CountAssign(l, target, id, m', id');
        }
        forall m', id' {
          CountRetire(Assign(l, target, id), source, id, m', id');
        }
        PutLedger(st, i, e.(mailboxIds := Without(Include(e.mailboxIds, target), {source})),
                  Retire(Assign(l, target, id), source, id));
      case Expunge(id, source) =>
        var rest := Without(e.mailboxIds, {source});
        forall m', id' {
          CountRetire(l, source, id, m', id');
        }
        if rest == [] {
          assert forall m :: m in e.mailboxIds ==> m == source by {
            assert forall m :: m in e.mailboxIds && m != source ==> m in rest;
          }
          DropLedger(st, i, Retire(l, source, id));
        } else {
          PutLedger(st, i, e.(mailboxIds := rest), Retire(l, source, id));
        }
      case Flag(id, op) =>
        PutLedger(st, i, e.(keywords := KeywordsAfter(op, e.keywords)), l);
    }
  }

  /** A batch destroy empties every slot of every requested id. */
  lemma {:induction false} DestroyEachCounts(w: Work, st: Store, ids: seq<Id>, m: Id, id: Id)
    requires Kept(st) && LedgerOk(st) && w.st.ledger == st.ledger
    ensures Count(DestroyEach(w, st.emails, ids).st.ledger, m, id) ==
            if id in ids then 0 else Count(st.ledger, m, id)
  {
    hide Count, RetireAll, MintId, IndexOf;
    if ids != [] {
      var front, last := ids[..|ids| - 1], ids[|ids| - 1];
      assert ids == front + [last];
      var l := DestroyEach(w, st.emails, front).st.ledger;
      DestroyEachCounts(w, st, front, m, id);
      var e := Lookup(st.emails, last);
      if e.Some? {
        LookupPlaced(st, last);
        DestroyEachCounts(w, st, front, m, last);
        CountRetireAll(l, e.value.mailboxIds, last, m, id);
      }
      assert Count(st.ledger, m, last) == if Lists(st.emails, last, m) then 1 else 0;
    }
  }

  lemma LookupPlaced(st: Store, id: Id)
    requires NoRepeats(st.emails) && Lookup(st.emails, id).Some?
    ensures var e := Lookup(st.emails, id).value; e.id == id && Distinct(e.mailboxIds)
  {
  }

  lemma BatchLedger(w: Work, ids: seq<Id>)
    requires Kept(w.st) && LedgerOk(w.st)
    ensures SlotsMatch(Do(w, DestroyBatch(ids)).st)
  {
    hide Count, Kept, Lookup;
    var st := w.st;
    var v := w.(st := st.(emails := EmailsWithout(st.emails, Elems(ids))));
    DestroyEachStore(v, st.emails, ids);
    forall m, id
      ensures Count(DestroyEach(v, st.emails, ids).st.ledger, m, id) == if Lists(v.st.emails, id, m) then 1 else 0
    {
      DestroyEachCounts(v, st, ids, m, id);
      KeptUnique(st);
      LookupWithout(st.emails, Elems(ids), id);
      assert Count(st.ledger, m, id) == if Lists(st.emails, id, m) then 1 else 0;
    }
  }

  lemma KeptUnique(st: Store)
    requires Kept(st)
    ensures UniqueIds(st.emails)
  {
  }

  lemma PutNoRepeats(emails: seq<Email>, i: nat, e: Email)
    requires NoRepeats(emails) && i < |emails| && Distinct(e.mailboxIds)
    ensures NoRepeats(emails[i := e])
  {
  }

  lemma DropNoRepeats(emails: seq<Email>, i: nat)
    requires NoRepeats(emails) && i < |emails|
    ensures NoRepeats(emails[..i] + emails[i + 1..])
  {
    var after := emails[..i] + emails[i + 1..];
    assert forall j :: 0 <= j < |after| ==> after[j] == emails[if j < i then j else j + 1];
  }

  lemma {:induction false} WithoutNoRepeats(emails: seq<Email>, ids: set<Id>)
    requires NoRepeats(emails)
    ensures NoRepeats(EmailsWithout(emails, ids))
  {
    if emails != [] {
      WithoutNoRepeats(emails[..|emails| - 1], ids);
    }
  }

  lemma AddNoRepeats(w: Work, b: Built)
    requires NoRepeats(w.st.emails) && (b.Fresh? ==> Distinct(b.email.mailboxIds))
    ensures NoRepeats(AddBuilt(w, b).st.emails)
  {
  }

  lemma DoAtNoRepeats(w: Work, edit: Edit, i: nat)
    requires !edit.Create? && !edit.Import? && !edit.DestroyBatch?
    requires NoRepeats(w.st.emails) && Proper(edit) && i < |w.st.emails|
    ensures NoRepeats(DoAt(w, edit, i).st.emails)
  {
    hide NoRepeats, Distinct, Patched, KeywordsAfter, Changes, Sync, RetireAll, Retire, Assign;
    var e := w.st.emails[i];
    NoRepeatsAt(w.st.emails, i);
    match edit {
      case Patch(id, patch) =>
        var p := Patched(e.keywords, e.mailboxIds, patch);
        if p.Some? {
          PatchedDistinct(e.keywords, e.mailboxIds, patch);
          PutNoRepeats(w.st.emails, i, e.(keywords := p.value.keywords, mailboxIds := p.value.mailboxIds));
        }
      case Discard(id) => DropNoRepeats(w.st.emails, i);
      case Copy(id, target) =>
        if target !in e.mailboxIds {
          IncludeDistinct(e.mailboxIds, target);
          PutNoRepeats(w.st.emails, i, e.(mailboxIds := e.mailboxIds + [target]));
        }
      case Move(id, source, target) =>
        var joined := Include(e.mailboxIds, target);
        IncludeDistinct(e.mailboxIds, target);
        WithoutDistinct(joined, {source});
        PutNoRepeats(w.st.emails, i, e.(mailboxIds := Without(joined, {source})));
      case Expunge(id, source) =>
        var rest := Without(e.mailboxIds, {source});
        WithoutDistinct(e.mailboxIds, {source});
        if rest == [] {
          DropNoRepeats(w.st.emails, i);
        } else {
          PutNoRepeats(w.st.emails, i, e.(mailboxIds := rest));
        }
      case Flag(id, op) => PutNoRepeats(w.st.emails, i, e.(keywords := KeywordsAfter(op, e.keywords)));
    }
  }

  lemma NoRepeatsAt(emails: seq<Email>, i: nat)
    requires NoRepeats(emails) && i < |emails|
    ensures Distinct(emails[i].mailboxIds)
  {
  }

  lemma IncludeDistinct(ms: seq<Id>, m: Id)
    requires Distinct(ms)
    ensures Distinct(Include(ms, m))
  {
  }

  /** Every edit, MOVE included, leaves duplicate-free memberships duplicate-free. */
  lemma DoNoRepeats(w: Work, edit: Edit)
    requires NoRepeats(w.st.emails) && Proper(edit)
    ensures NoRepeats(Do(w, edit).st.emails)
  {
    hide NoRepeats, DoAt, Distinct, BuildFrom, IndexOf;
    match edit {
      case Create(body) =>
        if body.Obj? && BuildFrom(w.st, body.fields).Fresh? {
          BuiltPlaced(w.st, body.fields);
        }
        AddNoRepeats(w, BuildFromCreate(w.st, body));
      case Import(body) =>
        if body.Obj? && BuildFrom(w.st, body.fields).Fresh? {
          BuiltPlaced(w.st, body.fields);
        }
        AddNoRepeats(w, BuildFromImport(w.st, body));
      case DestroyBatch(ids) =>
        WithoutNoRepeats(w.st.emails, Elems(ids));
        DestroyEachStore(w.(st := w.st.(emails := EmailsWithout(w.st.emails, Elems(ids)))), w.st.emails, ids);
      case _ =>
        var i := IndexOf(w.st.emails, edit.id);
        if i < |w.st.emails| {
          DoAtNoRepeats(w, edit, i);
        }
    }
  }

  lemma {:induction false} DoAllNoRepeats(w: Work, edits: seq<Edit>)
    requires NoRepeats(w.st.emails) && AllProper(edits)
    ensures NoRepeats(DoAll(w, edits).st.emails)
  {
    hide NoRepeats, Do, Proper;
    if edits != [] {
      var front := edits[..|edits| - 1];
      DoAllNoRepeats(w, front);
      DoNoRepeats(DoAll(w, front), edits[|edits| - 1]);
    }
  }

  lemma DoLedger(w: Work, edit: Edit)
    requires Kept(w.st) && LedgerOk(w.st) && Proper(edit) && Do(w, edit).st.emailSeq <= U64_MAX
    requires edit.Move? ==> !Lists(w.st.emails, edit.id, edit.target)
    ensures LedgerOk(Do(w, edit).st)
  {
    hide Kept, SlotsMatch, NoRepeats, DoAt;
    DoNoRepeats(w, edit);
    match edit {
      case Create(body) =>
        if body.Obj? && BuildFrom(w.st, body.fields).Fresh? {
          BuiltPlaced(w.st, body.fields);
        }
        AddBuiltLedger(w, BuildFromCreate(w.st, body));
      case Import(body) =>
        if body.Obj? && BuildFrom(w.st, body.fields).Fresh? {
          BuiltPlaced(w.st, body.fields);
        }
        AddBuiltLedger(w, BuildFromImport(w.st, body));
      case DestroyBatch(ids) => BatchLedger(w, ids);
      case _ =>
        var i := IndexOf(w.st.emails, edit.id);
        if i < |w.st.emails| {
          DoAtLedger(w, edit, i);
        }
    }
  }

  // ----- Ageing -----

  lemma {:induction false} DestroyEachAges(w: Work, gone: seq<Email>, ids: seq<Id>)
    ensures Ages(w.st.ledger, DestroyEach(w, gone, ids).st.ledger)
  {
    hide Ages, Lookup;
    AgesItself(w.st.ledger);
    if ids != [] {
      var front, last := ids[..|ids| - 1], ids[|ids| - 1];
      var l := DestroyEach(w, gone, front).st.ledger;
      DestroyEachAges(w, gone, front);
      if Lookup(gone, last).Some? {
        var ms := Lookup(gone, last).value.mailboxIds;
        RetireAllAges(l, ms, last);
        AgesTransitive(w.st.ledger, l, RetireAll(l, ms, last));
      }
    }
  }

  /** No edit, MOVE included, does anything to the ledger but append and retire. */
  lemma DoAges(w: Work, edit: Edit)
    ensures Ages(w.st.ledger, Do(w, edit).st.ledger)
  {
    hide Ages, Patched, KeywordsAfter, Changes, Sync, RetireAll, Retire, Assign, AssignAll, BuildFrom;
    var l := w.st.ledger;
    AgesItself(l);
    match edit {
      case Create(body) =>
        var b := BuildFromCreate(w.st, body);
        if b.Fresh? {
          AssignAllAges(l, b.email.mailboxIds, b.email.id);
        }
      case Import(body) =>
        var b := BuildFromImport(w.st, body);
        if b.Fresh? {
          AssignAllAges(l, b.email.mailboxIds, b.email.id);
        }
      case DestroyBatch(ids) =>
        DestroyEachAges(w.(st := w.st.(emails := EmailsWithout(w.st.emails, Elems(ids)))), w.st.emails, ids);
      case _ =>
        var i := IndexOf(w.st.emails, edit.id);
        if i < |w.st.emails| {
          DoAtAges(w, edit, i);
        }
    }
  }

  lemma DoAtAges(w: Work, edit: Edit, i: nat)
    requires !edit.Create? && !edit.Import? && !edit.DestroyBatch?
    requires i < |w.st.emails|
    ensures Ages(w.st.ledger, DoAt(w, edit, i).st.ledger)
  {
    hide Ages, Patched, KeywordsAfter, Changes, Sync, RetireAll, Retire, Assign;
    var e, l := w.st.emails[i], w.st.ledger;
    AgesItself(l);
    match edit {
      case Patch(id, patch) =>
        var p := Patched(e.keywords, e.mailboxIds, patch);
        if p.Some? {
          SyncAges(l, id, e.mailboxIds, p.value.mailboxIds);
        }
      case Discard(id) => RetireAllAges(l, e.mailboxIds, id);
      case Copy(id, target) => AssignAges(l, target, id);
      case Move(id, source, target) =>
        AssignAges(l, target, id);
        RetireAges(Assign(l, target, id), source, id);
        AgesTransitive(l, Assign(l, target, id), Retire(Assign(l, target, id), source, id));
      case Expunge(id, source) => RetireAges(l, source, id);
      case Flag(_, _) =>
    }
  }

  lemma {:induction false} DoAllAges(w: Work, edits: seq<Edit>)
    ensures Ages(w.st.ledger, DoAll(w, edits).st.ledger)
  {
    hide Ages, Do;
    AgesItself(w.st.ledger);
    if edits != [] {
      var v := DoAll(w, edits[..|edits| - 1]);
      DoAllAges(w, edits[..|edits| - 1]);
      DoAges(v, edits[|edits| - 1]);
      AgesTransitive(w.st.ledger, v.st.ledger, DoAll(w, edits).st.ledger);
    }
  }
}
