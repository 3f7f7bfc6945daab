/** The replay theorem: a client that remembers the live ids it saw at some token, asks for the
    delta since, and applies it, ends with exactly the live ids of now. Proved for every run of
    commands and every account, with the one call shape that breaks it for the primary account. */
module Replay {
  import opened Basics
  import Patches
  import opened Dominance
  import opened ChangeLogs
  import opened Agreement
  import opened Stores
  import opened Upkeep
  import opened Runs
  import opened SpentSlots
  import opened Splits

  // ----- What one command's id lists say about the store -----

  ghost predicate Known(st: Store, id: Id) {
    Lookup(st.emails, id).Some?
  }

  /** The lists collected so far account for the whole difference between `s0` and the store now. */
  ghost predicate Books(s0: Store, w: Work) {
    && |w.log.destroyed| == |w.log.sidecar|
    && (forall id :: Known(w.st, id) <==> (id in w.log.created || Known(s0, id)) && id !in w.log.destroyed)
    && (forall id :: id in w.log.destroyed ==> id in w.log.created || Known(s0, id))
    && (forall id :: id in w.log.created ==> Minted(id, s0.emailSeq, w.st.emailSeq))
    && (forall id :: Known(s0, id) && Known(w.st, id) ==> AccountOf(w.st, id) == AccountOf(s0, id))
    && (forall i :: 0 <= i < |w.log.destroyed| && Known(s0, w.log.destroyed[i]) ==>
          w.log.sidecar[i] == AccountOf(s0, w.log.destroyed[i]))
    && (forall i, j :: 0 <= i < j < |w.log.destroyed| && w.log.destroyed[i] == w.log.destroyed[j] ==>
          w.log.sidecar[i] == w.log.sidecar[j])
  }

  ghost predicate Minted(id: Id, after: nat, upTo: nat) {
    exists n: nat :: after < n <= upTo && id == MintId(n)
  }

  function AccountOf(st: Store, id: Id): Id
    requires Lookup(st.emails, id).Some?
  {
    Lookup(st.emails, id).value.account
  }

  /** Neither a known nor a recorded id can be minted again. */
  lemma BooksFresh(s0: Store, w: Work, n: nat)
    requires Kept(s0) && Books(s0, w) && s0.emailSeq <= w.st.emailSeq < n <= U64_MAX
    ensures !Known(w.st, MintId(n)) && MintId(n) !in w.log.destroyed && MintId(n) !in w.log.created
    ensures !Known(s0, MintId(n))
  {
    hide MintId, Lookup;
    var id := MintId(n);
    if id in w.log.created {
      var m: nat :| s0.emailSeq < m <= w.st.emailSeq && id == MintId(m);
      MintInjective(m, n);
    }
  }

  lemma AddBuiltBooks(s0: Store, w: Work, b: Built)
    requires Kept(s0) && Books(s0, w) && UniqueIds(w.st.emails)
    requires s0.emailSeq <= w.st.emailSeq && AddBuilt(w, b).st.emailSeq <= U64_MAX
    requires b.Fresh? ==> b.email.id == MintId(w.st.emailSeq + 1)
    ensures Books(s0, AddBuilt(w, b))
  {
    hide MintId, Kept, IndexOf;
    if b.Fresh? {
      var e := b.email;
      BooksFresh(s0, w, w.st.emailSeq + 1);
      var v := AddBuilt(w, b);
      forall id
        ensures Lookup(v.st.emails, id) == if id == e.id then Some(e) else Lookup(w.st.emails, id)
      {
        LookupAdd(w.st.emails, e, id);
      }
      forall id | id in v.log.created
        ensures Minted(id, s0.emailSeq, v.st.emailSeq)
      {
        if id in w.log.created {
          var n: nat :| s0.emailSeq < n <= w.st.emailSeq && id == MintId(n);
        } else {
          assert id == MintId(w.st.emailSeq + 1);
        }
      }
    }
  }

  lemma PutBooks(s0: Store, w: Work, i: nat, e: Email, v: Work)
    requires Books(s0, w) && UniqueIds(w.st.emails) && i < |w.st.emails|
    requires e.id == w.st.emails[i].id && e.account == w.st.emails[i].account
    requires v.st.emails == w.st.emails[i := e] && v.st.emailSeq == w.st.emailSeq
    requires v.log == w.log.(updated := v.log.updated)
    ensures Books(s0, v)
  {
    hide MintId, IndexOf;
    LookupAt(w.st.emails, i);
    forall id
      ensures Lookup(v.st.emails, id) == if id == e.id then Some(e) else Lookup(w.st.emails, id)
    {
      LookupPut(w.st.emails, i, e, id);
    }
  }

  lemma DropBooks(s0: Store, w: Work, i: nat, ledger: map<Id, seq<Option<Id>>>)
    requires Books(s0, w) && UniqueIds(w.st.emails) && i < |w.st.emails|
    ensures Books(s0, Destroyed1(w, i, ledger))
  {
    hide MintId, IndexOf;
    var e, v := w.st.emails[i], Destroyed1(w, i, ledger);
    LookupAt(w.st.emails, i);
    forall id
      ensures Lookup(v.st.emails, id) == if id == e.id then None else Lookup(w.st.emails, id)
    {
      LookupDrop(w.st.emails, i, id);
    }
    assert Known(w.st, e.id);
  }

  lemma DoAtBooks(s0: Store, w: Work, edit: Edit, i: nat)
    requires !edit.Create? && !edit.Import? && !edit.DestroyBatch?
    requires Books(s0, w) && UniqueIds(w.st.emails) && i < |w.st.emails|
    ensures Books(s0, DoAt(w, edit, i))
  {
    hide Books;
    var e, v := w.st.emails[i], DoAt(w, edit, i);
    var drops := match edit
      case Discard(_) => true
      case Expunge(_, source) => Without(e.mailboxIds, {source}) == []
      case _ => false;
    if drops {
      DropBooks(s0, w, i, v.st.ledger);
    } else if v != w {
      PutBooks(s0, w, i, v.st.emails[i], v);
    }
  }

  /** The response loop of a batch destroy records the requested ids that were live. */
  lemma {:induction false} DestroyEachLog(w: Work, gone: seq<Email>, ids: seq<Id>)
    requires |w.log.destroyed| == |w.log.sidecar|
    ensures var r, n := DestroyEach(w, gone, ids).log, |w.log.destroyed|;
            && r == w.log.(destroyed := r.destroyed, sidecar := r.sidecar)
            && |r.destroyed| == |r.sidecar| && n <= |r.destroyed|
            && r.destroyed[..n] == w.log.destroyed && r.sidecar[..n] == w.log.sidecar
            && (forall i :: n <= i < |r.destroyed| ==>
                  Lookup(gone, r.destroyed[i]).Some? && r.destroyed[i] in ids && r.sidecar[i] == Lookup(gone, r.destroyed[i]).value.account)
            && (forall id :: id in ids && Lookup(gone, id).Some? ==> id in r.destroyed)
  {
    hide IndexOf;
    if ids != [] {
      var front, last := ids[..|ids| - 1], ids[|ids| - 1];
      assert ids == front + [last];
      DestroyEachLog(w, gone, front);
    }
  }

  lemma BatchBooks(s0: Store, w: Work, ids: seq<Id>)
    requires Books(s0, w) && UniqueIds(w.st.emails)
    ensures Books(s0, Do(w, DestroyBatch(ids)))
  {
    hide MintId, Lookup, Do;
    var v := Do(w, DestroyBatch(ids));
    BatchFacts(w, ids);
    BatchSides(w, v, ids);
    forall i | 0 <= i < |v.log.destroyed| && Known(s0, v.log.destroyed[i])
      ensures v.log.sidecar[i] == AccountOf(s0, v.log.destroyed[i])
    {
      var n := |w.log.destroyed|;
      if i < n {
        assert v.log.destroyed[i] == w.log.destroyed[i] && v.log.sidecar[i] == w.log.sidecar[i];
      }
    }
  }

  lemma BatchSides(w: Work, v: Work, ids: seq<Id>)
    requires |w.log.destroyed| == |w.log.sidecar| && UniqueIds(w.st.emails) && v == Do(w, DestroyBatch(ids))
    requires forall id :: id in w.log.destroyed ==> !Known(w.st, id)
    requires forall i, j :: 0 <= i < j < |w.log.destroyed| && w.log.destroyed[i] == w.log.destroyed[j] ==>
               w.log.sidecar[i] == w.log.sidecar[j]
    ensures |v.log.destroyed| == |v.log.sidecar|
    ensures forall i, j :: 0 <= i < j < |v.log.destroyed| && v.log.destroyed[i] == v.log.destroyed[j] ==>
              v.log.sidecar[i] == v.log.sidecar[j]
  {
    hide MintId, Lookup, Do;
    BatchFacts(w, ids);
    forall i, j | 0 <= i < j < |v.log.destroyed| && v.log.destroyed[i] == v.log.destroyed[j]
      ensures v.log.sidecar[i] == v.log.sidecar[j]
    {
      var n := |w.log.destroyed|;
      if i < n {
        assert v.log.destroyed[i] == w.log.destroyed[i] && w.log.destroyed[i] in w.log.destroyed;
      }
    }
  }

  /** A batch makes the requested ids unknown and records those that were live, with their accounts. */
  lemma BatchFacts(w: Work, ids: seq<Id>)
    requires |w.log.destroyed| == |w.log.sidecar| && UniqueIds(w.st.emails)
    ensures var v, n := Do(w, DestroyBatch(ids)), |w.log.destroyed|;
            && v.st.emailSeq == w.st.emailSeq
            && (forall id :: Lookup(v.st.emails, id) == if id in ids then None else Lookup(w.st.emails, id))
            && v.log.created == w.log.created && v.log.updated == w.log.updated
            && n <= |v.log.destroyed| == |v.log.sidecar|
            && (forall i :: 0 <= i < n ==> v.log.destroyed[i] == w.log.destroyed[i] && v.log.sidecar[i] == w.log.sidecar[i])
            && (forall i :: n <= i < |v.log.destroyed| ==>
                  Known(w.st, v.log.destroyed[i]) && v.log.sidecar[i] == AccountOf(w.st, v.log.destroyed[i]))
            && (forall id :: id in v.log.destroyed <==> id in w.log.destroyed || (id in ids && Known(w.st, id)))
  {
    hide IndexOf;
    var v, gone, n := Do(w, DestroyBatch(ids)), w.st.emails, |w.log.destroyed|;
    var u := w.(st := w.st.(emails := EmailsWithout(gone, Elems(ids))));
    DestroyEachLog(u, gone, ids);
    DestroyEachStore(u, gone, ids);
    forall id
      ensures Lookup(v.st.emails, id) == if id in ids then None else Lookup(gone, id)
    {
      LookupWithout(gone, Elems(ids), id);
    }
    var r := v.log.destroyed;
    assert r == r[..n] + r[n..];
    forall i | 0 <= i < n
      ensures r[i] == w.log.destroyed[i] && v.log.sidecar[i] == w.log.sidecar[i]
    {
      assert r[i] == r[..n][i] && v.log.sidecar[i] == v.log.sidecar[..n][i];
    }
  }

  lemma DoBooks(s0: Store, w: Work, edit: Edit)
    requires Kept(s0) && Books(s0, w) && UniqueIds(w.st.emails)
    requires s0.emailSeq <= w.st.emailSeq && Do(w, edit).st.emailSeq <= U64_MAX
    ensures Books(s0, Do(w, edit))
  {
    hide Books, Kept, DoAt, MintId;
    match edit {
      case Create(body) => AddBuiltBooks(s0, w, BuildFromCreate(w.st, body));
      case Import(body) => AddBuiltBooks(s0, w, BuildFromImport(w.st, body));
      case DestroyBatch(ids) => BatchBooks(s0, w, ids);
      case _ =>
        var i := IndexOf(w.st.emails, edit.id);
        if i < |w.st.emails| {
          DoAtBooks(s0, w, edit, i);
        }
    }
  }

  lemma {:induction false} DoAllBooks(st: Store, edits: seq<Edit>)
    requires Kept(st) && AllProper(edits) && DoAll(Work(st, UNTOUCHED), edits).st.emailSeq <= U64_MAX
    ensures Books(st, DoAll(Work(st, UNTOUCHED), edits))
  {
    hide Do, Kept, Proper, Books;
    var w := Work(st, UNTOUCHED);
    if edits == [] {
      BooksOpen(st);
    } else {
      var front, last := edits[..|edits| - 1], edits[|edits| - 1];
      var v := DoAll(w, front);
      DoAllFrame(w, front);
      DoFrame(v, last);
      DoAllKept(w, front);
      KeptUnique(v.st);
      DoAllBooks(st, front);
      DoBooks(st, v, last);
    }
  }

  lemma BooksOpen(st: Store)
    ensures Books(st, Work(st, UNTOUCHED))
  {
  }

  lemma ExecBooks(st: Store, c: Command)
    requires Kept(st) && ProperCommand(c) && Exec(st, c).st.emailSeq <= U64_MAX
    ensures Books(st, Exec(st, c))
  {
    hide Kept, Edits, ProperCommand, Books, DoAll;
    if c.Elsewhere? {
      NothingEdited(st, c);
      BooksAround(st, c);
    } else {
      EditsProper(st, c);
      DoAllBooks(st, Edits(st, c));
    }
  }

  lemma NothingEdited(st: Store, c: Command)
    requires c.Elsewhere?
    ensures Exec(st, c) == Work(Around(st, c), UNTOUCHED)
  {
  }

  lemma BooksAround(st: Store, c: Command)
    ensures Books(st, Work(Around(st, c), UNTOUCHED))
  {
    hide Lookup;
  }

  // ----- One command, one account -----

  function EmailDiff(log: Touched): Diff {
    EMPTY_DIFF.(email := log)
  }

  ghost predicate LivesIn(st: Store, a: Id, id: Id) {
    Known(st, id) && AccountOf(st, id) == a
  }

  /** The share of a command's email lists that reaches account `a`. */
  function Share(w: Work, a: Id): Touched {
    Sub(DirectoryOf(w.st), EmailDiff(w.log), a).email
  }

  /** Replaying the share on the account's old live ids gives its new ones. */
  ghost predicate ReplaysAt(st: Store, w: Work, a: Id, id: Id) {
    LivesIn(w.st, a, id) <==> (LivesIn(st, a, id) || id in Share(w, a).created) && id !in Share(w, a).destroyed
  }

  /** Every id created and destroyed by the same command belonged to the primary account. */
  ghost predicate NoOrphan(w: Work) {
    forall i :: 0 <= i < |w.log.destroyed| && i < |w.log.sidecar| && w.log.destroyed[i] in w.log.created ==>
      w.log.sidecar[i] == w.st.primary
  }

  lemma ShareCreated(w: Work, a: Id, id: Id)
    requires UniqueIds(w.st.emails)
    ensures id in Share(w, a).created <==>
            id in w.log.created && a == if Known(w.st, id) then AccountOf(w.st, id) else w.st.primary
  {
    EmailOwnersAre(w.st.emails, id);
  }

  lemma ShareDestroyed(w: Work, a: Id, id: Id)
    requires |w.log.destroyed| == |w.log.sidecar|
    ensures id in Share(w, a).destroyed <==>
            exists i :: 0 <= i < |w.log.destroyed| && w.log.destroyed[i] == id && w.log.sidecar[i] == a
  {
    var dir := DirectoryOf(w.st);
    var tombs := Tombs(w.log.destroyed, w.log.sidecar);
    var mine := OwnedTombs(dir, EmailKind, tombs, a);
    assert Share(w, a).destroyed == TombIds(mine);
    if id in TombIds(mine) {
      var k :| 0 <= k < |mine| && TombIds(mine)[k] == id;
      assert mine[k] in mine;
      var i :| 0 <= i < |tombs| && tombs[i] == mine[k];
    }
    if i :| 0 <= i < |w.log.destroyed| && w.log.destroyed[i] == id && w.log.sidecar[i] == a {
      assert tombs[i] in tombs && tombs[i] in mine;
      var k :| 0 <= k < |mine| && mine[k] == tombs[i];
      assert TombIds(mine)[k] == id;
    }
  }

  /** A command's share replays on every account but the primary, and on the primary one exactly when
      the command leaves no orphan: an email created and destroyed in one call is no longer live when
      its creation is routed, so the creation falls to the primary account's log while the tombstone
      goes to the email's own. */
  lemma ShareReplaysIff(st: Store, w: Work, a: Id)
    requires Books(st, w) && UniqueIds(w.st.emails) && w.st.emailSeq <= U64_MAX && MintBound(st)
    ensures (forall id :: ReplaysAt(st, w, a, id)) <==> (a == w.st.primary ==> NoOrphan(w))
  {
    hide Share, MintBound;
    if a == w.st.primary && !NoOrphan(w) {
      var i :| 0 <= i < |w.log.destroyed| && w.log.destroyed[i] in w.log.created && w.log.sidecar[i] != w.st.primary;
      OrphanMisleads(st, w, i);
    } else {
      forall id {
        ShareReplays(st, w, a, id);
      }
    }
  }

  lemma CreatedIsNew(st: Store, w: Work, id: Id)
    requires Books(st, w) && MintBound(st) && w.st.emailSeq <= U64_MAX && id in w.log.created
    ensures !Known(st, id)
  {
    hide MintId, Lookup;
    assert Minted(id, st.emailSeq, w.st.emailSeq);
  }

  lemma ShareReplays(st: Store, w: Work, a: Id, id: Id)
    requires Books(st, w) && UniqueIds(w.st.emails) && w.st.emailSeq <= U64_MAX && MintBound(st)
    requires a == w.st.primary ==> NoOrphan(w)
    ensures ReplaysAt(st, w, a, id)
  {
    hide Share, MintBound, Lookup;
    ShareCreated(w, a, id);
    ShareDestroyed(w, a, id);
    if id in w.log.created {
      CreatedIsNew(st, w, id);
    }
    if id in w.log.destroyed {
      var i :| 0 <= i < |w.log.destroyed| && w.log.destroyed[i] == id;
      assert w.log.sidecar[i] == a ==> id in Share(w, a).destroyed;
    }
  }

  lemma OrphanMisleads(st: Store, w: Work, i: nat)
    requires Books(st, w) && UniqueIds(w.st.emails) && w.st.emailSeq <= U64_MAX && MintBound(st)
    requires i < |w.log.destroyed| && w.log.destroyed[i] in w.log.created
    requires w.log.sidecar[i] != w.st.primary
    ensures !ReplaysAt(st, w, w.st.primary, w.log.destroyed[i])
  {
    hide Share, MintBound, Lookup;
    var id := w.log.destroyed[i];
    CreatedIsNew(st, w, id);
    ShareCreated(w, w.st.primary, id);
    ShareDestroyed(w, w.st.primary, id);
    assert forall j :: 0 <= j < |w.log.destroyed| && w.log.destroyed[j] == id ==> w.log.sidecar[j] == w.log.sidecar[i];
  }

  // ----- The same condition, read off the call and the store before it -----

  /** The emails the creates of an `Email/set` will build, in order. */
  function Newcomers(st: Store, creates: seq<Patches.Json>): seq<Email> {
    if creates == [] then [] else
      var front := Newcomers(st, creates[..|creates| - 1]);
      match BuildFromCreate(st.(emails := st.emails + front, emailSeq := st.emailSeq + |front|), creates[|creates| - 1])
      case Refused(_) => front
      case Fresh(e) => front + [e]
  }

  /** No email outside the primary account is created and destroyed by the same call. */
  ghost predicate OrphanFree(st: Store, c: Command) {
    c.EmailSet? ==>
      forall i :: 0 <= i < |Newcomers(st, c.creates)| && Newcomers(st, c.creates)[i].id in c.destroys ==>
        Newcomers(st, c.creates)[i].account == st.primary
  }

  function CreateEdits(creates: seq<Patches.Json>): seq<Edit> {
    seq(|creates|, i requires 0 <= i < |creates| => Create(creates[i]))
  }

  function UpdateEdits(updates: seq<Update>): seq<Edit> {
    seq(|updates|, i requires 0 <= i < |updates| => Patch(updates[i].id, updates[i].patch))
  }

  lemma {:induction false} CreatesBuildNewcomers(st: Store, creates: seq<Patches.Json>)
    ensures var v, es := DoAll(Work(st, UNTOUCHED), CreateEdits(creates)), Newcomers(st, creates);
            && v.st.emails == st.emails + es && v.st.emailSeq == st.emailSeq + |es|
            && v.log == UNTOUCHED.(created := EmailIds(es))
  {
    hide BuildFrom;
    var edits := CreateEdits(creates);
    if creates != [] {
      var front, last := creates[..|creates| - 1], creates[|creates| - 1];
      assert edits[..|edits| - 1] == CreateEdits(front);
      CreatesBuildNewcomers(st, front);
      var v, es := DoAll(Work(st, UNTOUCHED), CreateEdits(front)), Newcomers(st, front);
      DoAllFrame(Work(st, UNTOUCHED), CreateEdits(front));
      BuildSame(v.st, st.(emails := st.emails + es, emailSeq := st.emailSeq + |es|), last);
      assert DoAll(Work(st, UNTOUCHED), edits) == Do(v, Create(last));
    }
  }

  /** Building reads mailboxes, primary, emails and the counter, nothing else. */
  lemma BuildSame(a: Store, b: Store, body: Patches.Json)
    requires a.mailboxes == b.mailboxes && a.primary == b.primary && a.emails == b.emails && a.emailSeq == b.emailSeq
    ensures BuildFromCreate(a, body) == BuildFromCreate(b, body)
  {
  }

  /** Patches keep every id, its account, and the created and destroyed lists. */
  lemma {:induction false} PatchesFrame(w: Work, updates: seq<Update>, id: Id)
    requires UniqueIds(w.st.emails)
    ensures var v := DoAll(w, UpdateEdits(updates));
            && UniqueIds(v.st.emails)
            && v.log == w.log.(updated := v.log.updated)
            && (Known(v.st, id) <==> Known(w.st, id))
            && (Known(w.st, id) ==> AccountOf(v.st, id) == AccountOf(w.st, id))
  {
    hide IndexOf;
    var edits := UpdateEdits(updates);
    if updates != [] {
      var front, last := updates[..|updates| - 1], updates[|updates| - 1];
      assert edits[..|edits| - 1] == UpdateEdits(front);
      PatchesFrame(w, front, id);
      var v := DoAll(w, UpdateEdits(front));
      var i := IndexOf(v.st.emails, last.id);
      if i < |v.st.emails| && Patches.Patched(v.st.emails[i].keywords, v.st.emails[i].mailboxIds, last.patch).Some? {
        var p := Patches.Patched(v.st.emails[i].keywords, v.st.emails[i].mailboxIds, last.patch).value;
        LookupPut(v.st.emails, i, v.st.emails[i].(keywords := p.keywords, mailboxIds := p.mailboxIds), id);
        LookupAt(v.st.emails, i);
      }
    }
  }

  lemma {:induction false} DoAllAppend(w: Work, a: seq<Edit>, b: seq<Edit>)
    ensures DoAll(w, a + b) == DoAll(DoAll(w, a), b)
  {
    hide Do;
    if b == [] {
      assert a + b == a;
    } else {
      assert (a + b)[..|a + b| - 1] == a + b[..|b| - 1];
      DoAllAppend(w, a, b[..|b| - 1]);
    }
  }

  /** The three phases of `Email/set`. */
  lemma EmailSetPhases(st: Store, c: Command)
    requires c.EmailSet?
    ensures Exec(st, c) ==
            Do(DoAll(DoAll(Work(st, UNTOUCHED), CreateEdits(c.creates)), UpdateEdits(c.updates)), DestroyBatch(c.destroys))
  {
    hide Do;
    var a, b, d := CreateEdits(c.creates), UpdateEdits(c.updates), [DestroyBatch(c.destroys)];
    assert Edits(st, c) == a + b + d;
    var w := Work(st, UNTOUCHED);
    DoAllAppend(w, a + b, d);
    DoAllAppend(w, a, b);
    assert d[..0] == [];
  }

  lemma EmailSetOrphans(st: Store, c: Command)
    requires c.EmailSet? && Kept(st) && ProperCommand(c) && Exec(st, c).st.emailSeq <= U64_MAX
    ensures NoOrphan(Exec(st, c)) <==> OrphanFree(st, c)
  {
    hide MintId, Lookup, DoAll, Exec, Newcomers, Kept, ProperCommand;
    var es := Newcomers(st, c.creates);
    var w1 := DoAll(Work(st, UNTOUCHED), CreateEdits(c.creates));
    var w2 := DoAll(w1, UpdateEdits(c.updates));
    var w := Exec(st, c);
    EmailSetPhases(st, c);
    CreatesBuildNewcomers(st, c.creates);
    CreatesKept(st, c);
    ExecFrame(st, c);
    forall id {
      PatchesFrame(w1, c.updates, id);
    }
    PatchesFrame(w1, c.updates, "");
    BatchFacts(w2, c.destroys);
    forall i | 0 <= i < |es|
      ensures Known(w2.st, es[i].id) && AccountOf(w2.st, es[i].id) == es[i].account
      ensures es[i].id in w.log.created
    {
      assert w1.st.emails[|st.emails| + i] == es[i];
      LookupAt(w1.st.emails, |st.emails| + i);
      assert EmailIds(es)[i] == es[i].id;
    }
    if NoOrphan(w) {
      forall i | 0 <= i < |es| && es[i].id in c.destroys
        ensures es[i].account == st.primary
      {
        var k :| 0 <= k < |w.log.destroyed| && w.log.destroyed[k] == es[i].id;
      }
    }
    if OrphanFree(st, c) {
      forall k | 0 <= k < |w.log.destroyed| && w.log.destroyed[k] in w.log.created
        ensures w.log.sidecar[k] == st.primary
      {
        var i :| 0 <= i < |es| && EmailIds(es)[i] == w.log.destroyed[k];
      }
    }
  }

  lemma CreatesKept(st: Store, c: Command)
    requires c.EmailSet? && Kept(st) && ProperCommand(c) && Exec(st, c).st.emailSeq <= U64_MAX
    ensures UniqueIds(DoAll(Work(st, UNTOUCHED), CreateEdits(c.creates)).st.emails)
  {
    hide Kept, Do;
    var w := Work(st, UNTOUCHED);
    var w1 := DoAll(w, CreateEdits(c.creates));
    var w2 := DoAll(w1, UpdateEdits(c.updates));
    EmailSetPhases(st, c);
    DoAllFrame(w1, UpdateEdits(c.updates));
    DoFrame(w2, DestroyBatch(c.destroys));
    DoAllKept(w, CreateEdits(c.creates));
    KeptUnique(w1.st);
  }

  /** The other six commands never both create and destroy. */
  ghost predicate OneSided(log: Touched) {
    log.created == [] || log.destroyed == []
  }

  lemma {:induction false} OnlyImports(w: Work, edits: seq<Edit>)
    requires forall i :: 0 <= i < |edits| ==> edits[i].Import?
    ensures DoAll(w, edits).log.destroyed == w.log.destroyed
  {
    hide BuildFromImport;
    if edits != [] {
      OnlyImports(w, edits[..|edits| - 1]);
    }
  }

  lemma CreatesNothing(w: Work, edit: Edit)
    requires !edit.Create? && !edit.Import? && !edit.DestroyBatch?
    ensures Do(w, edit).log.created == w.log.created
  {
    hide IndexOf;
  }

  lemma {:induction false} NoCreations(w: Work, edits: seq<Edit>)
    requires forall i :: 0 <= i < |edits| ==> !edits[i].Create? && !edits[i].Import? && !edits[i].DestroyBatch?
    ensures DoAll(w, edits).log.created == w.log.created
  {
    hide Do;
    if edits != [] {
      NoCreations(w, edits[..|edits| - 1]);
      CreatesNothing(DoAll(w, edits[..|edits| - 1]), edits[|edits| - 1]);
    }
  }

  lemma {:induction false} SubmissionsCreateNothing(c: Command)
    requires c.EmailSubmissionSet?
    ensures forall i :: 0 <= i < |SubmissionEdits(c)| ==> SubmissionEdits(c)[i].Patch? || SubmissionEdits(c)[i].Discard?
    decreases |c.submissions|
  {
    var n := |c.submissions|;
    if n > 0 {
      SubmissionsCreateNothing(c.(submissions := c.submissions[..n - 1]));
    }
  }

  lemma OtherCommandsOneSided(st: Store, c: Command)
    requires !c.EmailSet?
    ensures OneSided(Exec(st, c).log)
  {
    hide DoAll;
    var w := Work(st, UNTOUCHED);
    if c.Elsewhere? {
      NothingEdited(st, c);
    } else if c.EmailImport? {
      OnlyImports(w, Edits(st, c));
    } else {
      if c.EmailSubmissionSet? {
        SubmissionsCreateNothing(c);
      }
      NoCreations(w, Edits(st, c));
    }
  }

  /** Per command and account: the share replays exactly when the account is not the primary one or the
      call does not create and destroy the same email outside the primary account. */
  lemma CommandReplaysAtIff(st: Store, c: Command, a: Id)
    requires Kept(st) && ProperCommand(c) && Exec(st, c).st.emailSeq <= U64_MAX
    ensures (forall id :: ReplaysAt(st, Exec(st, c), a, id)) <==> (a == st.primary ==> OrphanFree(st, c))
  {
    hide Exec, Kept, ProperCommand, ReplaysAt, Books, OrphanFree, NoOrphan;
    ExecBooks(st, c);
    ExecKept(st, c);
    ExecFrame(st, c);
    KeptUnique(Exec(st, c).st);
    KeptBound(st);
    ShareReplaysIff(st, Exec(st, c), a);
    OrphansIff(st, c);
  }

  lemma OrphansIff(st: Store, c: Command)
    requires Kept(st) && ProperCommand(c) && Exec(st, c).st.emailSeq <= U64_MAX
    ensures NoOrphan(Exec(st, c)) <==> OrphanFree(st, c)
  {
    hide Exec, Kept, ProperCommand, OrphanFree;
    if c.EmailSet? {
      EmailSetOrphans(st, c);
    } else {
      OtherCommandsOneSided(st, c);
      OrphanFreeOthers(st, c);
    }
  }

  /** So every account's share replays exactly when the call leaves no orphan. */
  lemma CommandReplaysIff(st: Store, c: Command)
    requires Kept(st) && ProperCommand(c) && Exec(st, c).st.emailSeq <= U64_MAX
    ensures (forall a, id :: ReplaysAt(st, Exec(st, c), a, id)) <==> OrphanFree(st, c)
  {
    hide Exec, Kept, ProperCommand, ReplaysAt, OrphanFree;
    if OrphanFree(st, c) {
      forall a, id
        ensures ReplaysAt(st, Exec(st, c), a, id)
      {
        CommandReplaysAtIff(st, c, a);
      }
    } else {
      CommandReplaysAtIff(st, c, st.primary);
    }
  }

  lemma KeptBound(st: Store)
    requires Kept(st)
    ensures MintBound(st)
  {
  }

  lemma OrphanFreeOthers(st: Store, c: Command)
    requires !c.EmailSet?
    ensures OrphanFree(st, c)
  {
  }

  // ----- Whole runs -----

  /** The mail server's observable history: its store and one unbounded log per account. */
  datatype Server = Server(st: Store, hists: map<Id, seq<Diff>>)

  /** What a command records: the email lists it collected, and whatever else it changed. */
  function DiffOf(c: Command, log: Touched): (d: Diff)
    ensures d.email == log
  {
    if c.Elsewhere? then c.diff.(email := log) else EmailDiff(log)
  }

  /** The part of it that is recorded for account `a`. */
  function Portion(st: Store, c: Command, a: Id): Diff {
    var w := Exec(st, c);
    Sub(DirectoryOf(w.st), DiffOf(c, w.log), a)
  }

  function Step(s: Server, c: Command): Server {
    var w := Exec(s.st, c);
    Server(w.st, Recorded(s.hists, DirectoryOf(w.st), DiffOf(c, w.log)))
  }

  function RunServer(s: Server, cs: seq<Command>): Server {
    if cs == [] then s else Step(RunServer(s, cs[..|cs| - 1]), cs[|cs| - 1])
  }

  /** Every command is well-formed. */
  ghost predicate ProperRun(cs: seq<Command>) {
    forall i :: 0 <= i < |cs| ==> ProperCommand(cs[i])
  }

  /** No command of the run creates and destroys the same email outside the primary account. */
  ghost predicate NoOrphans(s: Server, cs: seq<Command>) {
    forall i :: 0 <= i < |cs| ==> OrphanFree(RunServer(s, cs[..i]).st, cs[i])
  }

  /** What replay needs of a run: only the primary account's clients can be misled. */
  ghost predicate FairTo(s: Server, cs: seq<Command>, a: Id) {
    a == s.st.primary ==> NoOrphans(s, cs)
  }

  /** The raw lists of a window of one account's history. */
  function CreatedIn(w: seq<Diff>): seq<Id> {
    Gather(w, EmailKind, Created)
  }

  function DestroyedIn(w: seq<Diff>): seq<Id> {
    Gather(w, EmailKind, Destroyed)
  }

  /** What the window `w`, recorded for account `a` while the store went from `s0` to `s1`, says of
      any run: what lives now lived then or is listed as created, and is not listed as destroyed; what
      stopped living is listed as destroyed; and ids are not used twice. */
  ghost predicate Traces(s0: Store, s1: Store, a: Id, w: seq<Diff>) {
    && (forall id :: LivesIn(s1, a, id) ==> (LivesIn(s0, a, id) || id in CreatedIn(w)) && id !in DestroyedIn(w))
    && (forall id :: LivesIn(s0, a, id) && !LivesIn(s1, a, id) ==> id in DestroyedIn(w))
    && (forall id :: id in CreatedIn(w) ==> Minted(id, s0.emailSeq, s1.emailSeq))
    && (forall id :: id in DestroyedIn(w) ==> LivesIn(s0, a, id) || Minted(id, s0.emailSeq, s1.emailSeq))
    && (forall id :: id in DestroyedIn(w) ==> NeverAgain(s1.emailSeq, id))
    && Chronological(w)
  }

  /** Whatever is listed as created and not as destroyed lives. */
  ghost predicate NoLeftovers(st: Store, a: Id, w: seq<Diff>) {
    forall id :: id in CreatedIn(w) && id !in DestroyedIn(w) ==> LivesIn(st, a, id)
  }

  /** No diff creates an id that an earlier one created or destroyed. */
  ghost predicate Chronological(w: seq<Diff>) {
    forall i, j :: 0 <= i < j < |w| ==> Later(w[i].email, w[j].email)
  }

  ghost predicate Later(t: Touched, u: Touched) {
    forall id :: id in u.created ==> id !in t.created && id !in t.destroyed
  }

  /** One command leaves traces of itself, and nothing left over but to the primary account. */
  lemma StepTraces(st: Store, c: Command, a: Id)
    requires Kept(st) && ProperCommand(c) && Exec(st, c).st.emailSeq <= U64_MAX
    ensures Traces(st, Exec(st, c).st, a, [Portion(st, c, a)])
    ensures NoLeftovers(Exec(st, c).st, a, [Portion(st, c, a)]) <==> (a == st.primary ==> OrphanFree(st, c))
  {
    hide Exec, ProperCommand, OrphanFree, Kept, Share, Portion, NoOrphan, Books, CreatedIn, DestroyedIn, Traces, NoLeftovers;
    var w := Exec(st, c);
    ExecBooks(st, c);
    ExecKept(st, c);
    ExecFrame(st, c);
    KeptUnique(w.st);
    KeptBound(st);
    OrphansIff(st, c);
    OneDiff(Portion(st, c, a));
    PortionEmail(st, c, a);
    OneShareTraces(st, w, a, [Portion(st, c, a)]);
    OneShareLeftovers(st, w, a, [Portion(st, c, a)]);
  }

  lemma PortionEmail(st: Store, c: Command, a: Id)
    ensures Portion(st, c, a).email == Share(Exec(st, c), a)
  {
    hide Exec, SubTouched, DirectoryOf;
  }

  lemma OneShareTraces(st: Store, w: Work, a: Id, v: seq<Diff>)
    requires Kept(st) && Books(st, w) && UniqueIds(w.st.emails) && st.emailSeq <= w.st.emailSeq <= U64_MAX && MintBound(st)
    requires |v| == 1 && CreatedIn(v) == Share(w, a).created && DestroyedIn(v) == Share(w, a).destroyed
    ensures Traces(st, w.st, a, v)
  {
    hide Share, Kept, Books, MintBound, Minted, NeverAgain, LivesIn, CreatedIn, DestroyedIn;
    forall id
      ensures LivesIn(w.st, a, id) ==> (LivesIn(st, a, id) || id in Share(w, a).created) && id !in Share(w, a).destroyed
      ensures LivesIn(st, a, id) && !LivesIn(w.st, a, id) ==> id in Share(w, a).destroyed
      ensures id in Share(w, a).created ==> Minted(id, st.emailSeq, w.st.emailSeq)
      ensures id in Share(w, a).destroyed ==> LivesIn(st, a, id) || Minted(id, st.emailSeq, w.st.emailSeq)
      ensures id in Share(w, a).destroyed ==> NeverAgain(w.st.emailSeq, id)
    {
      IdTraces(st, w, a, id);
      BooksParallel(st, w);
      ShareDestroyed(w, a, id);
      if id in Share(w, a).destroyed {
        DestroyedNeverAgain(st, w, id);
      }
    }
  }

  lemma IdTraces(st: Store, w: Work, a: Id, id: Id)
    requires Books(st, w) && UniqueIds(w.st.emails) && w.st.emailSeq <= U64_MAX && MintBound(st)
    ensures LivesIn(w.st, a, id) ==> (LivesIn(st, a, id) || id in Share(w, a).created) && id !in Share(w, a).destroyed
    ensures LivesIn(st, a, id) && !LivesIn(w.st, a, id) ==> id in Share(w, a).destroyed
    ensures id in Share(w, a).created ==> Minted(id, st.emailSeq, w.st.emailSeq)
    ensures id in Share(w, a).destroyed ==> LivesIn(st, a, id) || Minted(id, st.emailSeq, w.st.emailSeq)
  {
    hide Share, MintBound, Lookup, Minted;
    ShareCreated(w, a, id);
    ShareDestroyed(w, a, id);
    if id in w.log.created {
      CreatedIsNew(st, w, id);
    }
    if id in w.log.destroyed {
      var i :| 0 <= i < |w.log.destroyed| && w.log.destroyed[i] == id;
      assert w.log.sidecar[i] == a ==> id in Share(w, a).destroyed;
    }
  }

  lemma OneShareLeftovers(st: Store, w: Work, a: Id, v: seq<Diff>)
    requires Books(st, w) && UniqueIds(w.st.emails) && w.st.emailSeq <= U64_MAX && MintBound(st)
    requires CreatedIn(v) == Share(w, a).created && DestroyedIn(v) == Share(w, a).destroyed
    ensures NoLeftovers(w.st, a, v) <==> (a == w.st.primary ==> NoOrphan(w))
  {
    hide Share, MintBound, Lookup, CreatedIn, DestroyedIn, Minted;
    if a == w.st.primary && !NoOrphan(w) {
      var i :| 0 <= i < |w.log.destroyed| && w.log.destroyed[i] in w.log.created && w.log.sidecar[i] != w.st.primary;
      var id := w.log.destroyed[i];
      OrphanMisleads(st, w, i);
      CreatedIsNew(st, w, id);
      assert id in CreatedIn(v) && id !in DestroyedIn(v) && !LivesIn(w.st, a, id);
    } else {
      forall id | id in Share(w, a).created && id !in Share(w, a).destroyed
        ensures LivesIn(w.st, a, id)
      {
        ShareReplays(st, w, a, id);
      }
    }
  }

  lemma BooksParallel(st: Store, w: Work)
    requires Books(st, w)
    ensures |w.log.destroyed| == |w.log.sidecar|
  {
  }

  lemma OneDiff(d: Diff)
    ensures CreatedIn([d]) == d.email.created && DestroyedIn([d]) == d.email.destroyed
  {
    var none: seq<Id> := [];
    assert [d][..0] == [];
    assert Gather([d], EmailKind, Created) == none + d.email.created == d.email.created;
    assert Gather([d], EmailKind, Destroyed) == none + d.email.destroyed == d.email.destroyed;
  }

  lemma DestroyedNeverAgain(st: Store, w: Work, id: Id)
    requires Kept(st) && Books(st, w) && st.emailSeq <= w.st.emailSeq && id in w.log.destroyed
    ensures NeverAgain(w.st.emailSeq, id)
  {
    hide MintId, Lookup;
    forall n: nat | w.st.emailSeq < n <= U64_MAX
      ensures id != MintId(n)
    {
      BooksFresh(st, w, n);
    }
  }

  /** Traces of two consecutive windows join. */
  lemma TracesJoin(s0: Store, s1: Store, s2: Store, a: Id, w: seq<Diff>, v: seq<Diff>)
    requires Traces(s0, s1, a, w) && Traces(s1, s2, a, v)
    requires s0.emailSeq <= s1.emailSeq <= s2.emailSeq <= U64_MAX
    ensures Traces(s0, s2, a, w + v)
  {
    hide CreatedIn, DestroyedIn, Chronological, LivesIn, Minted, NeverAgain;
    GatherSplit(w, v);
    ChronologicalAppend(s0, s1, s2, a, w, v);
    forall id
      ensures Minted(id, s1.emailSeq, s2.emailSeq) ==> Minted(id, s0.emailSeq, s2.emailSeq)
      ensures Minted(id, s0.emailSeq, s1.emailSeq) ==> Minted(id, s0.emailSeq, s2.emailSeq)
      ensures NeverAgain(s1.emailSeq, id) ==> NeverAgain(s2.emailSeq, id) && !Minted(id, s1.emailSeq, s2.emailSeq)
    {
      MintedWider(s0.emailSeq, s1.emailSeq, s2.emailSeq, id);
    }
  }

  lemma MintedWider(a: nat, b: nat, c: nat, id: Id)
    requires a <= b <= c <= U64_MAX
    ensures Minted(id, b, c) ==> Minted(id, a, c)
    ensures Minted(id, a, b) ==> Minted(id, a, c) && !Minted(id, b, c)
    ensures NeverAgain(b, id) ==> NeverAgain(c, id) && !Minted(id, b, c)
  {
    hide MintId;
    if m: nat :| a < m <= b && id == MintId(m) {
      assert a < m <= c;
      if n: nat :| b < n <= c && id == MintId(n) {
        MintInjective(m, n);
      }
    }
    if n: nat :| b < n <= c && id == MintId(n) {
      assert a < n <= c;
    }
  }

  /** And nothing is left over by both exactly when nothing is left over by either. */
  lemma LeftoversJoin(s0: Store, s1: Store, s2: Store, a: Id, w: seq<Diff>, v: seq<Diff>)
    requires Traces(s0, s1, a, w) && Traces(s1, s2, a, v)
    requires s0.emailSeq <= s1.emailSeq <= s2.emailSeq <= U64_MAX
    ensures NoLeftovers(s2, a, w + v) <==> NoLeftovers(s1, a, w) && NoLeftovers(s2, a, v)
  {
    hide CreatedIn, DestroyedIn, Chronological, LivesIn, Minted, NeverAgain;
    GatherSplit(w, v);
    forall id
      ensures NeverAgain(s1.emailSeq, id) ==> !Minted(id, s1.emailSeq, s2.emailSeq)
      ensures Minted(id, s0.emailSeq, s1.emailSeq) ==> !Minted(id, s1.emailSeq, s2.emailSeq)
    {
      MintedWider(s0.emailSeq, s1.emailSeq, s2.emailSeq, id);
    }
    if NoLeftovers(s2, a, w + v) {
      forall id | id in CreatedIn(w) && id !in DestroyedIn(w)
        ensures LivesIn(s1, a, id)
      {
        assert id in DestroyedIn(v) ==> LivesIn(s1, a, id);
        assert LivesIn(s2, a, id) ==> LivesIn(s1, a, id);
      }
    }
  }

  lemma ChronologicalAppend(s0: Store, s1: Store, s2: Store, a: Id, w: seq<Diff>, v: seq<Diff>)
    requires Traces(s0, s1, a, w) && Traces(s1, s2, a, v)
    requires s0.emailSeq <= s1.emailSeq <= s2.emailSeq <= U64_MAX
    ensures Chronological(w + v)
  {
    hide MintId, LivesIn, Gather;
    forall i, j | 0 <= i < |w| && 0 <= j < |v|
      ensures Later(w[i].email, v[j].email)
    {
      forall id | id in v[j].email.created
        ensures id !in w[i].email.created && id !in w[i].email.destroyed
      {
        GatherMember(v, EmailKind, Created, id);
        GatherMember(w, EmailKind, Created, id);
        GatherMember(w, EmailKind, Destroyed, id);
        assert id in Ids(Pick(v[j], EmailKind), Created);
        assert id in CreatedIn(v) && Minted(id, s1.emailSeq, s2.emailSeq);
        var n: nat :| s1.emailSeq < n <= s2.emailSeq && id == MintId(n);
        if id in w[i].email.created {
          assert id in Ids(Pick(w[i], EmailKind), Created);
          assert id in CreatedIn(w) && Minted(id, s0.emailSeq, s1.emailSeq);
          var m: nat :| s0.emailSeq < m <= s1.emailSeq && id == MintId(m);
          MintInjective(m, n);
        }
        assert Ids(Pick(w[i], EmailKind), Destroyed) == w[i].email.destroyed;
        assert id !in DestroyedIn(w);
      }
    }
    forall i, j | 0 <= i < j < |w + v|
      ensures Later((w + v)[i].email, (w + v)[j].email)
    {
      if |w| <= i {
        assert Later(v[i - |w|].email, v[j - |w|].email);
      }
    }
  }

  lemma {:induction false} GatherAppend(w: seq<Diff>, v: seq<Diff>, kind: Kind, part: Part)
    ensures Gather(w + v, kind, part) == Gather(w, kind, part) + Gather(v, kind, part)
  {
    hide Ids, Pick;
    if v == [] {
      assert w + v == w;
    } else {
      var front := v[..|v| - 1];
      assert (w + v)[..|w + v| - 1] == w + front;
      GatherAppend(w, front, kind, part);
    }
  }

  lemma GatherSplit(w: seq<Diff>, v: seq<Diff>)
    ensures forall id :: id in CreatedIn(w + v) <==> id in CreatedIn(w) || id in CreatedIn(v)
    ensures forall id :: id in DestroyedIn(w + v) <==> id in DestroyedIn(w) || id in DestroyedIn(v)
  {
    GatherAppend(w, v, EmailKind, Created);
    GatherAppend(w, v, EmailKind, Destroyed);
  }

  lemma NothingTraced(st: Store, a: Id)
    ensures Traces(st, st, a, []) && NoLeftovers(st, a, [])
  {
  }

  lemma {:induction false} RunServerStore(s: Server, cs: seq<Command>)
    ensures RunServer(s, cs).st == RunStore(s.st, cs)
  {
    hide Exec;
    if cs != [] {
      RunServerStore(s, cs[..|cs| - 1]);
    }
  }

  /** What one step appends to an account's history. */
  lemma StepHistory(s: Server, c: Command, a: Id)
    ensures var sub := Portion(s.st, c, a);
            HistOf(Step(s, c).hists, a) == HistOf(s.hists, a) + if IsEmpty(sub) then [] else [sub]
  {
    hide Exec, Sub, AccountsTouched, HistOf, DiffOf;
    var w := Exec(s.st, c);
    var d := DiffOf(c, w.log);
    if IsEmpty(d) {
      EmptyShares(DirectoryOf(w.st), d, a);
      assert HistOf(s.hists, a) + [] == HistOf(s.hists, a);
    } else {
      RecordedAdvances(s.hists, DirectoryOf(w.st), d, a);
    }
  }

  lemma EmptyShares(dir: Directory, d: Diff, a: Id)
    requires IsEmpty(d)
    ensures IsEmpty(Sub(dir, d, a))
  {
    hide Owner, GoneOwner;
    var kinds := [EmailKind, MailboxKind, ContactKind];
    forall k | k in kinds
      ensures NothingTouched(SubTouched(dir, k, Pick(d, k), a))
    {
      assert Tombs(Pick(d, k).destroyed, Pick(d, k).sidecar) == [];
    }
    assert EmailKind in kinds && MailboxKind in kinds && ContactKind in kinds;
  }

  lemma EmptySays(d: Diff)
    requires IsEmpty(d)
    ensures CreatedIn([d]) == CreatedIn([]) && DestroyedIn([d]) == DestroyedIn([])
  {
    OneDiff(d);
  }

  /** Over any run, what was appended to an account's history traces the account's live ids, and
      leaves nothing over exactly when the run is fair to the account. */
  lemma {:induction false} RunTells(s: Server, cs: seq<Command>, a: Id)
    requires Kept(s.st) && ProperRun(cs) && RunServer(s, cs).st.emailSeq <= U64_MAX
    ensures var before, after := HistOf(s.hists, a), HistOf(RunServer(s, cs).hists, a);
            && |before| <= |after| && after[..|before|] == before
            && Traces(s.st, RunServer(s, cs).st, a, after[|before|..])
            && (NoLeftovers(RunServer(s, cs).st, a, after[|before|..]) <==> FairTo(s, cs, a))
  {
    hide Kept, Step, Traces, NoLeftovers, ProperCommand, OrphanFree, HistOf;
    var before := HistOf(s.hists, a);
    if cs == [] {
      NothingTraced(s.st, a);
      assert before[|before|..] == [];
    } else {
      var front, last := cs[..|cs| - 1], cs[|cs| - 1];
      assert forall i :: 0 <= i < |front| ==> front[..i] == cs[..i];
      var mid := RunServer(s, front);
      RunSeq(s, front, last);
      RunTells(s, front, a);
      OneMoreTells(s, mid, last, a);
    }
  }

  lemma RunSeq(s: Server, front: seq<Command>, last: Command)
    requires Kept(s.st) && ProperRun(front)
    requires Step(RunServer(s, front), last).st.emailSeq <= U64_MAX
    ensures var mid := RunServer(s, front);
            Kept(mid.st) && s.st.emailSeq <= mid.st.emailSeq <= Step(mid, last).st.emailSeq && mid.st.primary == s.st.primary
  {
    hide Kept, Exec, ProperCommand, DirectoryOf, Recorded, DiffOf;
    ExecFrame(RunServer(s, front).st, last);
    RunServerStore(s, front);
    RunFrame(s.st, front);
    RunKept(s.st, front);
  }

  lemma OneMoreTells(s: Server, mid: Server, c: Command, a: Id)
    requires Kept(mid.st) && ProperCommand(c)
    requires s.st.emailSeq <= mid.st.emailSeq <= Step(mid, c).st.emailSeq <= U64_MAX
    requires var before, after := HistOf(s.hists, a), HistOf(mid.hists, a);
             |before| <= |after| && after[..|before|] == before && Traces(s.st, mid.st, a, after[|before|..])
    ensures var before, old_, after := HistOf(s.hists, a), HistOf(mid.hists, a), HistOf(Step(mid, c).hists, a);
            && |before| <= |after| && after[..|before|] == before && Traces(s.st, Step(mid, c).st, a, after[|before|..])
            && (NoLeftovers(Step(mid, c).st, a, after[|before|..]) <==>
                  NoLeftovers(mid.st, a, old_[|before|..]) && (a == mid.st.primary ==> OrphanFree(mid.st, c)))
  {
    hide Kept, Exec, ProperCommand, OrphanFree, HistOf, Portion, DirectoryOf, Recorded, DiffOf, IsEmpty, MintId, Lookup, CreatedIn, DestroyedIn, LivesIn, NeverAgain;
    var before, after, later := HistOf(s.hists, a), HistOf(mid.hists, a), HistOf(Step(mid, c).hists, a);
    var next := Exec(mid.st, c).st;
    var sub := Portion(mid.st, c, a);
    StepHistory(mid, c, a);
    StepTraces(mid.st, c, a);
    var v := if IsEmpty(sub) then [] else [sub];
    if IsEmpty(sub) {
      EmptySays(sub);
    }
    assert Traces(mid.st, next, a, v);
    assert NoLeftovers(next, a, v) <==> NoLeftovers(next, a, [sub]);
    TracesJoin(s.st, mid.st, next, a, after[|before|..], v);
    LeftoversJoin(s.st, mid.st, next, a, after[|before|..], v);
    assert later[|before|..] == after[|before|..] + v;
    assert later[..|before|] == after[..|before|];
  }

  function LiveIds(st: Store, a: Id): (r: set<Id>)
    ensures forall id :: id in r <==> exists i :: 0 <= i < |st.emails| && st.emails[i].account == a && st.emails[i].id == id
  {
    set i | 0 <= i < |st.emails| && st.emails[i].account == a :: st.emails[i].id
  }

  lemma LiveIdsAre(st: Store, a: Id, id: Id)
    requires UniqueIds(st.emails)
    ensures id in LiveIds(st, a) <==> LivesIn(st, a, id)
  {
    if i :| 0 <= i < |st.emails| && st.emails[i].account == a && st.emails[i].id == id {
      LookupAt(st.emails, i);
    }
    if LivesIn(st, a, id) {
      LookupIsElement(st.emails, id);
    }
  }

  /** The replay theorem. A client synced account `a` at server `s`, holding its live ids and the
      token of counter `n`; any run of commands followed; it asks for the delta since `n`. If the log
      still resolves the token (and, for the seed, nothing was evicted), then old ids plus `created`
      minus `destroyed` are exactly the live ids of now, if and only if the run was fair to `a`: always
      when `a` is not the primary account, and otherwise when no call created and destroyed the same
      email of another account. */
  lemma ReplayTheorem(s: Server, cs: seq<Command>, a: Id)
    requires Kept(s.st) && ProperRun(cs) && RunServer(s, cs).st.emailSeq <= U64_MAX
    requires var n, hist := |HistOf(s.hists, a)|, HistOf(RunServer(s, cs).hists, a);
             Resolves(hist, n) && (n == 0 ==> |hist| <= MAX_TRANSITIONS)
    ensures var n, hist := |HistOf(s.hists, a)|, HistOf(RunServer(s, cs).hists, a);
            var delta := DeltaFrom(hist, n, EmailKind, Destroyed).value;
            LiveIds(RunServer(s, cs).st, a) == (LiveIds(s.st, a) + Elems(delta.created)) - Elems(delta.destroyed)
            <==> FairTo(s, cs, a)
  {
    hide Kept, HistOf, Gather, LiveIds, Fold, FairTo, ProperCommand, LivesIn, LeftOver, NoLeftovers, Traces;
    var t := RunServer(s, cs);
    var n, hist := |HistOf(s.hists, a)|, HistOf(t.hists, a);
    RunTells(s, cs, a);
    RunUnique(s, cs);
    var w := hist[n..];
    assert Window(hist, n) == w;
    FoldSets(CreatedIn(w), Gather(w, EmailKind, ChangeLogs.Updated), DestroyedIn(w));
    var delta := DeltaFrom(hist, n, EmailKind, Destroyed).value;
    var replayed := (LiveIds(s.st, a) + Elems(delta.created)) - Elems(delta.destroyed);
    forall id
      ensures (id in LiveIds(t.st, a) <==> id in replayed) <==> !LeftOver(t.st, a, w, id)
    {
      LiveIdsAre(t.st, a, id);
      LiveIdsAre(s.st, a, id);
      ReplayedAt(s.st, t.st, a, w, id);
    }
    SameIffNothingLeft(LiveIds(t.st, a), replayed, t.st, a, w);
  }

  lemma ReplayedAt(s0: Store, s1: Store, a: Id, w: seq<Diff>, id: Id)
    requires Kept(s0) && Traces(s0, s1, a, w) && s1.emailSeq <= U64_MAX
    ensures var c, d := id in CreatedIn(w), id in DestroyedIn(w);
            (LivesIn(s1, a, id) <==> (LivesIn(s0, a, id) || (c && !d)) && !(d && !c)) <==> !LeftOver(s1, a, w, id)
  {
    hide Kept, CreatedIn, DestroyedIn, LivesIn, Minted, NeverAgain, Chronological;
    if id in CreatedIn(w) {
      MintedUnknown(s0, id, s1.emailSeq);
      if LivesIn(s0, a, id) {
        LivesKnown(s0, a, id);
      }
    }
  }

  ghost predicate LeftOver(st: Store, a: Id, w: seq<Diff>, id: Id) {
    id in CreatedIn(w) && id !in DestroyedIn(w) && !LivesIn(st, a, id)
  }

  lemma SameIffNothingLeft(x: set<Id>, y: set<Id>, st: Store, a: Id, w: seq<Diff>)
    requires forall id :: (id in x <==> id in y) <==> !LeftOver(st, a, w, id)
    ensures x == y <==> NoLeftovers(st, a, w)
  {
    hide CreatedIn, DestroyedIn, LivesIn;
    if NoLeftovers(st, a, w) {
      forall id
        ensures id in x <==> id in y
      {
        assert !LeftOver(st, a, w, id);
      }
    } else {
      var id :| id in CreatedIn(w) && id !in DestroyedIn(w) && !LivesIn(st, a, id);
      assert LeftOver(st, a, w, id);
    }
  }

  lemma LivesKnown(st: Store, a: Id, id: Id)
    requires LivesIn(st, a, id)
    ensures Known(st, id)
  {
  }

  lemma MintedUnknown(st: Store, id: Id, upTo: nat)
    requires Kept(st) && Minted(id, st.emailSeq, upTo) && upTo <= U64_MAX
    ensures !Known(st, id)
  {
    hide MintId, Lookup;
  }

  lemma RunUnique(s: Server, cs: seq<Command>)
    requires Kept(s.st) && ProperRun(cs) && RunServer(s, cs).st.emailSeq <= U64_MAX
    ensures UniqueIds(s.st.emails) && UniqueIds(RunServer(s, cs).st.emails)
  {
    hide Kept, ProperCommand;
    RunServerStore(s, cs);
    RunKept(s.st, cs);
    KeptUnique(s.st);
    KeptUnique(RunStore(s.st, cs));
  }

  /** Cross-protocol agreement over any run: for a live email of the account, `CHANGEDSINCE n+1`
      selects it exactly when the email delta since `n` reports it, evictions or not. */
  lemma ChangedSinceOnRuns(s: Server, cs: seq<Command>, a: Id, id: Id)
    requires Kept(s.st) && ProperRun(cs) && RunServer(s, cs).st.emailSeq <= U64_MAX
    requires LivesIn(RunServer(s, cs).st, a, id)
    requires Resolves(HistOf(RunServer(s, cs).hists, a), |HistOf(s.hists, a)|)
    ensures var n, hist := |HistOf(s.hists, a)|, HistOf(RunServer(s, cs).hists, a);
            var delta := DeltaFrom(hist, n, EmailKind, Destroyed).value;
            Modseq(hist, id) > n + 1 <==> id in delta.created || id in delta.updated
  {
    hide Kept, HistOf, Fold, FairTo, ProperRun, RunServer, LivesIn, NoLeftovers, Traces, Modseq, Gather, Resolves, Window;
    var n, hist := |HistOf(s.hists, a)|, HistOf(RunServer(s, cs).hists, a);
    RunTells(s, cs, a);
    LivingNotDestroyed(s.st, RunServer(s, cs).st, a, hist, n, id);
    ChangedSinceAgreesWithDelta(hist, n, id);
  }

  lemma LivingNotDestroyed(s0: Store, s1: Store, a: Id, hist: seq<Diff>, n: nat, id: Id)
    requires Resolves(hist, n) && Traces(s0, s1, a, hist[n..]) && LivesIn(s1, a, id)
    ensures id !in Gather(Window(hist, n), EmailKind, Destroyed)
  {
    hide LivesIn, Minted, NeverAgain, Chronological, Gather;
    var lo := if n < First(hist) then First(hist) else n;
    assert hist[n..] == hist[n..lo] + hist[lo..];
    GatherSplit(hist[n..lo], hist[lo..]);
    assert Window(hist, n) == hist[lo..];
  }

  // ----- Where replay can fail -----

  /** From the seed, after evictions, the delta holds only what the ring kept. Replay then still gives
      the live ids exactly when the evicted transitions had no lasting effect: every email they
      created has since been destroyed, and they destroyed none that was loaded. */
  lemma SeedReplayIff(s: Server, cs: seq<Command>, a: Id)
    requires Kept(s.st) && ProperRun(cs) && FairTo(s, cs, a) && RunServer(s, cs).st.emailSeq <= U64_MAX
    requires HistOf(s.hists, a) == [] && First(HistOf(RunServer(s, cs).hists, a)) > 0
    ensures var hist := HistOf(RunServer(s, cs).hists, a);
            var delta := DeltaFrom(hist, 0, EmailKind, Destroyed).value;
            LiveIds(RunServer(s, cs).st, a) == (LiveIds(s.st, a) + Elems(delta.created)) - Elems(delta.destroyed)
            <==> NothingLasting(s.st, a, hist[..First(hist)], hist[First(hist)..])
  {
    hide Kept, HistOf, Gather, LiveIds, Fold, FairTo, ProperRun, RunServer, NothingLasting, NoTrace, LivesIn, Traces, NoLeftovers;
    var t := RunServer(s, cs);
    var hist := HistOf(t.hists, a);
    var gone, kept := hist[..First(hist)], hist[First(hist)..];
    RunTells(s, cs, a);
    RunUnique(s, cs);
    assert hist[0..] == hist && hist == gone + kept;
    assert Window(hist, 0) == kept;
    FoldSets(CreatedIn(kept), Gather(kept, EmailKind, ChangeLogs.Updated), DestroyedIn(kept));
    var delta := DeltaFrom(hist, 0, EmailKind, Destroyed).value;
    var replayed := (LiveIds(s.st, a) + Elems(delta.created)) - Elems(delta.destroyed);
    forall id
      ensures (id in LiveIds(t.st, a) <==> id in replayed) <==> NoTrace(s.st, a, gone, kept, id)
    {
      LiveIdsAre(t.st, a, id);
      LiveIdsAre(s.st, a, id);
      SeedReplayedAt(s.st, t.st, a, gone, kept, id);
    }
    SameIffEverywhere(LiveIds(t.st, a), replayed, s.st, a, gone, kept);
  }

  /** One id, from the seed, with what the ring kept. */
  lemma SeedReplayedAt(s0: Store, s1: Store, a: Id, gone: seq<Diff>, kept: seq<Diff>, id: Id)
    requires Kept(s0) && Traces(s0, s1, a, gone + kept) && NoLeftovers(s1, a, gone + kept) && s1.emailSeq <= U64_MAX
    ensures var c, d := id in CreatedIn(kept), id in DestroyedIn(kept);
            (LivesIn(s1, a, id) <==> (LivesIn(s0, a, id) || (c && !d)) && !(d && !c)) <==> NoTrace(s0, a, gone, kept, id)
  {
    hide Kept, CreatedIn, DestroyedIn, LivesIn, Minted, NeverAgain, Chronological;
    GatherSplit(gone, kept);
    CreatedLater(gone, kept, id);
    if id in CreatedIn(gone + kept) {
      MintedUnknown(s0, id, s1.emailSeq);
      if LivesIn(s0, a, id) {
        LivesKnown(s0, a, id);
      }
    }
  }

  ghost predicate NothingLasting(st: Store, a: Id, gone: seq<Diff>, kept: seq<Diff>) {
    forall id :: NoTrace(st, a, gone, kept, id)
  }

  ghost predicate NoTrace(st: Store, a: Id, gone: seq<Diff>, kept: seq<Diff>, id: Id) {
    && (id in CreatedIn(gone) ==> id in DestroyedIn(gone) || id in DestroyedIn(kept))
    && (LivesIn(st, a, id) && id in DestroyedIn(gone) ==> id in DestroyedIn(kept))
  }

  lemma SameIffEverywhere(x: set<Id>, y: set<Id>, st: Store, a: Id, gone: seq<Diff>, kept: seq<Diff>)
    requires forall id :: (id in x <==> id in y) <==> NoTrace(st, a, gone, kept, id)
    ensures x == y <==> NothingLasting(st, a, gone, kept)
  {
    hide NoTrace;
  }

  lemma CreatedLater(gone: seq<Diff>, kept: seq<Diff>, id: Id)
    requires Chronological(gone + kept)
    ensures id in CreatedIn(kept) ==> id !in CreatedIn(gone) && id !in DestroyedIn(gone)
  {
    hide Gather, Later;
    GatherMember(kept, EmailKind, Created, id);
    GatherMember(gone, EmailKind, Created, id);
    GatherMember(gone, EmailKind, Destroyed, id);
    var w := gone + kept;
    assert forall i :: 0 <= i < |gone| ==> w[i] == gone[i];
    assert forall j :: 0 <= j < |kept| ==> w[|gone| + j] == kept[j];
    if id in CreatedIn(kept) {
      var j :| 0 <= j < |kept| && id in Ids(Pick(kept[j], EmailKind), Created);
      forall i | 0 <= i < |gone|
        ensures id !in gone[i].email.created && id !in gone[i].email.destroyed
      {
        LaterMeans(w[i].email, w[|gone| + j].email, id);
      }
    }
  }

  lemma LaterMeans(t: Touched, u: Touched, id: Id)
    requires Later(t, u) && id in u.created
    ensures id !in t.created && id !in t.destroyed
  {
  }
}
