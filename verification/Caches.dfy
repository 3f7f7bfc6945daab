/** A client's cache. The delta does not only name what came and went: every email whose content
    changed is named too, so a client that fetches what is named and drops what is destroyed holds
    the server's state again. */
module Caches {
  import opened Basics
  import opened Dominance
  import opened Patches
  import opened Flags
  import opened Ledgers
  import opened ChangeLogs
  import opened Stores
  import opened Upkeep
  import opened Runs
  import opened SpentSlots
  import opened Splits
  import opened Replay

  /** Equal for a client: membership and keywords count as sets. */
  ghost predicate SameContent(d: Email, e: Email) {
    && d.id == e.id && d.account == e.account && d.receivedAt == e.receivedAt
    && Elems(d.mailboxIds) == Elems(e.mailboxIds) && Elems(d.keywords) == Elems(e.keywords)
  }

  /** Known in both stores, with different content. */
  ghost predicate Differs(a: Store, b: Store, id: Id) {
    Known(a, id) && Known(b, id) && !SameContent(Lookup(a.emails, id).value, Lookup(b.emails, id).value)
  }

  // ----- One edit -----

  lemma LookupAppend(emails: seq<Email>, e: Email, id: Id)
    ensures Lookup(emails, id).Some? ==> Lookup(emails + [e], id) == Lookup(emails, id)
    ensures Lookup(emails, id).None? ==> Lookup(emails + [e], id) == if id == e.id then Some(e) else None
  {
    var k, k' := IndexOf(emails, id), IndexOf(emails + [e], id);
    assert (emails + [e])[|emails|] == e;
    assert forall j :: 0 <= j < |emails| ==> (emails + [e])[j] == emails[j];
  }

  /** What one edit does to the record and to the email with some id. */
  ghost predicate Honest(w: Work, v: Work, id: Id) {
    && w.log.updated <= v.log.updated
    && (Differs(w.st, v.st, id) ==> id in v.log.updated)
    && (Known(v.st, id) ==> Known(w.st, id) || (id == MintId(w.st.emailSeq + 1) && v.st.emailSeq == w.st.emailSeq + 1))
  }

  lemma AddBuiltHonest(w: Work, b: Built, id: Id)
    requires b.Fresh? ==> b.email.id == MintId(w.st.emailSeq + 1)
    ensures Honest(w, AddBuilt(w, b), id)
  {
    hide MintId, Lookup;
    if b.Fresh? {
      LookupAppend(w.st.emails, b.email, id);
    }
  }

  lemma PutHonest(w: Work, i: nat, e: Email, v: Work, id: Id)
    requires UniqueIds(w.st.emails) && i < |w.st.emails| && e.id == w.st.emails[i].id
    requires v.st.emails == w.st.emails[i := e] && w.log.updated <= v.log.updated
    requires SameContent(w.st.emails[i], e) || e.id in v.log.updated
    ensures Honest(w, v, id)
  {
    hide MintId, Lookup, SameContent, UniqueIds;
    LookupAt(w.st.emails, i);
    LookupPut(w.st.emails, i, e, id);
    SameItself(Lookup(w.st.emails, id));
  }

  lemma SameItself(e: Option<Email>)
    ensures e.Some? ==> SameContent(e.value, e.value)
  {
  }

  lemma DropHonest(w: Work, v: Work, id: Id)
    requires Lookup(v.st.emails, id).Some? ==> Lookup(w.st.emails, id) == Lookup(v.st.emails, id)
    requires w.log.updated <= v.log.updated
    ensures Honest(w, v, id)
  {
    hide MintId, Lookup, SameContent;
    SameItself(Lookup(w.st.emails, id));
  }

  /** A flag edit that is not recorded leaves the same keywords. */
  lemma FlagContent(e: Email, op: StoreOp)
    requires !Changes(op, e.keywords)
    ensures SameContent(e, e.(keywords := KeywordsAfter(op, e.keywords)))
  {
    StoreMeaning(op, e.keywords);
  }

  lemma DoAtHonest(w: Work, edit: Edit, i: nat, id: Id)
    requires !edit.Create? && !edit.Import? && !edit.DestroyBatch?
    requires UniqueIds(w.st.emails) && i < |w.st.emails| && w.st.emails[i].id == edit.id
    ensures Honest(w, DoAt(w, edit, i), id)
  {
    hide Honest, SameContent, KeywordsAfter, Changes, Patched, Without, Include, Sync, Assign, Retire, RetireAll, UniqueIds;
    var e, v := w.st.emails[i], DoAt(w, edit, i);
    var drops := match edit
      case Discard(_) => true
      case Expunge(_, source) => Without(e.mailboxIds, {source}) == []
      case _ => false;
    if drops {
      LookupDrop(w.st.emails, i, id);
      DropHonest(w, v, id);
    } else if edit.Flag? && !Changes(edit.op, e.keywords) {
      FlagContent(e, edit.op);
      PutHonest(w, i, v.st.emails[i], v, id);
    } else if v != w {
      PutHonest(w, i, v.st.emails[i], v, id);
    } else {
      DropHonest(w, v, id);
    }
  }

  lemma DoHonest(w: Work, edit: Edit, id: Id)
    requires UniqueIds(w.st.emails)
    ensures Honest(w, Do(w, edit), id)
  {
    hide Honest, DoAt, BuildFrom, UniqueIds, DestroyEach, EmailsWithout, IndexOf, MintId;
    var st := w.st;
    match edit {
      case Create(body) =>
        BuiltMinted(st, body);
        AddBuiltHonest(w, BuildFromCreate(st, body), id);
      case Import(body) =>
        BuiltMinted(st, body);
        AddBuiltHonest(w, BuildFromImport(st, body), id);
      case DestroyBatch(ids) =>
        var kept := w.(st := st.(emails := EmailsWithout(st.emails, Elems(ids))));
        DestroyEachStore(kept, st.emails, ids);
        DestroyEachLists(kept, st.emails, ids);
        LookupWithout(st.emails, Elems(ids), id);
        DropHonest(w, Do(w, edit), id);
      case _ =>
        var i := IndexOf(st.emails, edit.id);
        if i < |st.emails| {
          DoAtHonest(w, edit, i, id);
        } else {
          DropHonest(w, w, id);
        }
    }
  }

  // ----- One command -----

  lemma ContentTransitive(a: Store, b: Store, c: Store, id: Id)
    requires Known(b, id) && Differs(a, c, id)
    ensures Differs(a, b, id) || Differs(b, c, id)
  {
    hide Lookup;
  }

  /** Every email that a command leaves with another content is recorded as updated. */
  lemma {:induction false} DoAllRecords(st: Store, edits: seq<Edit>, id: Id)
    requires Kept(st) && AllProper(edits) && DoAll(Work(st, UNTOUCHED), edits).st.emailSeq <= U64_MAX
    ensures var v := DoAll(Work(st, UNTOUCHED), edits);
            Differs(st, v.st, id) ==> id in v.log.updated
  {
    hide Do, Kept, Differs, Proper, MintId;
    var w := Work(st, UNTOUCHED);
    if edits == [] {
      NoDifference(st, id);
    } else {
      var front, last := edits[..|edits| - 1], edits[|edits| - 1];
      var u := DoAll(w, front);
      DoFrame(u, last);
      DoAllRecords(st, front, id);
      DoAllKept(w, front);
      DoAllFrame(w, front);
      KeptUnique(u.st);
      DoHonest(u, last, id);
      if Differs(st, Do(u, last).st, id) {
        StillKnown(st, u, Do(u, last), id);
        ContentTransitive(st, u.st, Do(u, last).st, id);
      }
    }
  }

  lemma NoDifferenceAround(st: Store, c: Command, id: Id)
    ensures !Differs(st, Around(st, c), id)
  {
    hide Lookup;
  }

  lemma NoDifference(st: Store, id: Id)
    ensures !Differs(st, st, id)
  {
    hide Lookup;
  }

  /** An id of the old store is never minted again. */
  lemma StillKnown(st: Store, u: Work, v: Work, id: Id)
    requires Kept(st) && Honest(u, v, id) && Differs(st, v.st, id)
    requires st.emailSeq <= u.st.emailSeq && v.st.emailSeq <= U64_MAX
    ensures Known(u.st, id)
  {
    hide MintId, Lookup, SameContent;
  }

  lemma ExecRecords(st: Store, c: Command, id: Id)
    requires Kept(st) && ProperCommand(c) && Exec(st, c).st.emailSeq <= U64_MAX
    ensures Differs(st, Exec(st, c).st, id) ==> id in Exec(st, c).log.updated
  {
    hide Kept, Edits, ProperCommand, Differs, DoAll;
    if c.Elsewhere? {
      NothingEdited(st, c);
      NoDifferenceAround(st, c, id);
    } else {
      EditsProper(st, c);
      DoAllRecords(st, Edits(st, c), id);
    }
  }

  /** What is recorded as updated and still lives reaches its account's share. */
  lemma ShareUpdated(w: Work, a: Id, id: Id)
    requires UniqueIds(w.st.emails) && id in w.log.updated && LivesIn(w.st, a, id)
    ensures id in Share(w, a).updated
  {
    hide Lookup;
    EmailOwnersAre(w.st.emails, id);
  }

  // ----- Whole runs -----

  /** Every email of the account that a run leaves with another content is named in what the run
      appended to the account's history. */
  lemma {:induction false} RunReports(s: Server, cs: seq<Command>, a: Id, id: Id)
    requires Kept(s.st) && ProperRun(cs) && RunServer(s, cs).st.emailSeq <= U64_MAX
    requires LivesIn(s.st, a, id) && LivesIn(RunServer(s, cs).st, a, id)
    requires Differs(s.st, RunServer(s, cs).st, id)
    ensures var n, after := |HistOf(s.hists, a)|, HistOf(RunServer(s, cs).hists, a);
            n <= |after| && id in Gather(after[n..], EmailKind, Updated)
  {
    hide Kept, Step, Traces, NoLeftovers, FairTo, ProperCommand, HistOf, LivesIn, Differs, Gather;
    if cs == [] {
      NoDifference(s.st, id);
    } else {
      var front, last := cs[..|cs| - 1], cs[|cs| - 1];
      var mid := RunServer(s, front);
      RunSeq(s, front, last);
      RunTells(s, front, a);
      var n, before, after := |HistOf(s.hists, a)|, HistOf(mid.hists, a), HistOf(Step(mid, last).hists, a);
      LivedBetween(s.st, mid, last, a, id);
      OneMoreReports(mid, last, a, id);
      LivesKnown(mid.st, a, id);
      ContentTransitive(s.st, mid.st, Step(mid, last).st, id);
      assert after[n..] == before[n..] + after[|before|..];
      GatherAppend(before[n..], after[|before|..], EmailKind, Updated);
      if Differs(s.st, mid.st, id) {
        RunReports(s, front, a, id);
      }
    }
  }

  /** An email that lived at the start and lives now lived in between. */
  lemma LivedBetween(s0: Store, mid: Server, c: Command, a: Id, id: Id)
    requires Kept(s0) && Kept(mid.st) && ProperCommand(c)
    requires s0.emailSeq <= mid.st.emailSeq <= Step(mid, c).st.emailSeq <= U64_MAX
    requires LivesIn(s0, a, id) && LivesIn(Step(mid, c).st, a, id)
    ensures LivesIn(mid.st, a, id)
  {
    hide Kept, Exec, ProperCommand, OrphanFree, CreatedIn, DestroyedIn, Portion, DirectoryOf, Recorded, DiffOf, NeverAgain, Chronological, LivesIn, Minted, NoLeftovers;
    StepTraces(mid.st, c, a);
    if Minted(id, mid.st.emailSeq, Exec(mid.st, c).st.emailSeq) {
      MintedWider(s0.emailSeq, mid.st.emailSeq, Exec(mid.st, c).st.emailSeq, id);
      MintedUnknown(s0, id, Exec(mid.st, c).st.emailSeq);
      LivesKnown(s0, a, id);
    }
  }

  /** One step names, in what it appends, every live email whose content it changed. */
  lemma OneMoreReports(mid: Server, c: Command, a: Id, id: Id)
    requires Kept(mid.st) && ProperCommand(c) && Step(mid, c).st.emailSeq <= U64_MAX
    requires LivesIn(Step(mid, c).st, a, id)
    ensures var before, after := HistOf(mid.hists, a), HistOf(Step(mid, c).hists, a);
            && |before| <= |after| && after[..|before|] == before
            && (Differs(mid.st, Step(mid, c).st, id) ==> id in Gather(after[|before|..], EmailKind, Updated))
  {
    hide Kept, Exec, ProperCommand, HistOf, Portion, DirectoryOf, Recorded, DiffOf, LivesIn, Differs;
    var w := Exec(mid.st, c);
    var sub := Portion(mid.st, c, a);
    var before, after := HistOf(mid.hists, a), HistOf(Step(mid, c).hists, a);
    StepHistory(mid, c, a);
    assert after[..|before|] == before;
    if Differs(mid.st, w.st, id) {
      ExecRecords(mid.st, c, id);
      ExecKept(mid.st, c);
      KeptUnique(w.st);
      ShareUpdated(w, a, id);
      PortionEmail(mid.st, c, a);
      assert after[|before|..] == [sub];
      OneUpdated(sub);
    }
  }

  lemma OneUpdated(d: Diff)
    ensures Gather([d], EmailKind, Updated) == d.email.updated
  {
    var none: seq<Id> := [];
    assert [d][..0] == [];
    assert Gather([d], EmailKind, Updated) == none + d.email.updated == d.email.updated;
  }

  // ----- The client -----

  /** The cache holds exactly the account's live emails, each with its content. */
  ghost predicate Mirrors(cache: map<Id, Email>, st: Store, a: Id) {
    && (forall id :: id in cache <==> LivesIn(st, a, id))
    && forall id :: id in cache ==> SameContent(cache[id], Lookup(st.emails, id).value)
  }

  predicate Named(delta: DeltaSet, id: Id) {
    id in delta.created || id in delta.updated
  }

  /** What a client makes of a delta: drop the destroyed, fetch the named anew, forgetting those the
      server no longer finds, and leave everything else alone. */
  ghost function Synced(cache: map<Id, Email>, delta: DeltaSet, st: Store, a: Id): map<Id, Email> {
    map id | id in cache.Keys + Elems(delta.created) + Elems(delta.updated)
             && id !in delta.destroyed && (Named(delta, id) ==> LivesIn(st, a, id))
      :: if Named(delta, id) then Lookup(st.emails, id).value else cache[id]
  }

  /** Cache coherence. A client mirrored account `a` at server `s`; any run followed; the log
      still resolves its token (and, for the seed, nothing was evicted). After one `Email/changes` and
      one fetch of what it names, the client mirrors the account again: the fetch also corrects what an
      orphan left over in the list of created ids. */
  lemma CacheTheorem(s: Server, cs: seq<Command>, a: Id, cache: map<Id, Email>)
    requires Kept(s.st) && ProperRun(cs) && RunServer(s, cs).st.emailSeq <= U64_MAX
    requires var n, hist := |HistOf(s.hists, a)|, HistOf(RunServer(s, cs).hists, a);
             Resolves(hist, n) && (n == 0 ==> |hist| <= MAX_TRANSITIONS)
    requires Mirrors(cache, s.st, a)
    ensures var t := RunServer(s, cs);
            var delta := DeltaFrom(HistOf(t.hists, a), |HistOf(s.hists, a)|, EmailKind, Destroyed).value;
            Mirrors(Synced(cache, delta, t.st, a), t.st, a)
  {
    hide Kept, ProperRun, HistOf, LivesIn, Lookup, DeltaFrom, SameContent, Named, RunServer;
    var t := RunServer(s, cs);
    IdAfterSync(s, cs, a, "");
    var delta := DeltaFrom(HistOf(t.hists, a), |HistOf(s.hists, a)|, EmailKind, Destroyed).value;
    var after := Synced(cache, delta, t.st, a);
    forall id
      ensures id in after <==> LivesIn(t.st, a, id)
      ensures id in after ==> Known(t.st, id) && SameContent(after[id], Lookup(t.st.emails, id).value)
    {
      IdAfterSync(s, cs, a, id);
      NamedIs(delta, id);
      SameItself(Lookup(t.st.emails, id));
      if LivesIn(t.st, a, id) {
        LivesKnown(t.st, a, id);
      }
      if id in cache && id in after && !Named(delta, id) {
        SameChain(cache[id], Lookup(s.st.emails, id).value, Lookup(t.st.emails, id).value);
      }
    }
  }

  lemma NamedIs(delta: DeltaSet, id: Id)
    ensures Named(delta, id) <==> id in delta.created || id in delta.updated
  {
  }

  lemma SameChain(x: Email, y: Email, z: Email)
    requires SameContent(x, y) && SameContent(y, z)
    ensures SameContent(x, z)
  {
  }

  /** The facts about one id that the cache argument needs. */
  lemma IdAfterSync(s: Server, cs: seq<Command>, a: Id, id: Id)
    requires Kept(s.st) && ProperRun(cs) && RunServer(s, cs).st.emailSeq <= U64_MAX
    requires var n, hist := |HistOf(s.hists, a)|, HistOf(RunServer(s, cs).hists, a);
             Resolves(hist, n) && (n == 0 ==> |hist| <= MAX_TRANSITIONS)
    ensures var t := RunServer(s, cs);
            var hist, n := HistOf(t.hists, a), |HistOf(s.hists, a)|;
            && DeltaFrom(hist, n, EmailKind, Destroyed).Some?
            && var delta := DeltaFrom(hist, n, EmailKind, Destroyed).value;
               && (LivesIn(t.st, a, id) ==> (LivesIn(s.st, a, id) || id in delta.created) && id !in delta.destroyed)
               && (LivesIn(s.st, a, id) && !LivesIn(t.st, a, id) ==> id in delta.destroyed)
               && (LivesIn(s.st, a, id) && LivesIn(t.st, a, id) && !Named(delta, id) ==>
                     Known(s.st, id) && Known(t.st, id) && SameContent(Lookup(s.st.emails, id).value, Lookup(t.st.emails, id).value))
  {
    hide Kept, FairTo, ProperCommand, HistOf, LivesIn, Lookup, SameContent, RunServer, Gather, Fold, Minted, NeverAgain, Chronological, NoLeftovers;
    var t := RunServer(s, cs);
    var hist, n := HistOf(t.hists, a), |HistOf(s.hists, a)|;
    RunTells(s, cs, a);
    var w := hist[n..];
    assert Window(hist, n) == w;
    FoldSets(Gather(w, EmailKind, Created), Gather(w, EmailKind, Updated), Gather(w, EmailKind, Destroyed));
    if id in Gather(w, EmailKind, Created) {
      MintedUnknown(s.st, id, t.st.emailSeq);
      if LivesIn(s.st, a, id) {
        LivesKnown(s.st, a, id);
      }
    }
    var delta := DeltaFrom(hist, n, EmailKind, Destroyed).value;
    assert delta == Fold(Gather(w, EmailKind, Created), Gather(w, EmailKind, Updated), Gather(w, EmailKind, Destroyed));
    NamedIs(delta, id);
    assert id in Gather(w, EmailKind, Updated) <==> id in Elems(Gather(w, EmailKind, Updated));
    assert id in Gather(w, EmailKind, Created) <==> id in Elems(Gather(w, EmailKind, Created));
    assert id in Gather(w, EmailKind, Destroyed) <==> id in Elems(Gather(w, EmailKind, Destroyed));
    assert id in delta.updated <==> id in Elems(delta.updated);
    assert id in delta.created <==> id in Elems(delta.created);
    assert id in delta.destroyed <==> id in Elems(delta.destroyed);
    if LivesIn(s.st, a, id) && LivesIn(t.st, a, id) && !Named(delta, id) {
      LivesKnown(s.st, a, id);
      LivesKnown(t.st, a, id);
      if Differs(s.st, t.st, id) {
        RunReports(s, cs, a, id);
      }
    }
  }
}
