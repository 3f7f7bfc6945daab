/** The fixture: the one mutable object every protocol surface reads and edits. Its methods are the
    primitives of src/fixture.rs; the commands built from them are in JmapMail.dfy and
    ImapMail.dfy. `View` is the store of Stores.dfy, `Hists` the unbounded histories behind the
    per-account logs; every method is stated in terms of these two. */
module Fixtures {
  import opened Basics
  import opened Dominance
  import opened Tokens
  import opened Ledgers
  import opened ChangeLogs
  import opened Stores
  import opened Upkeep
  import opened Runs
  import opened SpentSlots
  import opened Splits
  import opened Shares
  import opened Replay

  class Fixture {
    const primary: Id
    const stateSeed: string
    var mailboxes: seq<Mailbox>
    var folders: seq<Folder>
    var contacts: seq<Contact>
    var blobs: set<string>
    var emails: seq<Email>
    var ledger: Ledger
    var emailSeq: nat
    var logs: map<Id, ChangeLog>

    ghost function View(): Store
      reads this`mailboxes, this`folders, this`contacts, this`blobs, this`emails, this`ledger, this`emailSeq
    {
      Store(primary, mailboxes, folders, contacts, blobs, emails, ledger, emailSeq)
    }

    ghost function Hists(): map<Id, seq<Diff>>
      reads this`logs, logs.Values
    {
      map a | a in logs :: logs[a].history
    }

    ghost function Whole(): Server
      reads this, logs.Values
    {
      Server(View(), Hists())
    }

    ghost predicate LogsOk()
      reads this`logs, logs.Values
    {
      && (forall a :: a in logs ==> logs[a].Valid() && logs[a].seed == stateSeed)
      && forall a, b :: a in logs && b in logs && a != b ==> logs[a] != logs[b]
    }

    /** The logs are in order, ids are unique, every email has a mailbox, minting stays fresh, and no
        slot holds an id yet to be minted. */
    ghost predicate Valid()
      reads this, logs.Values
    {
      LogsOk() && Kept(View()) && Spent(View())
    }

    /** No 64-bit change counter is exhausted. */
    ghost predicate Room()
      reads this`logs, logs.Values
    {
      forall a :: a in logs ==> logs[a].counter < U64_MAX
    }

    /** The loader, given declarations that passed its checks: unique ids, and every email in some
        mailbox. It does not refuse a repeated mailbox, and then the ledger law does not hold. */
    constructor (primaryId: Id, ms: seq<Mailbox>, fs: seq<Folder>, cs: seq<Contact>, es: seq<Email>, seed: string)
      requires UniqueIds(es) && Placed(es) && |es| <= U64_MAX
      ensures Valid() && fresh(logs.Values) && Hists() == map[] && stateSeed == seed
      ensures View() == Store(primaryId, ms, fs, cs, {}, es, LoadLedger(es), emailSeq)
      ensures JustLoaded(View()) && (LedgerOk(View()) <==> NoRepeats(es))
    {
      var built := BuildUidHistory(es);
      var highest := MaxMockSeq(EmailIds(es));
      primary, stateSeed, mailboxes, folders, contacts, blobs := primaryId, seed, ms, fs, cs, {};
      emails, ledger, logs := es, built, map[];
      emailSeq := if highest > |es| then highest else |es|;
      new;
      LoadedIsKept(View());
      LoadedStoreSpent(View());
      LoadEstablishesLedgerIff(View());
    }

    // ----- UIDs -----

    method AssignUid(m: Id, id: Id) returns (uid: nat)
      modifies this`ledger
      ensures ledger == Assign(old(ledger), m, id) && uid == UidNext(old(ledger), m)
    {
      var history: Slots := if m in ledger then ledger[m] else [];
      history := history + [Some(id)];
      ledger := ledger[m := history];
      uid := |history|;
    }

    method RetireUid(m: Id, id: Id)
      modifies this`ledger
      ensures ledger == Retire(old(ledger), m, id)
    {
      if m in ledger {
        var history := ledger[m];
        var i := 0;
        while i < |history| && history[i] != Some(id)
          invariant i <= FirstSlot(history, id)
        {
          i := i + 1;
        }
        assert ledger[m := history] == ledger;
        if i < |history| {
          history := history[i := None];
          ledger := ledger[m := history];
        }
      }
    }

    method AssignAllUids(ms: seq<Id>, id: Id)
      modifies this`ledger
      ensures ledger == AssignAll(old(ledger), ms, id)
    {
      for i := 0 to |ms|
        invariant ledger == AssignAll(old(ledger), ms[..i], id)
      {
        assert ms[..i + 1][..i] == ms[..i];
        var _ := AssignUid(ms[i], id);
      }
      assert ms[..|ms|] == ms;
    }

    method RetireAllUids(ms: seq<Id>, id: Id)
      modifies this`ledger
      ensures ledger == RetireAll(old(ledger), ms, id)
    {
      for i := 0 to |ms|
        invariant ledger == RetireAll(old(ledger), ms[..i], id)
      {
        assert ms[..i + 1][..i] == ms[..i];
        RetireUid(ms[i], id);
      }
      assert ms[..|ms|] == ms;
    }

    /** Retire the memberships that went, then assign the ones that came. */
    method SyncMailboxUids(id: Id, before: seq<Id>, after: seq<Id>)
      modifies this`ledger
      ensures ledger == Sync(old(ledger), id, before, after)
    {
      hide Assign, Retire, AssignAll, RetireAll, Without;
      NothingToSync(ledger, id, after, before);
      for i := 0 to |before|
        invariant ledger == RetireAll(old(ledger), Without(before[..i], Elems(after)), id)
      {
        assert before[..i + 1] == before[..i] + [before[i]];
        WithoutSnoc(before[..i], before[i], Elems(after));
        RetireAllSnoc(old(ledger), Without(before[..i], Elems(after)), before[i], id);
        if before[i] !in after {
          RetireUid(before[i], id);
        }
      }
      assert before[..|before|] == before;
      ghost var retired := ledger;
      NothingToSync(retired, id, after, before);
      for i := 0 to |after|
        invariant ledger == AssignAll(retired, Without(after[..i], Elems(before)), id)
      {
        assert after[..i + 1] == after[..i] + [after[i]];
        WithoutSnoc(after[..i], after[i], Elems(before));
        AssignAllSnoc(retired, Without(after[..i], Elems(before)), after[i], id);
        if after[i] !in before {
          var _ := AssignUid(after[i], id);
        }
      }
      assert after[..|after|] == after;
    }

    /** The id is new as long as the counter has not run out. */
    method MintEmailId() returns (id: Id)
      requires emailSeq < U64_MAX
      modifies this`emailSeq
      ensures emailSeq == old(emailSeq) + 1 && id == MintId(emailSeq)
      ensures old(Kept(View())) ==> Lookup(emails, id) == None
    {
      emailSeq := emailSeq + 1;
      id := "mock-email-" + Decimal.Print(emailSeq);
    }

    // ----- Recording -----

    /** `record_transition`: an empty diff leaves no trace; otherwise exactly the touched accounts'
        logs advance, each by one, on its own share. The transition handed back carries the whole
        diff between the primary account's tokens. */
    method RecordTransition(d: Diff) returns (t: Transition)
      requires LogsOk() && Room()
      modifies this`logs, logs.Values
      ensures LogsOk() && fresh(logs.Values - old(logs.Values))
      ensures Hists() == Recorded(old(Hists()), DirectoryOf(View()), d)
      ensures t == Transition(Token(stateSeed, |HistOf(old(Hists()), primary)|), Token(stateSeed, |HistOf(Hists(), primary)|),
                              if IsEmpty(d) then EMPTY_DIFF else d)
    {
      hide IsEmpty, Recorded, Sub, AccountsTouched, Fixture.LogsOk, Fixture.Room, Token, HistOf, Extended;
      var from := StateFor(primary);
      if IsEmpty(d) {
        NothingRecorded(Hists(), DirectoryOf(View()), d);
        return Transition(from, from, EMPTY_DIFF);
      }
      var dir := Directory(primary, EmailOwners(emails), MailboxOwners(mailboxes), FolderOwners(folders),
                           ContactParents(contacts));
      var shares := SplitDiff(dir, d);
      RecordShares(shares);
      HistsRecorded(old(Hists()), dir, d, shares, Hists());
      var to := StateFor(primary);
      t := Transition(from, to, d);
    }

    /** The end of `mutate`: record what the command's closure did and collected. */
    method Commit(log: Touched, ghost before: Server, ghost c: Command)
      requires LogsOk() && Room() && Hists() == before.hists
      requires Work(View(), log) == Exec(before.st, c) && !c.Elsewhere?
      requires Kept(before.st) && Spent(before.st) && ProperCommand(c) && emailSeq <= U64_MAX
      modifies this`logs, logs.Values
      ensures Valid() && fresh(logs.Values - old(logs.Values))
      ensures Whole() == Step(before, c)
    {
      hide Fixture.LogsOk, Fixture.Room, Kept, Spent, ProperCommand, Exec, Recorded, DirectoryOf;
      ExecKept(before.st, c);
      ExecSpent(before.st, c);
      var _ := RecordTransition(EMPTY_DIFF.(email := log));
    }

    /** `mutate` for the surfaces that edit mailboxes, folders, contacts or grants. */
    method Mutate(ms: seq<Mailbox>, fs: seq<Folder>, cs: seq<Contact>, d: Diff) returns (t: Transition)
      requires Valid() && Room() && emailSeq <= U64_MAX
      modifies this, logs.Values
      ensures Valid() && fresh(logs.Values - old(logs.Values))
      ensures Whole() == Step(old(Whole()), Elsewhere(ms, fs, cs, d))
    {
      hide Fixture.LogsOk, Fixture.Room, Kept, Spent, Exec, Recorded, DirectoryOf, Token, IsEmpty, HistOf;
      ghost var before := Whole();
      ghost var c := Elsewhere(ms, fs, cs, d);
      mailboxes, folders, contacts := ms, fs, cs;
      NothingEdited(before.st, c);
      ExecKept(before.st, c);
      ExecSpent(before.st, c);
      t := RecordTransition(d.(email := UNTOUCHED));
    }

    /** The loop over the shares; the order of accounts does not matter. */
    method RecordShares(shares: Partial)
      requires LogsOk() && Room()
      modifies this`logs, logs.Values
      ensures LogsOk() && fresh(logs.Values - old(logs.Values))
      ensures Extended(old(Hists()), shares, Hists(), {})
    {
      hide Fixture.LogsOk, Extended;
      var todo := shares.Keys;
      NoneExtended(Hists(), shares);
      while todo != {}
        invariant todo <= shares.Keys
        invariant LogsOk() && fresh(logs.Values - old(logs.Values))
        invariant Extended(old(Hists()), shares, Hists(), todo)
        invariant forall a :: a in todo && a in logs ==> logs[a].counter < U64_MAX
        decreases todo
      {
        var a :| a in todo;
        ExtendedStep(old(Hists()), shares, Hists(), todo, a);
        RecordShare(a, shares[a]);
        todo := todo - {a};
      }
    }

    /** `entry(..).or_insert_with`: a log is created on first use. */
    method EnsureLog(a: Id)
      requires LogsOk()
      modifies this`logs
      ensures LogsOk() && a in logs && fresh(logs.Values - old(logs.Values))
      ensures a in old(logs) ==> logs == old(logs)
      ensures a !in old(logs) ==> fresh(logs[a]) && logs == old(logs)[a := logs[a]] && logs[a].counter == 0
      ensures Hists() == old(Hists())[a := HistOf(old(Hists()), a)]
    {
      hide ChangeLog.Valid;
      if a !in logs {
        var seeded := new ChangeLog(stateSeed);
        logs := logs[a := seeded];
      }
    }

    /** An existing log takes the share; no other log moves. */
    method RecordIn(a: Id, share: Diff)
      requires LogsOk() && a in logs && logs[a].counter < U64_MAX
      modifies logs[a]
      ensures LogsOk() && Hists() == old(Hists())[a := old(Hists())[a] + [share]]
      ensures forall b :: b in logs && b != a ==> logs[b].counter == old(logs[b].counter)
    {
      hide ChangeLog.Valid;
      assert forall b :: b in logs && b != a ==> logs[b] != logs[a];
      logs[a].Record(share);
    }

    /** One account: take its log, creating it on first use, and record the share. */
    method RecordShare(a: Id, share: Diff)
      requires LogsOk() && (a in logs ==> logs[a].counter < U64_MAX)
      modifies this`logs, if a in logs then {logs[a]} else {}
      ensures LogsOk() && fresh(logs.Values - old(logs.Values))
      ensures Hists() == old(Hists())[a := HistOf(old(Hists()), a) + [share]]
      ensures forall b :: b in logs && b != a ==> b in old(logs) && logs[b] == old(logs)[b] && logs[b].counter == old(logs[b].counter)
    {
      hide ChangeLog.Valid, Fixture.LogsOk;
      EnsureLog(a);
      RecordIn(a, share);
    }

    // ----- Reading the logs -----

    method StateFor(a: Id) returns (state: string)
      requires LogsOk()
      ensures state == Token(stateSeed, |HistOf(Hists(), a)|)
    {
      hide Token;
      TokenZero(stateSeed);
      state := if a in logs then logs[a].state else stateSeed;
    }

    method HighestModseq(a: Id) returns (m: nat)
      requires LogsOk()
      ensures m == |HistOf(Hists(), a)| + 1
    {
      m := (if a in logs then logs[a].counter else 0) + 1;
    }

    method EmailModseq(a: Id, id: Id) returns (m: nat)
      requires LogsOk()
      ensures m == Modseq(HistOf(Hists(), a), id)
    {
      if a in logs {
        m := logs[a].ModseqForEmail(id);
      } else {
        m := 1;
      }
    }

    /** An account that was never mutated knows its seed only. */
    method SeedOnly(since: string, kind: Kind, gone: Part) returns (r: Option<DeltaSet>)
      ensures r == Answer(stateSeed, [], since, kind, gone)
    {
      hide Token, Asked, DeltaFrom;
      TokenZero(stateSeed);
      DeltaCases([], 0, kind, gone);
      if since == stateSeed {
        AnswerToToken(stateSeed, [], 0, kind, gone);
        r := Some(EMPTY_DELTA);
      } else {
        ghost var asked := Asked(stateSeed, [], since);
        r := None;
      }
    }

    /** What an account's client is told has changed since its token: the fold of its own log. */
    method DeltaSinceAccount(since: string, a: Id, kind: Kind) returns (r: Option<DeltaSet>)
      requires LogsOk()
      ensures r == Answer(stateSeed, HistOf(Hists(), a), since, kind, Destroyed)
    {
      if a in logs {
        r := logs[a].DeltaSince(since, kind);
      } else {
        r := SeedOnly(since, kind, Destroyed);
      }
    }

    method GmailHistorySince(a: Id, start: nat) returns (r: GmailHistory)
      requires LogsOk()
      ensures r == if a in Hists() then GmailFrom(Hists()[a], start) else GmailUnstarted(start)
      ensures a !in Hists() ==> r == if start == 0 || start == 1 then Delta([], 1) else Unknown
    {
      if a in logs {
        r := logs[a].GmailHistorySince(start);
      } else {
        var n := if start == 0 then 0 else start - 1;
        r := if n == 0 then Delta([], 1) else Unknown;
      }
    }
  }

  lemma NothingToSync(l: Ledger, id: Id, a: seq<Id>, b: seq<Id>)
    ensures RetireAll(l, Without(b[..0], Elems(a)), id) == l
    ensures AssignAll(l, Without(a[..0], Elems(b)), id) == l
  {
  }

  lemma RetireAllSnoc(l: Ledger, ms: seq<Id>, m: Id, id: Id)
    ensures RetireAll(l, ms + [m], id) == Retire(RetireAll(l, ms, id), m, id)
  {
    hide Retire;
    assert (ms + [m])[..|ms|] == ms;
  }

  lemma AssignAllSnoc(l: Ledger, ms: seq<Id>, m: Id, id: Id)
    ensures AssignAll(l, ms + [m], id) == Assign(AssignAll(l, ms, id), m, id)
  {
    hide Assign;
    assert (ms + [m])[..|ms|] == ms;
  }

  // ----- Loading -----

  /** `rebuild_uid_history`, and the loader's own numbering. */
  method BuildUidHistory(emails: seq<Email>) returns (history: Ledger)
    ensures history == LoadLedger(emails)
  {
    history := map[];
    for i := 0 to |emails|
      invariant history == LoadLedger(emails[..i])
    {
      var e := emails[i];
      assert emails[..i + 1][..i] == emails[..i];
      ghost var before := history;
      for j := 0 to |e.mailboxIds|
        invariant history == AssignAll(before, e.mailboxIds[..j], e.id)
      {
        var m := e.mailboxIds[j];
        assert e.mailboxIds[..j + 1][..j] == e.mailboxIds[..j];
        history := history[m := (if m in history then history[m] else []) + [Some(e.id)]];
      }
      assert e.mailboxIds[..|e.mailboxIds|] == e.mailboxIds;
    }
    assert emails[..|emails|] == emails;
  }

  /** Starting at the highest number used, or at the number of emails when that is more, makes every
      later minted id new. */
  lemma LoadedIsKept(st: Store)
    requires UniqueIds(st.emails) && Placed(st.emails)
    requires st.emailSeq >= MaxMockSeq(EmailIds(st.emails))
    ensures Kept(st)
  {
    hide MintId, MaxMockSeq;
    forall n: nat | st.emailSeq < n <= U64_MAX
      ensures Lookup(st.emails, MintId(n)) == None
    {
      var i := IndexOf(st.emails, MintId(n));
      if i < |st.emails| {
        assert EmailIds(st.emails)[i] == MintId(n);
        MaxMockSeqBounds(EmailIds(st.emails), n);
      }
    }
  }

  // ----- Histories -----

  /** `after` is `before` with the shares of all accounts but those still to do appended. */
  ghost predicate Extended(before: map<Id, seq<Diff>>, shares: Partial, after: map<Id, seq<Diff>>, todo: set<Id>) {
    && after.Keys == before.Keys + (shares.Keys - todo)
    && forall a :: a in after ==>
         after[a] == HistOf(before, a) + if a in shares && a !in todo then [shares[a]] else []
  }

  lemma NoneExtended(before: map<Id, seq<Diff>>, shares: Partial)
    ensures Extended(before, shares, before, shares.Keys)
  {
  }

  lemma ExtendedStep(before: map<Id, seq<Diff>>, shares: Partial, mid: map<Id, seq<Diff>>, todo: set<Id>, a: Id)
    requires Extended(before, shares, mid, todo) && todo <= shares.Keys && a in todo
    ensures Extended(before, shares, mid[a := HistOf(mid, a) + [shares[a]]], todo - {a})
  {
    var next := mid[a := HistOf(mid, a) + [shares[a]]];
    assert next.Keys == before.Keys + (shares.Keys - (todo - {a}));
    assert HistOf(mid, a) == HistOf(before, a) + [];
  }

  lemma NothingRecorded(hists: map<Id, seq<Diff>>, dir: Directory, d: Diff)
    requires IsEmpty(d)
    ensures Recorded(hists, dir, d) == hists
  {
  }

  lemma HistsRecorded(before: map<Id, seq<Diff>>, dir: Directory, d: Diff, shares: Partial, after: map<Id, seq<Diff>>)
    requires !IsEmpty(d) && Extended(before, shares, after, {})
    requires shares.Keys == AccountsTouched(dir, d) && forall a :: a in shares ==> shares[a] == Sub(dir, d, a)
    ensures after == Recorded(before, dir, d)
  {
    hide AccountsTouched, Sub, IsEmpty;
  }
}
