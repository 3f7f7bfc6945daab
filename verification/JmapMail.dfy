/** The JMAP commands that edit mail: `Email/set`, `Email/import` and `EmailSubmission/set`. Each
    runs its loops over the fixture in place, collecting the ids it touched, and then records them;
    each is proved to take the fixture, store and histories, through exactly one step of the
    server of Replay.dfy. */
module JmapMail {
  import opened Basics
  import opened Patches
  import opened Tokens
  import opened Ledgers
  import opened ChangeLogs
  import opened Stores
  import opened Upkeep
  import opened SpentSlots
  import opened Runs
  import opened Splits
  import opened Replay
  import opened Fixtures

  // ----- Building -----

  /** The part `Email/set` create and `Email/import` share: the membership rule of section 4.1.1 of
      RFC 8621, the id, the owner and the date. An id is minted only for an email that is built. */
  method BuildEmail(fix: Fixture, fields: seq<Field>) returns (b: Built)
    requires fix.emailSeq < U64_MAX
    modifies fix`emailSeq
    ensures b == BuildFrom(old(fix.View()), fields)
    ensures fix.emailSeq == old(fix.emailSeq) + if b.Fresh? then 1 else 0
  {
    hide BoolSet, Get, AccountFor, NewestReceived;
    var mailboxIds := Get(fields, "mailboxIds");
    if !mailboxIds.Obj? {
      return Refused(MissingMailboxIds);
    }
    var ids := BoolSet(mailboxIds.fields);
    if ids == [] {
      return Refused(NoMailbox);
    }
    for i := 0 to |ids|
      invariant forall j :: 0 <= j < i ==> KnownMailbox(fix.mailboxes, ids[j])
    {
      if !KnownMailbox(fix.mailboxes, ids[i]) {
        return Refused(UnknownMailbox);
      }
    }
    var keywords := Get(fields, "keywords");
    var kw := if keywords.Obj? then BoolSet(keywords.fields) else [];
    var received := NewestReceived(fix.emails);
    var account := AccountFor(fix.mailboxes, ids, fix.primary);
    var id := fix.MintEmailId();
    b := Fresh(Email(id, account, ids, kw, received));
  }

  method BuildEmailFromCreate(fix: Fixture, body: Json) returns (b: Built)
    requires fix.emailSeq < U64_MAX
    modifies fix`emailSeq
    ensures b == BuildFromCreate(old(fix.View()), body)
    ensures fix.emailSeq == old(fix.emailSeq) + if b.Fresh? then 1 else 0
  {
    if !body.Obj? {
      return Refused(NotAnObject);
    }
    b := BuildEmail(fix, body.fields);
  }

  method BuildEmailFromImport(fix: Fixture, body: Json) returns (b: Built)
    requires fix.emailSeq < U64_MAX
    modifies fix`emailSeq
    ensures b == BuildFromImport(old(fix.View()), body)
    ensures fix.emailSeq == old(fix.emailSeq) + if b.Fresh? then 1 else 0
  {
    if !body.Obj? {
      return Refused(NotAnObject);
    }
    var blob := Get(body.fields, "blobId");
    if !blob.Str? {
      return Refused(MissingBlobId);
    }
    if blob.s !in fix.blobs {
      return Refused(BlobNotFound);
    }
    b := BuildEmail(fix, body.fields);
  }

  // ----- What a request is told -----

  datatype Verdict = Done | NotFound | Invalid

  /** What one entry of `update` is told, given the emails it meets. */
  function VerdictOn(emails: seq<Email>, id: Id, patch: Json): Verdict {
    match Lookup(emails, id)
    case None => NotFound
    case Some(e) => if Patched(e.keywords, e.mailboxIds, patch).Some? then Done else Invalid
  }

  /** An update is not found exactly when no stored email has its id; of a stored email it is carried out
      exactly when the patch is accepted. */
  lemma VerdictMeaning(emails: seq<Email>, id: Id, patch: Json)
    requires UniqueIds(emails)
    ensures VerdictOn(emails, id, patch) == NotFound <==> forall i :: 0 <= i < |emails| ==> emails[i].id != id
    ensures forall i :: 0 <= i < |emails| && emails[i].id == id ==>
              (VerdictOn(emails, id, patch) == Done <==> Patched(emails[i].keywords, emails[i].mailboxIds, patch).Some?)
  {
    hide Patched;
    forall i | 0 <= i < |emails| {
      LookupAt(emails, i);
    }
  }

  /** The answer of `Email/set`, entry by entry of the request. */
  datatype SetAnswer =
    | StateMismatch
    | Answered(oldState: string, newState: string, created: seq<Built>, updated: seq<Verdict>, destroyed: seq<bool>)

  function FreshIds(built: seq<Built>): seq<Id> {
    if built == [] then [] else
      var front, last := FreshIds(built[..|built| - 1]), built[|built| - 1];
      if last.Fresh? then front + [last.email.id] else front
  }

  /** The ids whose entries were carried out. */
  function Chosen(ids: seq<Id>, done: seq<bool>): seq<Id>
    requires |ids| == |done|
  {
    if ids == [] then [] else
      var n := |ids| - 1;
      if done[n] then Chosen(ids[..n], done[..n]) + [ids[n]] else Chosen(ids[..n], done[..n])
  }

  lemma NoneChosen(before: seq<Id>)
    ensures before + Chosen([], []) == before
  {
  }

  lemma ChosenSnoc(ids: seq<Id>, done: seq<bool>, id: Id, d: bool)
    requires |ids| == |done|
    ensures Chosen(ids + [id], done + [d]) == Chosen(ids, done) + if d then [id] else []
  {
    assert (ids + [id])[..|ids|] == ids && (done + [d])[..|ids|] == done;
  }

  lemma FreshSnoc(built: seq<Built>, b: Built)
    ensures FreshIds(built + [b]) == FreshIds(built) + FreshIds([b])
  {
    assert (built + [b])[..|built|] == built && [b][..0] == [];
  }

  function UpdateIds(updates: seq<Update>): (r: seq<Id>)
    ensures |r| == |updates| && forall i :: 0 <= i < |r| ==> r[i] == updates[i].id
  {
    seq(|updates|, i requires 0 <= i < |updates| => updates[i].id)
  }

  function AreDone(verdicts: seq<Verdict>): (r: seq<bool>)
    ensures |r| == |verdicts| && forall i :: 0 <= i < |r| ==> (r[i] <==> verdicts[i] == Done)
  {
    seq(|verdicts|, i requires 0 <= i < |verdicts| => verdicts[i] == Done)
  }

  // ----- One entry of a request -----

  /** Append a built email, give it its UIDs, and record it as created. */
  method Append(fix: Fixture, e: Email, log: Touched) returns (log': Touched)
    modifies fix`emails, fix`ledger
    ensures fix.View() == old(fix.View()).(emails := old(fix.emails) + [e], ledger := AssignAll(old(fix.ledger), e.mailboxIds, e.id))
    ensures log' == log.(created := log.created + [e.id])
  {
    fix.emails := fix.emails + [e];
    fix.AssignAllUids(e.mailboxIds, e.id);
    log' := log.(created := log.created + [e.id]);
  }

  method CreateOne(fix: Fixture, body: Json, log: Touched) returns (log': Touched, b: Built)
    requires fix.emailSeq < U64_MAX
    modifies fix`emails, fix`ledger, fix`emailSeq
    ensures Work(fix.View(), log') == Do(Work(old(fix.View()), log), Create(body))
    ensures b == BuildFromCreate(old(fix.View()), body)
    ensures log' == log.(created := log.created + FreshIds([b]))
    ensures fix.emailSeq <= old(fix.emailSeq) + 1
  {
    hide BuildFromCreate, AssignAll;
    b := BuildEmailFromCreate(fix, body);
    log' := log;
    assert [b][..0] == [];
    if b.Fresh? {
      log' := Append(fix, b.email, log);
      assert FreshIds([b]) == [b.email.id];
    }
  }

  method ImportOne(fix: Fixture, body: Json, log: Touched) returns (log': Touched)
    requires fix.emailSeq < U64_MAX
    modifies fix`emails, fix`ledger, fix`emailSeq
    ensures Work(fix.View(), log') == Do(Work(old(fix.View()), log), Import(body))
    ensures fix.emailSeq <= old(fix.emailSeq) + 1
  {
    hide BuildFromImport, AssignAll;
    var b := BuildEmailFromImport(fix, body);
    log' := log;
    if b.Fresh? {
      log' := Append(fix, b.email, log);
    }
  }

  /** Patch a copy; only a patch that is good as a whole reaches the stored email. */
  method PatchOne(fix: Fixture, id: Id, patch: Json, log: Touched) returns (log': Touched, verdict: Verdict)
    modifies fix`emails, fix`ledger
    ensures Work(fix.View(), log') == Do(Work(old(fix.View()), log), Patch(id, patch))
    ensures verdict == VerdictOn(old(fix.emails), id, patch)
    ensures log' == if verdict == Done then log.(updated := log.updated + [id]) else log
  {
    hide Patched, Sync, IndexOf;
    log', verdict := log, NotFound;
    var i := IndexOf(fix.emails, id);
    if i < |fix.emails| {
      var e := fix.emails[i];
      var p := ApplyEmailPatch(e.keywords, e.mailboxIds, patch);
      if p.Some? {
        fix.emails := fix.emails[i := e.(keywords := p.value.keywords, mailboxIds := p.value.mailboxIds)];
        fix.SyncMailboxUids(id, e.mailboxIds, p.value.mailboxIds);
        log', verdict := log.(updated := log.updated + [id]), Done;
      } else {
        verdict := Invalid;
      }
    }
  }

  method DiscardOne(fix: Fixture, id: Id, log: Touched) returns (log': Touched)
    modifies fix`emails, fix`ledger
    ensures Work(fix.View(), log') == Do(Work(old(fix.View()), log), Discard(id))
  {
    hide RetireAll, IndexOf;
    log' := log;
    var i := IndexOf(fix.emails, id);
    if i < |fix.emails| {
      var e := fix.emails[i];
      fix.emails := fix.emails[..i] + fix.emails[i + 1..];
      fix.RetireAllUids(e.mailboxIds, id);
      log' := log.(destroyed := log.destroyed + [id], sidecar := log.sidecar + [e.account]);
    }
  }

  /** The destroy phase: snapshot what is about to go, drop it in one pass, then retire, record and
      answer in request order. */
  method DestroyMany(fix: Fixture, ids: seq<Id>, log: Touched) returns (log': Touched, done: seq<bool>)
    modifies fix`emails, fix`ledger
    ensures Work(fix.View(), log') == Do(Work(old(fix.View()), log), DestroyBatch(ids))
    ensures |done| == |ids| && forall k :: 0 <= k < |ids| ==> (done[k] <==> Lookup(old(fix.emails), ids[k]).Some?)
    ensures log'.destroyed == log.destroyed + Chosen(ids, done)
  {
    hide RetireAll, Lookup, Chosen, EmailsWithout, DestroyEach;
    var gone := fix.emails;
    fix.emails := Retain(fix.emails, Elems(ids));
    ghost var w := Work(fix.View(), log);
    log', done := log, [];
    NoneChosen(log.destroyed);
    NoneDestroyed(w, gone);
    assert ids[..0] == [];
    for k := 0 to |ids|
      invariant Work(fix.View(), log') == DestroyEach(w, gone, ids[..k])
      invariant |done| == k && forall j :: 0 <= j < k ==> (done[j] <==> Lookup(gone, ids[j]).Some?)
      invariant log'.destroyed == log.destroyed + Chosen(ids[..k], done)
    {
      DestroyEachSnoc(w, gone, ids, k);
      ChosenSnoc(ids[..k], done, ids[k], Lookup(gone, ids[k]).Some?);
      assert ids[..k + 1] == ids[..k] + [ids[k]];
      var e := Lookup(gone, ids[k]);
      done := done + [e.Some?];
      if e.Some? {
        fix.RetireAllUids(e.value.mailboxIds, ids[k]);
        log' := log'.(destroyed := log'.destroyed + [ids[k]], sidecar := log'.sidecar + [e.value.account]);
      }
    }
    assert ids[..|ids|] == ids;
  }

  lemma NoneDestroyed(w: Work, gone: seq<Email>)
    ensures DestroyEach(w, gone, []) == w
  {
  }

  lemma DestroyEachSnoc(w: Work, gone: seq<Email>, ids: seq<Id>, k: nat)
    requires k < |ids|
    ensures var v := DestroyEach(w, gone, ids[..k]);
            DestroyEach(w, gone, ids[..k + 1]) ==
            match Lookup(gone, ids[k])
            case None => v
            case Some(e) =>
              Work(v.st.(ledger := RetireAll(v.st.ledger, e.mailboxIds, ids[k])),
                   v.log.(destroyed := v.log.destroyed + [ids[k]], sidecar := v.log.sidecar + [e.account]))
  {
    hide Lookup, RetireAll;
    assert ids[..k + 1][..k] == ids[..k];
  }

  method Retain(emails: seq<Email>, ids: set<Id>) returns (kept: seq<Email>)
    ensures kept == EmailsWithout(emails, ids)
  {
    kept := [];
    for i := 0 to |emails|
      invariant kept == EmailsWithout(emails[..i], ids)
    {
      assert emails[..i + 1][..i] == emails[..i];
      if emails[i].id !in ids {
        kept := kept + [emails[i]];
      }
    }
    assert emails[..|emails|] == emails;
  }

  // ----- Commands -----

  lemma DoAllSnoc(w: Work, edits: seq<Edit>, e: Edit)
    ensures DoAll(w, edits + [e]) == Do(DoAll(w, edits), e)
  {
    hide Do;
    assert (edits + [e])[..|edits|] == edits;
  }

  lemma NothingRecordedBy(hists: map<Id, seq<Diff>>, dir: Directory)
    ensures Recorded(hists, dir, EmailDiff(UNTOUCHED)) == hists
  {
  }

  method CreateAll(fix: Fixture, creates: seq<Json>) returns (log: Touched, built: seq<Built>)
    requires fix.emailSeq + |creates| <= U64_MAX
    modifies fix`emails, fix`ledger, fix`emailSeq
    ensures Work(fix.View(), log) == DoAll(Work(old(fix.View()), UNTOUCHED), CreateEdits(creates))
    ensures BuiltInTurn(old(fix.View()), creates, built) && log == UNTOUCHED.(created := FreshIds(built))
    ensures fix.emailSeq <= U64_MAX
  {
    hide Do, BuildFromCreate, FreshIds;
    log, built := UNTOUCHED, [];
    ghost var w := Work(fix.View(), log);
    assert CreateEdits(creates[..0]) == [];
    NothingBuilt();
    for i := 0 to |creates|
      invariant fix.emailSeq <= old(fix.emailSeq) + i
      invariant Work(fix.View(), log) == DoAll(w, CreateEdits(creates[..i]))
      invariant |built| == i
      invariant forall k :: 0 <= k < i ==> built[k] == BuildFromCreate(DoAll(w, CreateEdits(creates[..k])).st, creates[k])
      invariant log == UNTOUCHED.(created := FreshIds(built))
    {
      DoAllSnoc(w, CreateEdits(creates[..i]), Create(creates[i]));
      assert CreateEdits(creates[..i + 1]) == CreateEdits(creates[..i]) + [Create(creates[i])];
      var b;
      log, b := CreateOne(fix, creates[i], log);
      FreshSnoc(built, b);
      built := built + [b];
    }
    assert creates[..|creates|] == creates;
  }

  lemma NothingBuilt()
    ensures FreshIds([]) == []
  {
  }

  /** Each create is told what building it in the store left by the earlier ones gives. */
  ghost predicate BuiltInTurn(st: Store, creates: seq<Json>, built: seq<Built>) {
    && |built| == |creates|
    && forall k :: 0 <= k < |creates| ==>
         built[k] == BuildFromCreate(DoAll(Work(st, UNTOUCHED), CreateEdits(creates[..k])).st, creates[k])
  }

  method PatchAll(fix: Fixture, updates: seq<Update>, before: Touched) returns (log: Touched, verdicts: seq<Verdict>)
    modifies fix`emails, fix`ledger
    ensures Work(fix.View(), log) == DoAll(Work(old(fix.View()), before), UpdateEdits(updates))
    ensures JudgedInTurn(Work(old(fix.View()), before), updates, verdicts)
    ensures log == before.(updated := before.updated + Chosen(UpdateIds(updates), AreDone(verdicts)))
  {
    hide Do, DoAll, VerdictOn, Chosen, Patched, UpdateEdits, UpdateIds, AreDone;
    log, verdicts := before, [];
    ghost var w := Work(fix.View(), log);
    NoUpdateEdits();
    assert updates[..0] == [];
    NothingChosen(w, before.updated);
    for i := 0 to |updates|
      invariant Work(fix.View(), log) == DoAll(w, UpdateEdits(updates[..i]))
      invariant |verdicts| == i
      invariant forall k :: 0 <= k < i ==>
                  verdicts[k] == VerdictOn(DoAll(w, UpdateEdits(updates[..k])).st.emails, updates[k].id, updates[k].patch)
      invariant log == before.(updated := before.updated + Chosen(UpdateIds(updates[..i]), AreDone(verdicts)))
    {
      var u := updates[i];
      DoAllSnoc(w, UpdateEdits(updates[..i]), Patch(u.id, u.patch));
      UpdateEditsSnoc(updates, i);
      var v;
      log, v := PatchOne(fix, u.id, u.patch, log);
      DoneSnoc(updates, i, verdicts, v);
      verdicts := verdicts + [v];
    }
    assert updates[..|updates|] == updates;
  }

  lemma NothingChosen(w: Work, before: seq<Id>)
    ensures before + Chosen(UpdateIds([]), AreDone([])) == before
    ensures DoAll(w, []) == w
  {
  }

  lemma DoneSnoc(updates: seq<Update>, i: nat, verdicts: seq<Verdict>, v: Verdict)
    requires i < |updates| && |verdicts| == i
    ensures Chosen(UpdateIds(updates[..i + 1]), AreDone(verdicts + [v])) ==
            Chosen(UpdateIds(updates[..i]), AreDone(verdicts)) + if v == Done then [updates[i].id] else []
  {
    hide Chosen;
    assert UpdateIds(updates[..i + 1]) == UpdateIds(updates[..i]) + [updates[i].id];
    assert AreDone(verdicts + [v]) == AreDone(verdicts) + [v == Done];
    ChosenSnoc(UpdateIds(updates[..i]), AreDone(verdicts), updates[i].id, v == Done);
  }

  lemma NoUpdateEdits()
    ensures UpdateEdits([]) == []
  {
  }

  lemma UpdateEditsSnoc(updates: seq<Update>, i: nat)
    requires i < |updates|
    ensures UpdateEdits(updates[..i + 1]) == UpdateEdits(updates[..i]) + [Patch(updates[i].id, updates[i].patch)]
  {
  }

  /** Each update is judged on the emails left by the earlier ones. */
  ghost predicate JudgedInTurn(w: Work, updates: seq<Update>, verdicts: seq<Verdict>) {
    && |verdicts| == |updates|
    && forall k :: 0 <= k < |updates| ==>
         verdicts[k] == VerdictOn(DoAll(w, UpdateEdits(updates[..k])).st.emails, updates[k].id, updates[k].patch)
  }

  /** The answers fit the call: creates, then updates, then destroys, each entry judged where it
      stands. */
  ghost predicate Judged(st: Store, c: Command, built: seq<Built>, verdicts: seq<Verdict>, done: seq<bool>)
    requires c.EmailSet?
  {
    var w1 := DoAll(Work(st, UNTOUCHED), CreateEdits(c.creates));
    var w2 := DoAll(w1, UpdateEdits(c.updates));
    && BuiltInTurn(st, c.creates, built)
    && JudgedInTurn(w1, c.updates, verdicts)
    && |done| == |c.destroys| && forall k :: 0 <= k < |c.destroys| ==> (done[k] <==> Lookup(w2.st.emails, c.destroys[k]).Some?)
  }

  /** What is answered as done is what is recorded, in the same order. */
  ghost predicate Records(c: Command, built: seq<Built>, verdicts: seq<Verdict>, done: seq<bool>, log: Touched)
    requires c.EmailSet?
  {
    && |verdicts| == |c.updates| && |done| == |c.destroys|
    && log.created == FreshIds(built)
    && log.updated == Chosen(UpdateIds(c.updates), AreDone(verdicts))
    && log.destroyed == Chosen(c.destroys, done)
  }

  method SetAll(fix: Fixture, creates: seq<Json>, updates: seq<Update>, destroys: seq<Id>)
      returns (log: Touched, built: seq<Built>, verdicts: seq<Verdict>, done: seq<bool>)
    requires fix.emailSeq + |creates| <= U64_MAX
    modifies fix`emails, fix`ledger, fix`emailSeq
    ensures var c := EmailSet(creates, updates, destroys);
            && Work(fix.View(), log) == Exec(old(fix.View()), c)
            && Judged(old(fix.View()), c, built, verdicts, done) && Records(c, built, verdicts, done, log)
    ensures fix.emailSeq <= U64_MAX
  {
    hide Do, DoAll, Exec, Edits, BuiltInTurn, VerdictOn, Chosen, FreshIds, Lookup, CreateEdits, UpdateEdits;
    ghost var st := fix.View();
    EmailSetPhases(st, EmailSet(creates, updates, destroys));
    log, built := CreateAll(fix, creates);
    log, verdicts := PatchAll(fix, updates, log);
    ghost var w2 := Work(fix.View(), log);
    DestroyOnlyDestroys(w2, destroys);
    log, done := DestroyMany(fix, destroys, log);
    assert w2.log.destroyed == [] && w2.log.updated == [] + Chosen(UpdateIds(updates), AreDone(verdicts));
    assert [] + Chosen(UpdateIds(updates), AreDone(verdicts)) == Chosen(UpdateIds(updates), AreDone(verdicts));
    assert [] + Chosen(destroys, done) == Chosen(destroys, done);
  }

  /** `Email/set`. If the client names a state the account is no longer in, nothing happens; otherwise
      the call is one step of the server, with the account's tokens from before and after it, and an
      answer for each entry. */
  method SetEmails(fix: Fixture, account: Id, ifInState: Option<string>, creates: seq<Json>, updates: seq<Update>, destroys: seq<Id>)
      returns (a: SetAnswer)
    requires fix.Valid() && fix.Room() && fix.emailSeq + |creates| <= U64_MAX
    requires ProperCommand(EmailSet(creates, updates, destroys))
    modifies fix, fix.logs.Values
    ensures fix.Valid() && fresh(fix.logs.Values - old(fix.logs.Values))
    ensures a.StateMismatch? <==> ifInState.Some? && ifInState.value != Token(fix.stateSeed, |HistOf(old(fix.Hists()), account)|)
    ensures a.StateMismatch? ==> fix.Whole() == old(fix.Whole())
    ensures a.Answered? ==>
              var c := EmailSet(creates, updates, destroys);
              && fix.Whole() == Step(old(fix.Whole()), c)
              && Judged(old(fix.View()), c, a.created, a.updated, a.destroyed)
              && Records(c, a.created, a.updated, a.destroyed, Exec(old(fix.View()), c).log)
              && a.oldState == Token(fix.stateSeed, |HistOf(old(fix.Hists()), account)|)
              && a.newState == Token(fix.stateSeed, |HistOf(fix.Hists(), account)|)
  {
    hide Kept, Spent, Token, ProperCommand, Fixture.LogsOk, Fixture.Room, Step, Judged, Records, Exec;
    ghost var before := fix.Whole();
    var oldState := fix.StateFor(account);
    if ifInState.Some? && ifInState.value != oldState {
      return StateMismatch;
    }
    var log, built, verdicts, done := SetAll(fix, creates, updates, destroys);
    fix.Commit(log, before, EmailSet(creates, updates, destroys));
    var newState := fix.StateFor(account);
    a := Answered(oldState, newState, built, verdicts, done);
  }

  lemma DestroyOnlyDestroys(w: Work, ids: seq<Id>)
    ensures var v := Do(w, DestroyBatch(ids)); v.log.created == w.log.created && v.log.updated == w.log.updated
  {
    hide EmailsWithout;
    DestroyEachLists(w.(st := w.st.(emails := EmailsWithout(w.st.emails, Elems(ids)))), w.st.emails, ids);
  }

  /** `Email/import`. */
  method ImportEmails(fix: Fixture, account: Id, bodies: seq<Json>) returns (oldState: string, newState: string)
    requires fix.Valid() && fix.Room() && fix.emailSeq + |bodies| <= U64_MAX
    requires ProperCommand(EmailImport(bodies))
    modifies fix, fix.logs.Values
    ensures fix.Valid() && fresh(fix.logs.Values - old(fix.logs.Values))
    ensures fix.Whole() == Step(old(fix.Whole()), EmailImport(bodies))
    ensures oldState == Token(fix.stateSeed, |HistOf(old(fix.Hists()), account)|)
    ensures newState == Token(fix.stateSeed, |HistOf(fix.Hists(), account)|)
  {
    hide Do, Kept, Spent, Token, ProperCommand, Fixture.LogsOk, Fixture.Room, Step;
    ghost var before := fix.Whole();
    oldState := fix.StateFor(account);
    var log := ImportAll(fix, bodies);
    fix.Commit(log, before, EmailImport(bodies));
    newState := fix.StateFor(account);
  }

  function ImportEdits(bodies: seq<Json>): (r: seq<Edit>)
    ensures |r| == |bodies| && forall i :: 0 <= i < |r| ==> r[i] == Import(bodies[i])
  {
    seq(|bodies|, i requires 0 <= i < |bodies| => Import(bodies[i]))
  }

  method ImportAll(fix: Fixture, bodies: seq<Json>) returns (log: Touched)
    requires fix.emailSeq + |bodies| <= U64_MAX
    modifies fix`emails, fix`ledger, fix`emailSeq
    ensures Work(fix.View(), log) == Exec(old(fix.View()), EmailImport(bodies))
    ensures fix.emailSeq <= U64_MAX
  {
    hide Do;
    log := UNTOUCHED;
    ghost var w := Work(fix.View(), log);
    for i := 0 to |bodies|
      invariant fix.emailSeq <= old(fix.emailSeq) + i
      invariant Work(fix.View(), log) == DoAll(w, ImportEdits(bodies[..i]))
    {
      DoAllSnoc(w, ImportEdits(bodies[..i]), Import(bodies[i]));
      assert ImportEdits(bodies[..i + 1]) == ImportEdits(bodies[..i]) + [Import(bodies[i])];
      log := ImportOne(fix, bodies[i], log);
    }
    assert bodies[..|bodies|] == bodies;
    assert ImportEdits(bodies) == Edits(w.st, EmailImport(bodies));
  }

  /** `EmailSubmission/set`: a submission whose email id resolves may patch the email or, failing a
      patch entry, discard it; an id that is not in the store is skipped. */
  method SubmitEmails(fix: Fixture, account: Id, submissions: seq<Submission>, onUpdate: map<string, Json>, onDestroy: seq<string>)
      returns (oldState: string, newState: string)
    requires fix.Valid() && fix.Room() && fix.emailSeq <= U64_MAX
    requires ProperCommand(EmailSubmissionSet(submissions, onUpdate, onDestroy))
    modifies fix, fix.logs.Values
    ensures fix.Valid() && fresh(fix.logs.Values - old(fix.logs.Values))
    ensures fix.Whole() == Step(old(fix.Whole()), EmailSubmissionSet(submissions, onUpdate, onDestroy))
    ensures oldState == Token(fix.stateSeed, |HistOf(old(fix.Hists()), account)|)
    ensures newState == Token(fix.stateSeed, |HistOf(fix.Hists(), account)|)
  {
    hide Do, Kept, Spent, Token, ProperCommand, SubmissionEdits, Fixture.LogsOk, Fixture.Room, Step;
    ghost var c := EmailSubmissionSet(submissions, onUpdate, onDestroy);
    ghost var before := fix.Whole();
    oldState := fix.StateFor(account);
    var log := SubmitAll(fix, submissions, onUpdate, onDestroy);
    fix.Commit(log, before, c);
    newState := fix.StateFor(account);
  }

  method SubmitAll(fix: Fixture, submissions: seq<Submission>, onUpdate: map<string, Json>, onDestroy: seq<string>)
      returns (log: Touched)
    modifies fix`emails, fix`ledger
    ensures Work(fix.View(), log) == Exec(old(fix.View()), EmailSubmissionSet(submissions, onUpdate, onDestroy))
  {
    hide Do, SubmissionEdits;
    log := UNTOUCHED;
    ghost var w := Work(fix.View(), log);
    NoSubmissions(onUpdate, onDestroy);
    assert submissions[..0] == [];
    for i := 0 to |submissions|
      invariant Work(fix.View(), log) == DoAll(w, SubmissionEdits(EmailSubmissionSet(submissions[..i], onUpdate, onDestroy)))
    {
      var sub := submissions[i];
      SubmissionStep(submissions, i, onUpdate, onDestroy);
      ghost var front := SubmissionEdits(EmailSubmissionSet(submissions[..i], onUpdate, onDestroy));
      if sub.emailId.Some? {
        var id := sub.emailId.value;
        var key := "#" + sub.createId;
        if key in onUpdate {
          DoAllSnoc(w, front, Patch(id, onUpdate[key]));
          var verdict;
          log, verdict := PatchOne(fix, id, onUpdate[key], log);
        } else if key in onDestroy {
          DoAllSnoc(w, front, Discard(id));
          log := DiscardOne(fix, id, log);
        }
      }
    }
    assert submissions[..|submissions|] == submissions;
  }

  lemma NoSubmissions(onUpdate: map<string, Json>, onDestroy: seq<string>)
    ensures SubmissionEdits(EmailSubmissionSet([], onUpdate, onDestroy)) == []
  {
  }

  lemma SubmissionStep(submissions: seq<Submission>, i: nat, onUpdate: map<string, Json>, onDestroy: seq<string>)
    requires i < |submissions|
    ensures var front := SubmissionEdits(EmailSubmissionSet(submissions[..i], onUpdate, onDestroy));
            var sub, key := submissions[i], "#" + submissions[i].createId;
            SubmissionEdits(EmailSubmissionSet(submissions[..i + 1], onUpdate, onDestroy)) ==
            if sub.emailId.None? then front
            else if key in onUpdate then front + [Patch(sub.emailId.value, onUpdate[key])]
            else if key in onDestroy then front + [Discard(sub.emailId.value)]
            else front
  {
    assert submissions[..i + 1][..i] == submissions[..i];
  }
}
