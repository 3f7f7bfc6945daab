/** RENAME carried out on the fixture: resolve both names against the account's LIST paths, edit the
    one mailbox in place, record it. */
module ImapMailboxes {
  import opened Basics
  import opened ChangeLogs
  import opened Stores
  import opened Upkeep
  import opened SpentSlots
  import opened Splits
  import opened Trees
  import opened MailboxTrees
  import opened Replay
  import opened Fixtures

  lemma RenamedSnoc(front: seq<Mailbox>, last: Mailbox, id: Id, leaf: string, parent: Option<Id>)
    requires UniqueMailboxes(front + [last])
    ensures Renamed(front + [last], id, leaf, parent) ==
            if last.id == id then front + [last.(name := leaf, parent := parent)] else Renamed(front, id, leaf, parent) + [last]
  {
    var all := front + [last];
    assert all[|front|] == last && forall j :: 0 <= j < |front| ==> all[j] == front[j];
    if last.id == id {
      UniquePosition(all, |front|);
    } else {
      var i, k := Position(front, id), Position(all, id);
    }
  }

  /** Editing the stored list and editing the account's list come to the same. */
  lemma {:induction false} OwnRenamed(mbs: seq<Mailbox>, account: Id, id: Id, leaf: string, parent: Option<Id>)
    requires UniqueMailboxes(mbs)
    ensures Own(Renamed(mbs, id, leaf, parent), account) == Renamed(Own(mbs, account), id, leaf, parent)
  {
    hide Renamed, Position;
    if mbs == [] {
      RenamedNothing(id, leaf, parent);
    } else {
      var front, last := mbs[..|mbs| - 1], mbs[|mbs| - 1];
      assert mbs == front + [last];
      OwnRenamed(front, account, id, leaf, parent);
      OwnUnique(mbs, account);
      RenamedSnoc(front, last, id, leaf, parent);
      if last.account == account {
        RenamedSnoc(Own(front, account), last, id, leaf, parent);
        if last.id == id {
          OwnSnoc(front, last.(name := leaf, parent := parent), account);
        } else {
          OwnSnoc(Renamed(front, id, leaf, parent), last, account);
        }
      } else if last.id == id {
        OwnSnoc(front, last.(name := leaf, parent := parent), account);
        NotOwned(front, last, account);
        RenamedAbsent(Own(front, account), id, leaf, parent);
      } else {
        OwnSnoc(Renamed(front, id, leaf, parent), last, account);
      }
    }
  }

  lemma RenamedNothing(id: Id, leaf: string, parent: Option<Id>)
    ensures Renamed([], id, leaf, parent) == []
  {
  }

  lemma OwnSnoc(front: seq<Mailbox>, last: Mailbox, account: Id)
    ensures Own(front + [last], account) == if last.account == account then Own(front, account) + [last] else Own(front, account)
  {
    assert (front + [last])[..|front|] == front;
  }

  lemma NotOwned(front: seq<Mailbox>, last: Mailbox, account: Id)
    requires UniqueMailboxes(front + [last])
    ensures forall i :: 0 <= i < |Own(front, account)| ==> Own(front, account)[i].id != last.id
  {
    var own := Own(front, account);
    forall i | 0 <= i < |own|
      ensures own[i].id != last.id
    {
      assert own[i] in front;
      var j :| 0 <= j < |front| && front[j] == own[i];
      assert (front + [last])[j] == front[j] && (front + [last])[|front|] == last;
    }
  }

  lemma RenamedAbsent(mbs: seq<Mailbox>, id: Id, leaf: string, parent: Option<Id>)
    requires forall i :: 0 <= i < |mbs| ==> mbs[i].id != id
    ensures Renamed(mbs, id, leaf, parent) == mbs
  {
  }

  /** The LIST path of every mailbox. */
  method ListPaths(mbs: seq<Mailbox>) returns (paths: seq<string>)
    requires UniqueMailboxes(mbs) && Acyclic(ParentsOf(mbs))
    ensures |paths| == |mbs| && forall i :: 0 <= i < |mbs| ==> paths[i] == PathString(mbs, mbs[i])
  {
    hide UniqueMailboxes, Acyclic, ParentsOf, PathString;
    paths := [];
    for i := 0 to |mbs|
      invariant |paths| == i && forall j :: 0 <= j < i ==> paths[j] == PathString(mbs, mbs[j])
    {
      var path := MailboxPath(mbs, mbs[i]);
      paths := paths + [path];
    }
  }

  method FindPath(mbs: seq<Mailbox>, paths: seq<string>, path: string) returns (r: Option<Id>)
    requires |paths| == |mbs| && forall i :: 0 <= i < |mbs| ==> paths[i] == PathString(mbs, mbs[i])
    ensures r == FindByPath(mbs, mbs, path)
  {
    hide PathString, EqIgnoreCase;
    assert mbs[0..] == mbs;
    for i := 0 to |mbs|
      invariant FindByPath(mbs, mbs, path) == FindByPath(mbs[i..], mbs, path)
    {
      assert mbs[i..][1..] == mbs[i + 1..];
      if EqIgnoreCase(paths[i], path) {
        return Some(mbs[i].id);
      }
    }
    r := None;
  }

  /** Resolving the two names. */
  method Resolve(mbs: seq<Mailbox>, oldName: string, newName: string) returns (plan: RenamePlan)
    requires UniqueMailboxes(mbs) && Acyclic(ParentsOf(mbs))
    ensures plan == PlanRename(mbs, oldName, newName)
  {
    hide UniqueMailboxes, Acyclic, ParentsOf, PathString, FindByPath, SplitParentLeaf, TrimSlashes;
    var name := TrimSlashes(newName);
    var paths := ListPaths(mbs);
    var target := FindPath(mbs, paths, oldName);
    if target.None? {
      return NoSuchMailbox;
    }
    var taken := FindPath(mbs, paths, name);
    if taken.Some? {
      return TargetExists;
    }
    var split := SplitParentLeaf(name);
    var parent: Option<Id> := None;
    if split.parent.Some? {
      parent := FindPath(mbs, paths, split.parent.value);
      if parent.None? {
        return UnknownParent;
      }
    }
    plan := Plan(target.value, parent, split.leaf);
  }

  /** The edit itself, of the first mailbox with that id. */
  method EditMailbox(fix: Fixture, id: Id, leaf: string, parent: Option<Id>)
    modifies fix`mailboxes
    ensures fix.mailboxes == Renamed(old(fix.mailboxes), id, leaf, parent)
  {
    var i := Position(fix.mailboxes, id);
    if i < |fix.mailboxes| {
      fix.mailboxes := fix.mailboxes[i := fix.mailboxes[i].(name := leaf, parent := parent)];
    }
  }

  /** `RENAME`. A carried-out plan changes one mailbox and advances the owner's log by that one
      update; a refused one changes nothing. */
  method RenameMailbox(fix: Fixture, account: Id, oldName: string, newName: string) returns (plan: RenamePlan)
    requires fix.Valid() && fix.Room() && UniqueMailboxes(fix.mailboxes)
    requires Acyclic(ParentsOf(Own(fix.mailboxes, account)))
    modifies fix, fix.logs.Values
    ensures fix.Valid() && fresh(fix.logs.Values - old(fix.logs.Values))
    ensures plan == PlanRename(old(Own(fix.mailboxes, account)), oldName, newName)
    ensures fix.Whole() == RenameStep(old(fix.Whole()), plan)
    ensures old(TreesOk(fix.mailboxes)) ==>
              (TreesOk(fix.mailboxes) <==>
                 (plan.Plan? && plan.parent.Some? ==>
                    !Trees.Under(ParentsOf(old(Own(fix.mailboxes, account))), plan.parent.value, plan.id)))
    ensures plan.Plan? ==> HistOf(fix.Hists(), account) == HistOf(old(fix.Hists()), account) + [EMPTY_DIFF.(mailbox := UNTOUCHED.(updated := [plan.id]))]
    ensures forall other :: !plan.Plan? || other != account ==> HistOf(fix.Hists(), other) == HistOf(old(fix.Hists()), other)
  {
    hide UniqueMailboxes, Acyclic, ParentsOf, PlanRename, Own, Renamed, Recorded, DirectoryOf, Kept, Spent, Fixture.LogsOk, Fixture.Room, TreesOk, Trees.Under, Step, Renaming;
    ghost var start := fix.Whole();
    var own := Own(fix.mailboxes, account);
    OwnUnique(fix.mailboxes, account);
    plan := Resolve(own, oldName, newName);
    if plan.Plan? {
      RenameStepIs(start, plan);
      SameEmails(fix.View(), fix.View().(mailboxes := Renamed(fix.mailboxes, plan.id, plan.leaf, plan.parent)));
      EditMailbox(fix, plan.id, plan.leaf, plan.parent);
      var _ := fix.RecordTransition(EMPTY_DIFF.(mailbox := UNTOUCHED.(updated := [plan.id])));
    }
    if TreesOk(start.st.mailboxes) {
      RenameKeepsTreesIff(start, account, oldName, newName);
    }
    if plan.Plan? {
      RenameTells(start, account, oldName, newName);
    }
  }

  /** The plan as a command of the server's runs. */
  function Renaming(st: Store, plan: RenamePlan): Command
    requires plan.Plan?
  {
    Elsewhere(Renamed(st.mailboxes, plan.id, plan.leaf, plan.parent), st.folders, st.contacts,
              EMPTY_DIFF.(mailbox := UNTOUCHED.(updated := [plan.id])))
  }

  /** The store and histories after a plan was carried out: one more step of the run. */
  function RenameStep(s: Server, plan: RenamePlan): Server {
    if plan.Plan? then Step(s, Renaming(s.st, plan)) else s
  }

  lemma RenameStepIs(s: Server, plan: RenamePlan)
    requires plan.Plan?
    ensures var st := s.st.(mailboxes := Renamed(s.st.mailboxes, plan.id, plan.leaf, plan.parent));
            RenameStep(s, plan) ==
            Server(st, Recorded(s.hists, DirectoryOf(st), EMPTY_DIFF.(mailbox := UNTOUCHED.(updated := [plan.id]))))
  {
    hide Renamed, Recorded, DirectoryOf, Exec;
    NothingEdited(s.st, Renaming(s.st, plan));
  }

  /** A carried-out RENAME is told to the account that owns the mailbox, and to no other. */
  lemma RenameTells(s: Server, account: Id, oldName: string, newName: string)
    requires UniqueMailboxes(s.st.mailboxes) && PlanRename(Own(s.st.mailboxes, account), oldName, newName).Plan?
    ensures var plan := PlanRename(Own(s.st.mailboxes, account), oldName, newName);
            var told := EMPTY_DIFF.(mailbox := UNTOUCHED.(updated := [plan.id]));
            forall a :: HistOf(RenameStep(s, plan).hists, a) == HistOf(s.hists, a) + if a == account then [told] else []
  {
    hide UniqueMailboxes, PlanRename, Own, Renamed, Recorded, DirectoryOf, RenameStep, MailboxIds, HistOf, Owner;
    var plan := PlanRename(Own(s.st.mailboxes, account), oldName, newName);
    var told := EMPTY_DIFF.(mailbox := UNTOUCHED.(updated := [plan.id]));
    OwnUnique(s.st.mailboxes, account);
    PlanFacts(Own(s.st.mailboxes, account), oldName, newName);
    RenameStepIs(s, plan);
    var st := s.st.(mailboxes := Renamed(s.st.mailboxes, plan.id, plan.leaf, plan.parent));
    RenamedOwner(s.st, account, plan.id, plan.leaf, plan.parent);
    forall a
      ensures HistOf(RenameStep(s, plan).hists, a) == HistOf(s.hists, a) + if a == account then [told] else []
    {
      OneUpdatedShare(DirectoryOf(st), plan.id, a);
      RecordedAdvances(s.hists, DirectoryOf(st), told, a);
    }
  }

  lemma RenamedOwner(st: Store, account: Id, id: Id, leaf: string, parent: Option<Id>)
    requires UniqueMailboxes(st.mailboxes) && id in MailboxIds(Own(st.mailboxes, account))
    ensures Owner(DirectoryOf(st.(mailboxes := Renamed(st.mailboxes, id, leaf, parent))), MailboxKind, id) == account
  {
    hide Own, Renamed, MailboxIds, UniqueMailboxes;
    var after := Renamed(st.mailboxes, id, leaf, parent);
    RenamedUnique(st.mailboxes, id, leaf, parent);
    ListedAndOwned(st.mailboxes, account, id);
    RenamedListed(st.mailboxes, id, leaf, parent);
    var i := Position(st.mailboxes, id);
    UniqueInFull(after);
    MailboxOwnersAre(after);
    assert after[i].id == id && after[i].account == account;
  }

  lemma UniqueInFull(mbs: seq<Mailbox>)
    requires UniqueMailboxes(mbs)
    ensures forall i, j :: 0 <= i < j < |mbs| ==> mbs[i].id != mbs[j].id
  {
  }

  lemma RenamedListed(mbs: seq<Mailbox>, id: Id, leaf: string, parent: Option<Id>)
    requires Position(mbs, id) < |mbs|
    ensures var i, after := Position(mbs, id), Renamed(mbs, id, leaf, parent);
            |after| == |mbs| && after[i].id == id && after[i].account == mbs[i].account
  {
  }

  lemma ListedAndOwned(mbs: seq<Mailbox>, account: Id, id: Id)
    requires UniqueMailboxes(mbs) && id in MailboxIds(Own(mbs, account))
    ensures Position(mbs, id) < |mbs| && mbs[Position(mbs, id)].account == account
  {
    var own := Own(mbs, account);
    assert own[Position(own, id)] in own;
    var i :| 0 <= i < |mbs| && mbs[i] == own[Position(own, id)];
    UniquePosition(mbs, i);
  }

  lemma OneUpdatedShare(dir: Directory, id: Id, a: Id)
    ensures var told := EMPTY_DIFF.(mailbox := UNTOUCHED.(updated := [id]));
            !IsEmpty(told) && Sub(dir, told, a) == (if a == Owner(dir, MailboxKind, id) then told else EMPTY_DIFF)
    ensures IsEmpty(EMPTY_DIFF)
  {
    hide Owner;
    assert [id][..0] == [];
    assert Owned(dir, MailboxKind, [id], a) == if a == Owner(dir, MailboxKind, id) then [id] else [];
    assert forall kind :: Owned(dir, kind, [], a) == [] && OwnedTombs(dir, kind, Tombs([], []), a) == [];
    assert TombIds([]) == [] && TombSides([]) == [];
  }

  /** In the account's own tree the step is the rename of MailboxTrees.dfy, and it leaves no cycle
      exactly when the new parent is not at or below the renamed mailbox. */
  lemma RenameStepOnOwn(s: Server, account: Id, oldName: string, newName: string)
    requires UniqueMailboxes(s.st.mailboxes) && Acyclic(ParentsOf(Own(s.st.mailboxes, account)))
    requires PlanRename(Own(s.st.mailboxes, account), oldName, newName).Plan?
    ensures var own := Own(s.st.mailboxes, account);
            var plan := PlanRename(own, oldName, newName);
            var after := Own(RenameStep(s, plan).st.mailboxes, account);
            && after == Renamed(own, plan.id, plan.leaf, plan.parent)
            && (Acyclic(ParentsOf(after)) <==> (plan.parent.Some? ==> !Trees.Under(ParentsOf(own), plan.parent.value, plan.id)))
  {
    hide UniqueMailboxes, Acyclic, ParentsOf, PlanRename, Own, Renamed, Trees.Under, MailboxIds, RenameStep;
    var own := Own(s.st.mailboxes, account);
    var plan := PlanRename(own, oldName, newName);
    OwnUnique(s.st.mailboxes, account);
    PlanFacts(own, oldName, newName);
    RenameStepIs(s, plan);
    OwnRenamed(s.st.mailboxes, account, plan.id, plan.leaf, plan.parent);
    RenameAcyclicIff(own, plan.id, plan.leaf, plan.parent);
  }

  // ----- Every account's tree, load and renames -----

  ghost predicate TreesOk(mbs: seq<Mailbox>) {
    UniqueMailboxes(mbs) && forall account: Id :: Acyclic(ParentsOf(Own(mbs, account)))
  }

  lemma {:induction false} RenamedForeign(mbs: seq<Mailbox>, account: Id, other: Id, id: Id, leaf: string, parent: Option<Id>)
    requires UniqueMailboxes(mbs) && id in MailboxIds(Own(mbs, account)) && other != account
    ensures Own(Renamed(mbs, id, leaf, parent), other) == Own(mbs, other)
  {
    hide Renamed, Acyclic, MailboxIds;
    OwnRenamed(mbs, other, id, leaf, parent);
    var own := Own(mbs, other);
    forall i | 0 <= i < |own|
      ensures own[i].id != id
    {
      assert own[i] in own;
      if own[i].id == id {
        OneAccount(mbs, account, id, own[i]);
      }
    }
    RenamedAbsent(own, id, leaf, parent);
  }

  lemma OneAccount(mbs: seq<Mailbox>, account: Id, id: Id, m: Mailbox)
    requires UniqueMailboxes(mbs) && id in MailboxIds(Own(mbs, account)) && m in mbs && m.id == id
    ensures m.account == account
  {
    var own := Own(mbs, account);
    assert own[Position(own, id)] in own;
    var i :| 0 <= i < |mbs| && mbs[i] == own[Position(own, id)];
    var j :| 0 <= j < |mbs| && mbs[j] == m;
    assert mbs[i].id == mbs[j].id;
  }

  /** From a load, or after any RENAME, every account's tree is acyclic; the next RENAME keeps them all
      so exactly when it does not hang the mailbox at or below itself. */
  lemma RenameKeepsTreesIff(s: Server, account: Id, oldName: string, newName: string)
    requires TreesOk(s.st.mailboxes)
    ensures var own := Own(s.st.mailboxes, account);
            var plan := PlanRename(own, oldName, newName);
            TreesOk(RenameStep(s, plan).st.mailboxes) <==>
            (plan.Plan? && plan.parent.Some? ==> !Trees.Under(ParentsOf(own), plan.parent.value, plan.id))
  {
    hide UniqueMailboxes, Acyclic, ParentsOf, PlanRename, Own, Renamed, Trees.Under, MailboxIds, Step, Renaming;
    var mbs := s.st.mailboxes;
    var plan := PlanRename(Own(mbs, account), oldName, newName);
    if plan.Plan? {
      OwnUnique(mbs, account);
      PlanFacts(Own(mbs, account), oldName, newName);
      RenameStepOnOwn(s, account, oldName, newName);
      RenameStepIs(s, plan);
      RenamedUnique(mbs, plan.id, plan.leaf, plan.parent);
      forall other: Id | other != account
        ensures Own(RenameStep(s, plan).st.mailboxes, other) == Own(mbs, other)
      {
        RenamedForeign(mbs, account, other, plan.id, plan.leaf, plan.parent);
      }
    }
  }

  lemma SameEmails(a: Store, b: Store)
    requires a.emails == b.emails && a.emailSeq == b.emailSeq && a.ledger == b.ledger
    ensures Kept(a) <==> Kept(b)
    ensures Spent(a) <==> Spent(b)
  {
  }
}
