/** `ContactCard/changes`: the account's answer, built folder by folder. */
module JmapContacts {
  import opened Basics
  import opened Dominance
  import opened ChangeLogs
  import opened Stores
  import opened Splits
  import opened Agreement
  import opened ContactDeltas
  import opened Fixtures

  function FoldersOf(folders: seq<Folder>, account: Id): (r: seq<Id>)
    ensures forall f :: f in r <==> Folder(f, account) in folders
  {
    if folders == [] then [] else
      assert folders == folders[..|folders| - 1] + [folders[|folders| - 1]];
      var front, last := FoldersOf(folders[..|folders| - 1], account), folders[|folders| - 1];
      if last.account == account then front + [last.id] else front
  }

  function FolderPosition(folders: seq<Folder>, id: Id): (i: nat)
    ensures i <= |folders|
    ensures i < |folders| ==> folders[i].id == id
    ensures forall j :: 0 <= j < i ==> folders[j].id != id
  {
    if folders == [] || folders[0].id == id then 0 else 1 + FolderPosition(folders[1..], id)
  }

  ghost predicate UniqueFolders(folders: seq<Folder>) {
    forall i, j :: 0 <= i < j < |folders| ==> folders[i].id != folders[j].id
  }

  ghost predicate InOrder(folders: seq<Folder>, r: seq<Id>) {
    forall i, j :: 0 <= i < j < |r| ==> r[i] != r[j] && FolderPosition(folders, r[i]) < FolderPosition(folders, r[j])
  }

  /** Each folder of the account once, in the order in which they are stored. */
  lemma {:induction false} FoldersInOrder(folders: seq<Folder>, account: Id)
    requires UniqueFolders(folders)
    ensures InOrder(folders, FoldersOf(folders, account))
  {
    hide FolderPosition;
    if folders != [] {
      var front, last := folders[..|folders| - 1], folders[|folders| - 1];
      FoldersInOrder(front, account);
      assert folders == front + [last];
      OneMoreFolder(front, last, FoldersOf(front, account), account);
    }
  }

  lemma OneMoreFolder(front: seq<Folder>, last: Folder, r: seq<Id>, account: Id)
    requires UniqueFolders(front + [last]) && InOrder(front, r) && forall f :: f in r ==> Folder(f, account) in front
    ensures InOrder(front + [last], r) && InOrder(front + [last], r + [last.id])
  {
    hide FolderPosition, UniqueFolders;
    forall i | 0 <= i < |r|
      ensures FolderPosition(front + [last], r[i]) == FolderPosition(front, r[i]) < |front| == FolderPosition(front + [last], last.id)
      ensures r[i] != last.id
    {
      assert r[i] in r;
      PositionInFront(front, last, Folder(r[i], account));
    }
  }

  lemma PositionInFront(front: seq<Folder>, last: Folder, f: Folder)
    requires UniqueFolders(front + [last]) && f in front
    ensures FolderPosition(front + [last], f.id) == FolderPosition(front, f.id) < |front|
    ensures FolderPosition(front + [last], last.id) == |front| && last.id != f.id
  {
    hide FolderPosition, UniqueFolders;
    var all := front + [last];
    var k :| 0 <= k < |front| && front[k] == f;
    FrontUnique(front, last);
    PositionOf(front, k);
    PositionOf(all, k);
    PositionOf(all, |front|);
    DistinctAt(all, k, |front|);
  }

  lemma FrontUnique(front: seq<Folder>, last: Folder)
    requires UniqueFolders(front + [last])
    ensures UniqueFolders(front)
  {
    assert forall i :: 0 <= i < |front| ==> (front + [last])[i] == front[i];
  }

  lemma DistinctAt(folders: seq<Folder>, i: nat, j: nat)
    requires UniqueFolders(folders) && i < j < |folders|
    ensures folders[i].id != folders[j].id
  {
  }

  lemma PositionOf(folders: seq<Folder>, k: nat)
    requires UniqueFolders(folders) && k < |folders|
    ensures FolderPosition(folders, folders[k].id) == k
  {
  }

  /** What the account is owed for the text `since`. */
  ghost function Owed(seed: string, hist: seq<Diff>, since: string, folders: seq<Id>): Option<DeltaSet> {
    match Asked(seed, hist, since)
    case None => None
    case Some(n) => AccountDelta(hist, n, folders)
  }

  /** The history behind a folder: its account's, and none at all for a folder that is not known. */
  function HistBehind(hists: map<Id, seq<Diff>>, folders: seq<Folder>, folder: Id): seq<Diff> {
    var i := FolderPosition(folders, folder);
    if i < |folders| then HistOf(hists, folders[i].account) else []
  }

  lemma HistBehindOwn(hists: map<Id, seq<Diff>>, folders: seq<Folder>, folder: Id, account: Id)
    requires UniqueFolders(folders) && folder in FoldersOf(folders, account)
    ensures HistBehind(hists, folders, folder) == HistOf(hists, account)
  {
    var k := FolderPosition(folders, folder);
    var i :| 0 <= i < |folders| && folders[i] == Folder(folder, account);
    assert folders[k].id == folders[i].id;
  }

  /** `contact_delta_since`: the log of the folder's account, tombstones of this folder only; an
      unknown folder is answered from the seed alone. */
  method FolderDeltaSince(fix: Fixture, since: string, folder: Id) returns (r: Option<DeltaSet>)
    requires fix.LogsOk()
    ensures r == Answer(fix.stateSeed, HistBehind(fix.Hists(), fix.folders, folder), since, ContactKind, DestroyedUnder(folder))
  {
    hide Answer;
    var i := FolderPosition(fix.folders, folder);
    if i < |fix.folders| && fix.folders[i].account in fix.logs {
      r := fix.logs[fix.folders[i].account].DeltaSinceFilteredDestroys(since, ContactKind, folder);
    } else {
      r := fix.SeedOnly(since, ContactKind, DestroyedUnder(folder));
    }
  }

  /** One folder's answer, next to what the union has so far. */
  lemma AppendedStep(w: seq<Diff>, folders: seq<Id>, i: nat)
    requires i < |folders|
    ensures var front, d := Appended(w, folders[..i]), FolderDelta(w, folders[i]);
            Appended(w, folders[..i + 1]) ==
            DeltaSet(front.created + d.created, front.updated + d.updated, front.destroyed + d.destroyed)
  {
    hide FolderDelta;
    assert folders[..i + 1][..i] == folders[..i];
  }

  lemma AnswerForFolder(seed: string, hist: seq<Diff>, since: string, folder: Id)
    ensures var asked := Asked(seed, hist, since);
            Answer(seed, hist, since, ContactKind, DestroyedUnder(folder)) ==
            if asked.None? || !Resolves(hist, asked.value) then None
            else Some(FolderDelta(Window(hist, asked.value), folder))
  {
    hide Asked, FoldWindow;
  }

  /** `account_contact_delta`. */
  method AccountContactDelta(fix: Fixture, since: string, account: Id) returns (r: Option<DeltaSet>)
    requires fix.LogsOk() && UniqueFolders(fix.folders)
    ensures r == Owed(fix.stateSeed, HistOf(fix.Hists(), account), since, FoldersOf(fix.folders, account))
    ensures var hist, asked := HistOf(fix.Hists(), account), Asked(fix.stateSeed, HistOf(fix.Hists(), account), since);
            asked.Some? && Resolves(hist, asked.value) ==>
              forall f, id :: Folder(f, account) in fix.folders && TombIn(Window(hist, asked.value), f, id) && id !in Gather(Window(hist, asked.value), ContactKind, Created) ==>
                r.Some? && id in r.value.destroyed
  {
    hide Asked, Resolves, Window, FolderDelta, Appended, Answer, Fixture.LogsOk, UniqueFolders, HistOf, HistBehind;
    var folders := FoldersOf(fix.folders, account);
    ghost var hist := HistOf(fix.Hists(), account);
    ghost var asked := Asked(fix.stateSeed, hist, since);
    if folders == [] {
      r := fix.DeltaSinceAccount(since, account, ContactKind);
      AnswerUnfolds(fix.stateSeed, hist, since);
      return;
    }
    var created: seq<Id>, updated: seq<Id>, destroyed: seq<Id> := [], [], [];
    NothingAppended(folders);
    for i := 0 to |folders|
      invariant i > 0 ==> asked.Some? && Resolves(hist, asked.value)
      invariant asked.Some? && Resolves(hist, asked.value) ==>
                  DeltaSet(created, updated, destroyed) == Appended(Window(hist, asked.value), folders[..i])
    {
      AnswerForFolder(fix.stateSeed, hist, since, folders[i]);
      HistBehindOwn(fix.Hists(), fix.folders, folders[i], account);
      var d := FolderDeltaSince(fix, since, folders[i]);
      if d.None? {
        return None;
      }
      AppendedStep(Window(hist, asked.value), folders, i);
      created := created + d.value.created;
      updated := updated + d.value.updated;
      destroyed := destroyed + d.value.destroyed;
    }
    assert folders[..|folders|] == folders;
    created := DedupPreservingOrder(created);
    updated := DedupPreservingOrder(updated);
    destroyed := DedupPreservingOrder(destroyed);
    r := Some(DeltaSet(created, updated, destroyed));
    if asked.Some? && Resolves(hist, asked.value) {
      EveryFolderTold(hist, asked.value, fix.folders, account);
    }
  }

  /** The window holds a tombstone of `id` whose sidecar names the folder. */
  ghost predicate TombIn(w: seq<Diff>, folder: Id, id: Id) {
    exists i, j :: 0 <= i < |w| && 0 <= j < |w[i].contact.destroyed| == |w[i].contact.sidecar|
                   && w[i].contact.destroyed[j] == id && w[i].contact.sidecar[j] == folder
  }

  lemma TombIsDestroyed(w: seq<Diff>, folder: Id, id: Id)
    requires TombIn(w, folder, id)
    ensures DestroyedIn(w, folder, id)
  {
    hide Gather;
    GatherMember(w, ContactKind, DestroyedUnder(folder), id);
    var i, j :| 0 <= i < |w| && 0 <= j < |w[i].contact.destroyed| == |w[i].contact.sidecar|
                && w[i].contact.destroyed[j] == id && w[i].contact.sidecar[j] == folder;
    assert id in Ids(Pick(w[i], ContactKind), DestroyedUnder(folder));
  }

  /** A contact that went from any folder of the account, and was not created since, is answered. */
  lemma EveryFolderTold(hist: seq<Diff>, n: nat, folders: seq<Folder>, account: Id)
    requires Resolves(hist, n)
    ensures var w, r := Window(hist, n), AccountDelta(hist, n, FoldersOf(folders, account));
            forall f, id :: Folder(f, account) in folders && TombIn(w, f, id) && id !in Gather(w, ContactKind, Created) ==>
              r.Some? && id in r.value.destroyed
  {
    hide Gather, AccountDelta, TombIn, DestroyedIn, Resolves, Window;
    var w := Window(hist, n);
    forall f, id | Folder(f, account) in folders && TombIn(w, f, id) && id !in Gather(w, ContactKind, Created)
      ensures AccountDelta(hist, n, FoldersOf(folders, account)).Some?
              && id in AccountDelta(hist, n, FoldersOf(folders, account)).value.destroyed
    {
      TombIsDestroyed(w, f, id);
      AnswerOverFolders(hist, n, folders, account, id);
    }
  }

  /** What the answer says about one contact, over the stored folders: it is listed as created, updated
      or destroyed if the answer of some folder of the account lists it so. */
  lemma AnswerOverFolders(hist: seq<Diff>, n: nat, folders: seq<Folder>, account: Id, id: Id)
    requires Resolves(hist, n) && exists f :: Folder(f, account) in folders
    ensures var w := Window(hist, n);
            var r := AccountDelta(hist, n, FoldersOf(folders, account));
            var c, u := id in Gather(w, ContactKind, Created), id in Gather(w, ContactKind, Updated);
            && r.Some?
            && (id in r.value.destroyed <==> !c && exists f :: Folder(f, account) in folders && DestroyedIn(w, f, id))
            && (id in r.value.created <==> c && exists f :: Folder(f, account) in folders && !DestroyedIn(w, f, id))
            && (id in r.value.updated <==> u && exists f :: Folder(f, account) in folders && (c <==> DestroyedIn(w, f, id)))
  {
    hide Gather, Appended, FolderDelta, DestroyedIn, Resolves, Window;
    var w, fs := Window(hist, n), FoldersOf(folders, account);
    var f :| Folder(f, account) in folders;
    assert f in fs;
    AppendedMembers(w, fs, id);
    forall f {
      FolderMembers(w, f, id);
    }
  }

  lemma AnswerUnfolds(seed: string, hist: seq<Diff>, since: string)
    ensures Answer(seed, hist, since, ContactKind, Destroyed) == Owed(seed, hist, since, [])
  {
    hide Asked, DeltaFrom;
  }

  lemma NothingAppended(folders: seq<Id>)
    ensures forall w :: Appended(w, folders[..0]) == EMPTY_DELTA
  {
  }
}
