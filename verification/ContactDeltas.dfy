/** `ContactCard/changes` builds an account's answer as the union of per-folder answers, each of
    which cancels only against that folder's own tombstones. The account-wide walk cancels against
    all of them. This module says when the two give the same sets. */
module ContactDeltas {
  import opened Basics
  import opened Dominance
  import opened ChangeLogs
  import opened Agreement

  function FolderDelta(w: seq<Diff>, folder: Id): DeltaSet {
    FoldWindow(w, ContactKind, DestroyedUnder(folder))
  }

  /** The accumulators after the per-folder answers were appended in folder order. */
  function Appended(w: seq<Diff>, folders: seq<Id>): DeltaSet {
    if folders == [] then EMPTY_DELTA else
      var front := Appended(w, folders[..|folders| - 1]);
      var d := FolderDelta(w, folders[|folders| - 1]);
      DeltaSet(front.created + d.created, front.updated + d.updated, front.destroyed + d.destroyed)
  }

  function Deduped(d: DeltaSet): DeltaSet {
    DeltaSet(FirstSeen(d.created), FirstSeen(d.updated), FirstSeen(d.destroyed))
  }

  function AccountDelta(hist: seq<Diff>, n: nat, folders: seq<Id>): Option<DeltaSet> {
    if folders == [] then DeltaFrom(hist, n, ContactKind, Destroyed)
    else if !Resolves(hist, n) then None
    else Some(Deduped(Appended(Window(hist, n), folders)))
  }

  /** The two answers name the same ids in each list; order aside. */
  ghost predicate SameSets(a: DeltaSet, b: DeltaSet) {
    forall id :: SameAt(a, b, id)
  }

  ghost predicate SameAt(a: DeltaSet, b: DeltaSet, id: Id) {
    && (id in a.created <==> id in b.created)
    && (id in a.updated <==> id in b.updated)
    && (id in a.destroyed <==> id in b.destroyed)
  }

  /** Every tombstone of the window names one of `folders`. */
  ghost predicate ParentsAmong(w: seq<Diff>, folders: seq<Id>) {
    forall i :: 0 <= i < |w| ==>
      && |w[i].contact.sidecar| == |w[i].contact.destroyed|
      && forall j :: 0 <= j < |w[i].contact.sidecar| ==> w[i].contact.sidecar[j] in folders
  }

  ghost predicate DestroyedIn(w: seq<Diff>, folder: Id, id: Id) {
    id in Gather(w, ContactKind, DestroyedUnder(folder))
  }

  /** No id was destroyed under two folders (contact ids are never reused). */
  ghost predicate OneParentEach(w: seq<Diff>, folders: seq<Id>) {
    forall f, g, id :: f in folders && g in folders && DestroyedIn(w, f, id) && DestroyedIn(w, g, id) ==> f == g
  }

  lemma {:induction false} AppendedMembers(w: seq<Diff>, folders: seq<Id>, id: Id)
    ensures id in Appended(w, folders).created <==> exists f :: f in folders && id in FolderDelta(w, f).created
    ensures id in Appended(w, folders).updated <==> exists f :: f in folders && id in FolderDelta(w, f).updated
    ensures id in Appended(w, folders).destroyed <==> exists f :: f in folders && id in FolderDelta(w, f).destroyed
  {
    hide FolderDelta;
    if folders != [] {
      var front, last := folders[..|folders| - 1], folders[|folders| - 1];
      AppendedMembers(w, front, id);
      assert forall f :: f in folders <==> f in front || f == last;
    }
  }

  lemma DestroyedSplitsByParent(w: seq<Diff>, folders: seq<Id>, id: Id)
    requires ParentsAmong(w, folders)
    ensures id in Gather(w, ContactKind, Destroyed) <==> exists f :: f in folders && DestroyedIn(w, f, id)
  {
    hide Gather;
    GatherMember(w, ContactKind, Destroyed, id);
    forall f {
      GatherMember(w, ContactKind, DestroyedUnder(f), id);
    }
    if id in Gather(w, ContactKind, Destroyed) {
      var i :| 0 <= i < |w| && id in w[i].contact.destroyed;
      var j :| 0 <= j < |w[i].contact.destroyed| && w[i].contact.destroyed[j] == id;
      var f := w[i].contact.sidecar[j];
      assert id in Ids(Pick(w[i], ContactKind), DestroyedUnder(f));
      assert f in folders && DestroyedIn(w, f, id);
    }
    if f :| f in folders && DestroyedIn(w, f, id) {
      var i :| 0 <= i < |w| && id in Ids(Pick(w[i], ContactKind), DestroyedUnder(f));
      assert id in Ids(Pick(w[i], ContactKind), Destroyed);
    }
  }

  /** Membership in one folder's answer, from the raw window. */
  lemma FolderMembers(w: seq<Diff>, f: Id, id: Id)
    ensures var c, u := id in Gather(w, ContactKind, Created), id in Gather(w, ContactKind, Updated);
            var d := DestroyedIn(w, f, id);
            && (id in FolderDelta(w, f).created <==> c && !d)
            && (id in FolderDelta(w, f).destroyed <==> d && !c)
            && (id in FolderDelta(w, f).updated <==> u && !(c && !d) && !(d && !c))
  {
    hide Gather;
  }

  /** With two or more folders, an id leaves the union's `created` only if every folder destroyed it. */
  lemma UnionMembers(w: seq<Diff>, folders: seq<Id>, id: Id)
    requires |folders| >= 2 && Distinct(folders) && ParentsAmong(w, folders) && OneParentEach(w, folders)
    ensures var c, u := id in Gather(w, ContactKind, Created), id in Gather(w, ContactKind, Updated);
            var d := id in Gather(w, ContactKind, Destroyed);
            && (id in Appended(w, folders).created <==> c)
            && (id in Appended(w, folders).destroyed <==> d && !c)
            && (id in Appended(w, folders).updated <==> u && (c ==> d))
  {
    hide Gather, Appended, FolderDelta, DestroyedIn, ParentsAmong;
    AppendedMembers(w, folders, id);
    DestroyedSplitsByParent(w, folders, id);
    forall f {
      FolderMembers(w, f, id);
    }
    var c, d := id in Gather(w, ContactKind, Created), id in Gather(w, ContactKind, Destroyed);
    var g := if DestroyedIn(w, folders[0], id) then folders[1] else folders[0];
    assert g in folders && !DestroyedIn(w, g, id);
    if d {
      var f :| f in folders && DestroyedIn(w, f, id);
      assert id in FolderDelta(w, f).destroyed <==> !c;
    }
  }

  /** On an account with one folder the two walks return the same lists. */
  lemma OneFolderAgrees(hist: seq<Diff>, n: nat, folder: Id)
    requires Resolves(hist, n) ==> ParentsAmong(Window(hist, n), [folder])
    ensures AccountDelta(hist, n, [folder]) == DeltaFrom(hist, n, ContactKind, Destroyed)
  {
    hide Gather, Fold, ParentsAmong, FirstSeen, Resolves, Window;
    if Resolves(hist, n) {
      var w := Window(hist, n);
      AllUnderOneParent(w, folder);
      OneAppended(w, folder);
      var d := FolderDelta(w, folder);
      DominanceLaw(Gather(w, ContactKind, Created), Gather(w, ContactKind, Updated), Gather(w, ContactKind, Destroyed));
      FirstSeenOfDistinct(d.created);
      FirstSeenOfDistinct(d.updated);
      FirstSeenOfDistinct(d.destroyed);
    }
  }

  lemma OneAppended(w: seq<Diff>, folder: Id)
    ensures Appended(w, [folder]) == FolderDelta(w, folder)
  {
    hide FolderDelta;
    assert [folder][..0] == [];
  }

  lemma {:induction false} AllUnderOneParent(w: seq<Diff>, folder: Id)
    requires ParentsAmong(w, [folder])
    ensures Gather(w, ContactKind, DestroyedUnder(folder)) == Gather(w, ContactKind, Destroyed)
  {
    if w != [] {
      AllUnderOneParent(w[..|w| - 1], folder);
      var t := w[|w| - 1].contact;
      UnderEverything(t.destroyed, t.sidecar, folder);
    }
  }

  lemma {:induction false} UnderEverything(ids: seq<Id>, parents: seq<Id>, parent: Id)
    requires |ids| == |parents| && forall j :: 0 <= j < |parents| ==> parents[j] == parent
    ensures Under(ids, parents, parent) == ids
  {
    if ids != [] {
      UnderEverything(ids[..|ids| - 1], parents[..|ids| - 1], parent);
      assert ids == ids[..|ids| - 1] + [ids[|ids| - 1]];
    }
  }

  /** On an account with several folders the union equals the account-wide walk exactly when no id
      destroyed in the window was also created or updated in it. Otherwise the folders that did not
      hold the tombstone report the dead id as created, or as updated. */
  lemma SeveralFoldersAgreeIff(hist: seq<Diff>, n: nat, folders: seq<Id>)
    requires |folders| >= 2 && Distinct(folders) && Resolves(hist, n)
    requires ParentsAmong(Window(hist, n), folders) && OneParentEach(Window(hist, n), folders)
    ensures SameSets(AccountDelta(hist, n, folders).value, DeltaFrom(hist, n, ContactKind, Destroyed).value)
            <==> NoDeadIdTouched(Window(hist, n))
  {
    hide Gather, Appended, Deduped, FoldWindow;
    var w := Window(hist, n);
    var union, account := Deduped(Appended(w, folders)), FoldWindow(w, ContactKind, Destroyed);
    forall id
      ensures SameAt(union, account, id) <==> !DeadAndTouched(w, id)
    {
      SameAtIff(w, folders, id);
    }
  }

  ghost predicate DeadAndTouched(w: seq<Diff>, id: Id) {
    && id in Gather(w, ContactKind, Destroyed)
    && (id in Gather(w, ContactKind, Created) || id in Gather(w, ContactKind, Updated))
  }

  lemma SameAtIff(w: seq<Diff>, folders: seq<Id>, id: Id)
    requires |folders| >= 2 && Distinct(folders) && ParentsAmong(w, folders) && OneParentEach(w, folders)
    ensures SameAt(Deduped(Appended(w, folders)), FoldWindow(w, ContactKind, Destroyed), id)
            <==> !DeadAndTouched(w, id)
  {
    hide Gather, Appended, ParentsAmong, OneParentEach;
    UnionMembers(w, folders, id);
    FoldSets(Gather(w, ContactKind, Created), Gather(w, ContactKind, Updated), Gather(w, ContactKind, Destroyed));
  }

  ghost predicate NoDeadIdTouched(w: seq<Diff>) {
    forall id :: !DeadAndTouched(w, id)
  }

  // ----- The lists themselves -----

  lemma {:induction false} FirstSeenPrefix(s: seq<Id>, t: seq<Id>)
    requires Distinct(s)
    ensures s <= FirstSeen(s + t)
  {
    if t == [] {
      assert s + t == s;
      FirstSeenOfDistinct(s);
    } else {
      var front, last := t[..|t| - 1], t[|t| - 1];
      assert s + t == (s + front) + [last];
      FirstSeenPrefix(s, front);
      FirstSeenSnoc(s + front, last);
    }
  }

  ghost predicate StartsWith(whole: DeltaSet, head: DeltaSet) {
    head.created <= whole.created && head.updated <= whole.updated && head.destroyed <= whole.destroyed
  }

  ghost predicate EachOnce(d: DeltaSet) {
    Distinct(d.created) && Distinct(d.updated) && Distinct(d.destroyed)
  }

  lemma {:induction false} FirstFolderAppended(w: seq<Diff>, folders: seq<Id>)
    requires folders != []
    ensures StartsWith(Appended(w, folders), FolderDelta(w, folders[0]))
  {
    hide FolderDelta;
    if |folders| > 1 {
      FirstFolderAppended(w, folders[..|folders| - 1]);
    } else {
      assert Appended(w, folders[..0]) == EMPTY_DELTA;
    }
  }

  /** The answer names no id twice in a list, and starts with what the first folder's walk found. */
  lemma AnswerShape(hist: seq<Diff>, n: nat, folders: seq<Id>)
    requires Resolves(hist, n) && folders != []
    ensures var r := AccountDelta(hist, n, folders);
            r.Some? && EachOnce(r.value) && StartsWith(r.value, FolderDelta(Window(hist, n), folders[0]))
  {
    hide FirstSeen, Appended, FolderDelta, Window, Resolves;
    var w := Window(hist, n);
    var all, head := Appended(w, folders), FolderDelta(w, folders[0]);
    FirstFolderAppended(w, folders);
    FolderDistinct(w, folders[0]);
    FirstSeenDistinct(all.created);
    FirstSeenDistinct(all.updated);
    FirstSeenDistinct(all.destroyed);
    assert all.created == head.created + all.created[|head.created|..];
    assert all.updated == head.updated + all.updated[|head.updated|..];
    assert all.destroyed == head.destroyed + all.destroyed[|head.destroyed|..];
    FirstSeenPrefix(head.created, all.created[|head.created|..]);
    FirstSeenPrefix(head.updated, all.updated[|head.updated|..]);
    FirstSeenPrefix(head.destroyed, all.destroyed[|head.destroyed|..]);
  }

  lemma FolderDistinct(w: seq<Diff>, folder: Id)
    ensures EachOnce(FolderDelta(w, folder))
  {
    hide FirstSeen, Gather;
    var c, u, d := Gather(w, ContactKind, Created), Gather(w, ContactKind, Updated), Gather(w, ContactKind, DestroyedUnder(folder));
    var c', d' := Without(c, Elems(d)), Without(d, Elems(c));
    FirstSeenDistinct(c');
    FirstSeenDistinct(Without(u, Elems(c') + Elems(d')));
    FirstSeenDistinct(d');
  }
}
