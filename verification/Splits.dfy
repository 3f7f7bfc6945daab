/** Routing one mutation's ids to the accounts that own them: created and updated ids through the
    live fixture (falling back to the primary account), destroyed ids through their sidecar, ACL
    grants to both sides. Each account that receives anything has its log advanced once. */
module Splits {
  import opened Basics
  import opened ChangeLogs
  import opened Stores

  /** The owner maps collected from the fixture; a later entry for the same id wins. */
  datatype Directory = Directory(primary: Id, emails: map<Id, Id>, mailboxes: map<Id, Id>,
                                 folders: map<Id, Id>, contacts: map<Id, Id>)

  function EmailOwners(emails: seq<Email>): map<Id, Id> {
    if emails == [] then map[] else
      var last := emails[|emails| - 1];
      EmailOwners(emails[..|emails| - 1])[last.id := last.account]
  }

  function MailboxOwners(mailboxes: seq<Mailbox>): map<Id, Id> {
    if mailboxes == [] then map[] else
      var last := mailboxes[|mailboxes| - 1];
      MailboxOwners(mailboxes[..|mailboxes| - 1])[last.id := last.account]
  }

  function FolderOwners(folders: seq<Folder>): map<Id, Id> {
    if folders == [] then map[] else
      var last := folders[|folders| - 1];
      FolderOwners(folders[..|folders| - 1])[last.id := last.account]
  }

  function ContactParents(contacts: seq<Contact>): map<Id, Id> {
    if contacts == [] then map[] else
      var last := contacts[|contacts| - 1];
      ContactParents(contacts[..|contacts| - 1])[last.id := last.folder]
  }

  function DirectoryOf(st: Store): Directory {
    Directory(st.primary, EmailOwners(st.emails), MailboxOwners(st.mailboxes),
              FolderOwners(st.folders), ContactParents(st.contacts))
  }

  function Either(m: map<Id, Id>, k: Id, otherwise: Id): Id {
    if k in m then m[k] else otherwise
  }

  /** Account of a created or updated id. */
  function Owner(dir: Directory, kind: Kind, id: Id): Id {
    match kind
    case EmailKind => Either(dir.emails, id, dir.primary)
    case MailboxKind => Either(dir.mailboxes, id, dir.primary)
    case ContactKind => if id in dir.contacts then Either(dir.folders, dir.contacts[id], dir.primary) else dir.primary
  }

  /** Account of a destroyed id, from its sidecar: the account itself, or a contact's folder. */
  function GoneOwner(dir: Directory, kind: Kind, side: Id): Id {
    if kind == ContactKind then Either(dir.folders, side, dir.primary) else side
  }

  function Owned(dir: Directory, kind: Kind, ids: seq<Id>, a: Id): (r: seq<Id>)
    ensures forall x :: x in r <==> x in ids && Owner(dir, kind, x) == a
  {
    if ids == [] then [] else
      var front, last := ids[..|ids| - 1], ids[|ids| - 1];
      assert ids == front + [last];
      if Owner(dir, kind, last) == a then Owned(dir, kind, front, a) + [last] else Owned(dir, kind, front, a)
  }

  /** A tombstone: a destroyed id with its sidecar entry. */
  datatype Tomb = Tomb(id: Id, side: Id)

  /** `zip`: the shorter list decides. */
  function Tombs(ids: seq<Id>, sides: seq<Id>): (r: seq<Tomb>)
    ensures |r| == if |ids| < |sides| then |ids| else |sides|
    ensures forall i :: 0 <= i < |r| ==> r[i] == Tomb(ids[i], sides[i])
  {
    var n := if |ids| < |sides| then |ids| else |sides|;
    seq(n, i requires 0 <= i < n => Tomb(ids[i], sides[i]))
  }

  function OwnedTombs(dir: Directory, kind: Kind, tombs: seq<Tomb>, a: Id): (r: seq<Tomb>)
    ensures forall t :: t in r <==> t in tombs && GoneOwner(dir, kind, t.side) == a
  {
    if tombs == [] then [] else
      var front, last := tombs[..|tombs| - 1], tombs[|tombs| - 1];
      assert tombs == front + [last];
      if GoneOwner(dir, kind, last.side) == a then OwnedTombs(dir, kind, front, a) + [last]
      else OwnedTombs(dir, kind, front, a)
  }

  function TombIds(tombs: seq<Tomb>): (r: seq<Id>)
    ensures |r| == |tombs| && forall i :: 0 <= i < |r| ==> r[i] == tombs[i].id
  {
    seq(|tombs|, i requires 0 <= i < |tombs| => tombs[i].id)
  }

  function TombSides(tombs: seq<Tomb>): (r: seq<Id>)
    ensures |r| == |tombs| && forall i :: 0 <= i < |r| ==> r[i] == tombs[i].side
  {
    seq(|tombs|, i requires 0 <= i < |tombs| => tombs[i].side)
  }

  /** The grants an account hears of: once as owner, once as grantee. */
  function Concerning(refs: seq<AclRef>, a: Id): (r: seq<AclRef>)
    ensures forall x :: x in r <==> x in refs && (x.owner == a || x.identifier == a)
  {
    if refs == [] then [] else
      var front, last := refs[..|refs| - 1], refs[|refs| - 1];
      assert refs == front + [last];
      Concerning(front, a) + (if last.owner == a then [last] else []) + (if last.identifier == a then [last] else [])
  }

  function SubTouched(dir: Directory, kind: Kind, t: Touched, a: Id): Touched {
    var tombs := OwnedTombs(dir, kind, Tombs(t.destroyed, t.sidecar), a);
    Touched(Owned(dir, kind, t.created, a), Owned(dir, kind, t.updated, a), TombIds(tombs), TombSides(tombs))
  }

  function Sub(dir: Directory, d: Diff, a: Id): Diff {
    Diff(SubTouched(dir, EmailKind, d.email, a), SubTouched(dir, MailboxKind, d.mailbox, a),
         SubTouched(dir, ContactKind, d.contact, a), Concerning(d.granted, a), Concerning(d.revoked, a))
  }

  function OwnersOf(dir: Directory, kind: Kind, t: Touched): set<Id> {
    (set i | 0 <= i < |t.created| :: Owner(dir, kind, t.created[i]))
    + (set i | 0 <= i < |t.updated| :: Owner(dir, kind, t.updated[i]))
    + (set i | 0 <= i < |Tombs(t.destroyed, t.sidecar)| :: GoneOwner(dir, kind, t.sidecar[i]))
  }

  function Sides(refs: seq<AclRef>): set<Id> {
    (set i | 0 <= i < |refs| :: refs[i].owner) + (set i | 0 <= i < |refs| :: refs[i].identifier)
  }

  function AccountsTouched(dir: Directory, d: Diff): set<Id> {
    OwnersOf(dir, EmailKind, d.email) + OwnersOf(dir, MailboxKind, d.mailbox) + OwnersOf(dir, ContactKind, d.contact)
    + Sides(d.granted) + Sides(d.revoked)
  }

  // ----- Who owns what -----

  /** Ids are not shared between records of one kind. */
  ghost predicate UniqueRecords(st: Store) {
    && (forall i, j :: 0 <= i < j < |st.emails| ==> st.emails[i].id != st.emails[j].id)
    && (forall i, j :: 0 <= i < j < |st.mailboxes| ==> st.mailboxes[i].id != st.mailboxes[j].id)
    && (forall i, j :: 0 <= i < j < |st.folders| ==> st.folders[i].id != st.folders[j].id)
    && (forall i, j :: 0 <= i < j < |st.contacts| ==> st.contacts[i].id != st.contacts[j].id)
  }

  lemma {:induction false} MailboxOwnersAre(mailboxes: seq<Mailbox>)
    ensures forall i :: 0 <= i < |mailboxes| && (forall j :: i < j < |mailboxes| ==> mailboxes[j].id != mailboxes[i].id) ==>
              mailboxes[i].id in MailboxOwners(mailboxes) && MailboxOwners(mailboxes)[mailboxes[i].id] == mailboxes[i].account
    ensures forall id :: id in MailboxOwners(mailboxes) ==> exists i :: 0 <= i < |mailboxes| && mailboxes[i].id == id
  {
    if mailboxes != [] {
      var front := mailboxes[..|mailboxes| - 1];
      MailboxOwnersAre(front);
      assert forall i :: 0 <= i < |front| ==> front[i] == mailboxes[i];
      assert mailboxes[|mailboxes| - 1].id in MailboxOwners(mailboxes);
    }
  }

  lemma {:induction false} FolderOwnersAre(folders: seq<Folder>)
    ensures forall i :: 0 <= i < |folders| && (forall j :: i < j < |folders| ==> folders[j].id != folders[i].id) ==>
              folders[i].id in FolderOwners(folders) && FolderOwners(folders)[folders[i].id] == folders[i].account
    ensures forall id :: id in FolderOwners(folders) ==> exists i :: 0 <= i < |folders| && folders[i].id == id
  {
    if folders != [] {
      var front := folders[..|folders| - 1];
      FolderOwnersAre(front);
      assert forall i :: 0 <= i < |front| ==> front[i] == folders[i];
      assert folders[|folders| - 1].id in FolderOwners(folders);
    }
  }

  lemma {:induction false} ContactParentsAre(contacts: seq<Contact>)
    ensures forall i :: 0 <= i < |contacts| && (forall j :: i < j < |contacts| ==> contacts[j].id != contacts[i].id) ==>
              contacts[i].id in ContactParents(contacts) && ContactParents(contacts)[contacts[i].id] == contacts[i].folder
    ensures forall id :: id in ContactParents(contacts) ==> exists i :: 0 <= i < |contacts| && contacts[i].id == id
  {
    if contacts != [] {
      var front := contacts[..|contacts| - 1];
      ContactParentsAre(front);
      assert forall i :: 0 <= i < |front| ==> front[i] == contacts[i];
      assert contacts[|contacts| - 1].id in ContactParents(contacts);
    }
  }

  /** A stored email or mailbox goes to its own account, whatever account made the change; one that is
      not stored falls to the primary account. */
  lemma RoutesEmailsAndMailboxes(st: Store, id: Id)
    requires UniqueRecords(st)
    ensures forall i :: 0 <= i < |st.emails| ==> Owner(DirectoryOf(st), EmailKind, st.emails[i].id) == st.emails[i].account
    ensures forall i :: 0 <= i < |st.mailboxes| ==> Owner(DirectoryOf(st), MailboxKind, st.mailboxes[i].id) == st.mailboxes[i].account
    ensures (forall i :: 0 <= i < |st.emails| ==> st.emails[i].id != id) ==> Owner(DirectoryOf(st), EmailKind, id) == st.primary
    ensures (forall i :: 0 <= i < |st.mailboxes| ==> st.mailboxes[i].id != id) ==> Owner(DirectoryOf(st), MailboxKind, id) == st.primary
  {
    hide Lookup;
    forall i | 0 <= i < |st.emails|
      ensures Owner(DirectoryOf(st), EmailKind, st.emails[i].id) == st.emails[i].account
    {
      EmailOwnersAre(st.emails, st.emails[i].id);
      FoundWhereItIs(st.emails, i);
    }
    EmailOwnersAre(st.emails, id);
    FoundOnlyIfStored(st.emails, id);
    MailboxOwnersAre(st.mailboxes);
  }

  lemma FoundWhereItIs(emails: seq<Email>, i: nat)
    requires i < |emails| && forall i, j :: 0 <= i < j < |emails| ==> emails[i].id != emails[j].id
    ensures Lookup(emails, emails[i].id) == Some(emails[i])
  {
  }

  lemma FoundOnlyIfStored(emails: seq<Email>, id: Id)
    ensures Lookup(emails, id).Some? ==> exists i :: 0 <= i < |emails| && emails[i].id == id
  {
  }

  /** A stored contact goes to the account of its stored folder; without one, to the primary account. */
  lemma RoutesContacts(st: Store, id: Id)
    requires UniqueRecords(st)
    ensures forall i, k :: 0 <= i < |st.contacts| && 0 <= k < |st.folders| && st.contacts[i].folder == st.folders[k].id ==>
              Owner(DirectoryOf(st), ContactKind, st.contacts[i].id) == st.folders[k].account
    ensures forall i :: 0 <= i < |st.contacts| && (forall k :: 0 <= k < |st.folders| ==> st.folders[k].id != st.contacts[i].folder) ==>
              Owner(DirectoryOf(st), ContactKind, st.contacts[i].id) == st.primary
    ensures (forall i :: 0 <= i < |st.contacts| ==> st.contacts[i].id != id) ==> Owner(DirectoryOf(st), ContactKind, id) == st.primary
  {
    ContactParentsAre(st.contacts);
    FolderOwnersAre(st.folders);
  }

  /** A tombstone goes where its sidecar says: the account it names, or, for a contact, the account of
      the folder it names. */
  lemma RoutesTombs(st: Store, side: Id)
    requires UniqueRecords(st)
    ensures GoneOwner(DirectoryOf(st), EmailKind, side) == side && GoneOwner(DirectoryOf(st), MailboxKind, side) == side
    ensures forall k :: 0 <= k < |st.folders| ==> GoneOwner(DirectoryOf(st), ContactKind, st.folders[k].id) == st.folders[k].account
    ensures (forall k :: 0 <= k < |st.folders| ==> st.folders[k].id != side) ==> GoneOwner(DirectoryOf(st), ContactKind, side) == st.primary
  {
    FolderOwnersAre(st.folders);
  }

  /** So a change to a stored mailbox is in the share of the mailbox's account and in no other. */
  lemma MailboxShare(st: Store, d: Diff, i: nat, a: Id)
    requires UniqueRecords(st) && i < |st.mailboxes|
    ensures var id, share := st.mailboxes[i].id, Sub(DirectoryOf(st), d, a).mailbox;
            && (id in share.created <==> id in d.mailbox.created && a == st.mailboxes[i].account)
            && (id in share.updated <==> id in d.mailbox.updated && a == st.mailboxes[i].account)
  {
    hide Owner, DirectoryOf, OwnedTombs, Concerning, UniqueRecords;
    RoutesEmailsAndMailboxes(st, "");
  }

  // ----- Isolation -----

  lemma OwnerListed(dir: Directory, kind: Kind, ids: seq<Id>, a: Id)
    ensures (exists i :: 0 <= i < |ids| && Owner(dir, kind, ids[i]) == a) <==> Owned(dir, kind, ids, a) != []
  {
    hide Owner;
    var mine := Owned(dir, kind, ids, a);
    if i :| 0 <= i < |ids| && Owner(dir, kind, ids[i]) == a {
      assert ids[i] in mine;
    }
    if mine != [] {
      assert mine[0] in mine;
      var i :| 0 <= i < |ids| && ids[i] == mine[0];
    }
  }

  lemma TombListed(dir: Directory, kind: Kind, t: Touched, a: Id)
    ensures var tombs := Tombs(t.destroyed, t.sidecar);
            (exists i :: 0 <= i < |tombs| && GoneOwner(dir, kind, t.sidecar[i]) == a) <==> OwnedTombs(dir, kind, tombs, a) != []
  {
    hide GoneOwner;
    var tombs := Tombs(t.destroyed, t.sidecar);
    var mine := OwnedTombs(dir, kind, tombs, a);
    if i :| 0 <= i < |tombs| && GoneOwner(dir, kind, t.sidecar[i]) == a {
      assert tombs[i] in mine;
    }
    if mine != [] {
      assert mine[0] in mine;
      var i :| 0 <= i < |tombs| && tombs[i] == mine[0];
    }
  }

  lemma OwnersExactly(dir: Directory, kind: Kind, t: Touched, a: Id)
    ensures a in OwnersOf(dir, kind, t) <==> !NothingTouched(SubTouched(dir, kind, t, a))
  {
    hide Owner, GoneOwner, Owned, OwnedTombs;
    OwnerListed(dir, kind, t.created, a);
    OwnerListed(dir, kind, t.updated, a);
    TombListed(dir, kind, t, a);
  }

  lemma SidesExactly(refs: seq<AclRef>, a: Id)
    ensures a in Sides(refs) <==> Concerning(refs, a) != []
  {
    if i :| 0 <= i < |refs| && (refs[i].owner == a || refs[i].identifier == a) {
      assert refs[i] in Concerning(refs, a);
    }
    if Concerning(refs, a) != [] {
      assert Concerning(refs, a)[0] in Concerning(refs, a);
    }
  }

  /** Exactly the accounts with something in their share are touched; a mutation on one account is
      invisible to every other. */
  lemma TouchedExactly(dir: Directory, d: Diff, a: Id)
    ensures a in AccountsTouched(dir, d) <==> !IsEmpty(Sub(dir, d, a))
  {
    hide SubTouched, OwnersOf, Concerning, Sides, NothingTouched;
    OwnersExactly(dir, EmailKind, d.email, a);
    OwnersExactly(dir, MailboxKind, d.mailbox, a);
    OwnersExactly(dir, ContactKind, d.contact, a);
    SidesExactly(d.granted, a);
    SidesExactly(d.revoked, a);
  }

  // ----- Conservation -----

  function ShareOut(dir: Directory, kind: Kind, ids: seq<Id>, accounts: seq<Id>): seq<Id> {
    if accounts == [] then []
    else ShareOut(dir, kind, ids, accounts[..|accounts| - 1]) + Owned(dir, kind, ids, accounts[|accounts| - 1])
  }

  function ShareTombs(dir: Directory, kind: Kind, tombs: seq<Tomb>, accounts: seq<Id>): seq<Tomb> {
    if accounts == [] then []
    else ShareTombs(dir, kind, tombs, accounts[..|accounts| - 1]) + OwnedTombs(dir, kind, tombs, accounts[|accounts| - 1])
  }

  lemma {:induction false} OwnedCount(dir: Directory, kind: Kind, ids: seq<Id>, a: Id, x: Id)
    ensures multiset(Owned(dir, kind, ids, a))[x] == if Owner(dir, kind, x) == a then multiset(ids)[x] else 0
  {
    hide Owner;
    if ids != [] {
      OwnedCount(dir, kind, ids[..|ids| - 1], a, x);
      assert ids == ids[..|ids| - 1] + [ids[|ids| - 1]];
    }
  }

  lemma {:induction false} OwnedTombsCount(dir: Directory, kind: Kind, tombs: seq<Tomb>, a: Id, t: Tomb)
    ensures multiset(OwnedTombs(dir, kind, tombs, a))[t] == if GoneOwner(dir, kind, t.side) == a then multiset(tombs)[t] else 0
  {
    hide GoneOwner;
    if tombs != [] {
      OwnedTombsCount(dir, kind, tombs[..|tombs| - 1], a, t);
      assert tombs == tombs[..|tombs| - 1] + [tombs[|tombs| - 1]];
    }
  }

  lemma {:induction false} ShareOutCount(dir: Directory, kind: Kind, ids: seq<Id>, accounts: seq<Id>, x: Id)
    requires Distinct(accounts)
    ensures multiset(ShareOut(dir, kind, ids, accounts))[x] == if Owner(dir, kind, x) in accounts then multiset(ids)[x] else 0
  {
    hide Owner, Owned;
    if accounts != [] {
      var front, last := accounts[..|accounts| - 1], accounts[|accounts| - 1];
      assert accounts == front + [last] && last !in front;
      ShareOutCount(dir, kind, ids, front, x);
      OwnedCount(dir, kind, ids, last, x);
    }
  }

  lemma {:induction false} ShareTombsCount(dir: Directory, kind: Kind, tombs: seq<Tomb>, accounts: seq<Id>, t: Tomb)
    requires Distinct(accounts)
    ensures multiset(ShareTombs(dir, kind, tombs, accounts))[t] ==
            if GoneOwner(dir, kind, t.side) in accounts then multiset(tombs)[t] else 0
  {
    hide GoneOwner, OwnedTombs;
    if accounts != [] {
      var front, last := accounts[..|accounts| - 1], accounts[|accounts| - 1];
      assert accounts == front + [last] && last !in front;
      ShareTombsCount(dir, kind, tombs, front, t);
      OwnedTombsCount(dir, kind, tombs, last, t);
    }
  }

  /** Conservation: put the touched accounts in any order, lay their shares end to end, and each list
      of the mutation comes back with every id as often as it was there; tombstones come back as
      (id, sidecar) pairs, so the parallel vectors stay parallel. */
  lemma SplitConserves(dir: Directory, kind: Kind, d: Diff, accounts: seq<Id>)
    requires Distinct(accounts) && Elems(accounts) == AccountsTouched(dir, d)
    ensures var t := Pick(d, kind);
            && multiset(ShareOut(dir, kind, t.created, accounts)) == multiset(t.created)
            && multiset(ShareOut(dir, kind, t.updated, accounts)) == multiset(t.updated)
            && multiset(ShareTombs(dir, kind, Tombs(t.destroyed, t.sidecar), accounts)) == multiset(Tombs(t.destroyed, t.sidecar))
  {
    hide Owner, GoneOwner, ShareOut, ShareTombs, Tombs;
    var t := Pick(d, kind);
    var tombs := Tombs(t.destroyed, t.sidecar);
    forall x
      ensures multiset(ShareOut(dir, kind, t.created, accounts))[x] == multiset(t.created)[x]
      ensures multiset(ShareOut(dir, kind, t.updated, accounts))[x] == multiset(t.updated)[x]
    {
      ShareOutCount(dir, kind, t.created, accounts, x);
      ShareOutCount(dir, kind, t.updated, accounts, x);
      RecipientsCovered(dir, kind, d, x);
    }
    forall x
      ensures multiset(ShareTombs(dir, kind, tombs, accounts))[x] == multiset(tombs)[x]
    {
      ShareTombsCount(dir, kind, tombs, accounts, x);
      TombsCovered(dir, kind, d, x);
    }
  }

  lemma RecipientsCovered(dir: Directory, kind: Kind, d: Diff, x: Id)
    ensures multiset(Pick(d, kind).created)[x] > 0 ==> Owner(dir, kind, x) in AccountsTouched(dir, d)
    ensures multiset(Pick(d, kind).updated)[x] > 0 ==> Owner(dir, kind, x) in AccountsTouched(dir, d)
  {
    hide Owner;
    var t := Pick(d, kind);
    if i :| 0 <= i < |t.created| && t.created[i] == x {
      assert Owner(dir, kind, t.created[i]) in OwnersOf(dir, kind, t);
    }
    if i :| 0 <= i < |t.updated| && t.updated[i] == x {
      assert Owner(dir, kind, t.updated[i]) in OwnersOf(dir, kind, t);
    }
  }

  lemma TombsCovered(dir: Directory, kind: Kind, d: Diff, x: Tomb)
    ensures var t := Pick(d, kind);
            multiset(Tombs(t.destroyed, t.sidecar))[x] > 0 ==> GoneOwner(dir, kind, x.side) in AccountsTouched(dir, d)
  {
    hide GoneOwner;
    var t := Pick(d, kind);
    var tombs := Tombs(t.destroyed, t.sidecar);
    if i :| 0 <= i < |tombs| && tombs[i] == x {
      assert GoneOwner(dir, kind, t.sidecar[i]) in OwnersOf(dir, kind, t);
    }
  }

  /** Order inside an account is the order of the mutation: its share is the mutation's own list
      with the other accounts' ids struck out. */
  lemma {:induction false} ShareKeepsOrder(dir: Directory, kind: Kind, ids: seq<Id>, a: Id, strangers: set<Id>)
    requires forall x :: x in ids ==> (x in strangers <==> Owner(dir, kind, x) != a)
    ensures Owned(dir, kind, ids, a) == Without(ids, strangers)
  {
    hide Owner;
    if ids != [] {
      ShareKeepsOrder(dir, kind, ids[..|ids| - 1], a, strangers);
      assert ids == ids[..|ids| - 1] + [ids[|ids| - 1]];
    }
  }

  /** The same for tombstones, each with its sidecar entry. */
  lemma {:induction false} TombsKeepOrder(dir: Directory, kind: Kind, tombs: seq<Tomb>, a: Id, strangers: set<Tomb>)
    requires forall t :: t in tombs ==> (t in strangers <==> GoneOwner(dir, kind, t.side) != a)
    ensures OwnedTombs(dir, kind, tombs, a) == Without(tombs, strangers)
  {
    hide GoneOwner;
    if tombs != [] {
      TombsKeepOrder(dir, kind, tombs[..|tombs| - 1], a, strangers);
      assert tombs == tombs[..|tombs| - 1] + [tombs[|tombs| - 1]];
    }
  }

  /** A grant to its own owner comes twice in a row. */
  function SelfGrantsTwice(refs: seq<AclRef>): seq<AclRef> {
    if refs == [] then [] else
      var front, last := SelfGrantsTwice(refs[..|refs| - 1]), refs[|refs| - 1];
      if last.owner == last.identifier then front + [last, last] else front + [last]
  }

  /** And for ACL references. */
  lemma {:induction false} GrantsKeepOrder(refs: seq<AclRef>, a: Id, strangers: set<AclRef>)
    requires forall x :: x in refs ==> (x in strangers <==> x.owner != a && x.identifier != a)
    ensures Concerning(refs, a) == SelfGrantsTwice(Without(refs, strangers))
  {
    hide Without, SelfGrantsTwice;
    if refs == [] {
      WithoutNothing(refs, strangers);
      NoSelfGrants();
    } else {
      var front, last := refs[..|refs| - 1], refs[|refs| - 1];
      GrantsKeepOrder(front, a, strangers);
      assert refs == front + [last];
      WithoutSnoc(front, last, strangers);
      SelfGrantSnoc(Without(front, strangers), last);
      ConcerningSnoc(front, last, a);
    }
  }

  lemma NoSelfGrants()
    ensures SelfGrantsTwice([]) == []
  {
  }

  lemma SelfGrantSnoc(front: seq<AclRef>, last: AclRef)
    ensures SelfGrantsTwice(front + [last]) ==
            SelfGrantsTwice(front) + if last.owner == last.identifier then [last, last] else [last]
  {
    assert (front + [last])[..|front|] == front;
  }

  lemma ConcerningSnoc(front: seq<AclRef>, last: AclRef, a: Id)
    ensures Concerning(front + [last], a) == Concerning(front, a) +
            if last.owner == a && last.identifier == a then [last, last]
            else if last.owner == a || last.identifier == a then [last]
            else []
  {
    assert (front + [last])[..|front|] == front;
  }

  /** Grants stay grants and revocations revocations, and both go to the two accounts they name. */
  lemma GrantsReachTheRightList(dir: Directory, d: Diff, a: Id, x: AclRef)
    ensures x in Sub(dir, d, a).granted <==> x in d.granted && (x.owner == a || x.identifier == a)
    ensures x in Sub(dir, d, a).revoked <==> x in d.revoked && (x.owner == a || x.identifier == a)
  {
    hide SubTouched;
  }

  /** Each ACL reference reaches its owner's log and its grantee's; when they are the same account
      it is recorded there twice. */
  lemma {:induction false} GrantsReachBothSides(refs: seq<AclRef>, a: Id, x: AclRef)
    ensures multiset(Concerning(refs, a))[x] ==
            if x.owner == a && x.identifier == a then 2 * multiset(refs)[x]
            else if x.owner == a || x.identifier == a then multiset(refs)[x]
            else 0
  {
    hide Concerning;
    if refs == [] {
      NothingConcerns(a);
    } else {
      var front, last := refs[..|refs| - 1], refs[|refs| - 1];
      GrantsReachBothSides(front, a, x);
      ConcerningSnoc(front, last, a);
      assert refs == front + [last];
      assert multiset(refs) == multiset(front) + multiset{last};
    }
  }

  lemma NothingConcerns(a: Id)
    ensures Concerning([], a) == []
  {
  }

  // ----- Recording -----

  function HistOf(hists: map<Id, seq<Diff>>, a: Id): seq<Diff> {
    if a in hists then hists[a] else []
  }

  /** The per-account histories after one recorded mutation. */
  function Recorded(hists: map<Id, seq<Diff>>, dir: Directory, d: Diff): map<Id, seq<Diff>> {
    if IsEmpty(d) then hists else
      map a | a in hists.Keys + AccountsTouched(dir, d) ::
        HistOf(hists, a) + if a in AccountsTouched(dir, d) then [Sub(dir, d, a)] else []
  }

  /** Exactly the touched accounts' counters advance, by exactly one, and only by a non-empty share. */
  lemma RecordedAdvances(hists: map<Id, seq<Diff>>, dir: Directory, d: Diff, a: Id)
    requires !IsEmpty(d)
    ensures HistOf(Recorded(hists, dir, d), a) ==
            HistOf(hists, a) + if IsEmpty(Sub(dir, d, a)) then [] else [Sub(dir, d, a)]
  {
    hide Sub, IsEmpty, AccountsTouched;
    TouchedExactly(dir, d, a);
    if a !in hists.Keys + AccountsTouched(dir, d) {
      assert HistOf(hists, a) + [] == [];
    }
  }

  // ----- Emails -----

  lemma {:induction false} EmailOwnersAre(emails: seq<Email>, id: Id)
    requires forall i, j :: 0 <= i < j < |emails| ==> emails[i].id != emails[j].id
    ensures id in EmailOwners(emails) <==> Lookup(emails, id).Some?
    ensures Lookup(emails, id).Some? ==> EmailOwners(emails)[id] == Lookup(emails, id).value.account
  {
    if emails != [] {
      var front, last := emails[..|emails| - 1], emails[|emails| - 1];
      EmailOwnersAre(front, id);
      var k, k' := IndexOf(front, id), IndexOf(emails, id);
      assert forall j :: 0 <= j < |front| ==> emails[j] == front[j];
    }
  }
}
