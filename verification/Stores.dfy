/** The part of the fixture the mail commands edit, and every command as a list of edits folded
    over it. A command first reads what it needs (its arguments, the live UIDs of the selected
    mailbox), then applies its edits one by one, collecting the ids it created, updated and
    destroyed. The class in Fixture.dfy is proved equal to these functions. */
module Stores {
  import opened Basics
  import opened Patches
  import opened Ledgers
  import opened ChangeLogs
  import opened Flags
  import opened UidSets
  import Decimal

  datatype Mailbox = Mailbox(id: Id, account: Id, name: string, inbox: bool, parent: Option<Id>)

  /** Message content is not modelled; `receivedAt` is in seconds. */
  datatype Email = Email(id: Id, account: Id, mailboxIds: seq<Id>, keywords: seq<string>, receivedAt: int)

  datatype Folder = Folder(id: Id, account: Id)

  datatype Contact = Contact(id: Id, folder: Id)

  datatype Store = Store(primary: Id, mailboxes: seq<Mailbox>, folders: seq<Folder>, contacts: seq<Contact>,
                         blobs: set<string>, emails: seq<Email>, ledger: Ledger, emailSeq: nat)

  // ----- Lookups -----

  function IndexOf(emails: seq<Email>, id: Id): (i: nat)
    ensures i <= |emails|
    ensures i < |emails| ==> emails[i].id == id
    ensures forall j :: 0 <= j < i ==> emails[j].id != id
  {
    if emails == [] then 0
    else if emails[0].id == id then 0
    else 1 + IndexOf(emails[1..], id)
  }

  function EmailIds(emails: seq<Email>): (r: seq<Id>)
    ensures |r| == |emails| && forall i :: 0 <= i < |r| ==> r[i] == emails[i].id
  {
    seq(|emails|, i requires 0 <= i < |emails| => emails[i].id)
  }

  function Lookup(emails: seq<Email>, id: Id): Option<Email> {
    var i := IndexOf(emails, id);
    if i < |emails| then Some(emails[i]) else None
  }

  predicate Lists(emails: seq<Email>, id: Id, m: Id) {
    var e := Lookup(emails, id);
    e.Some? && m in e.value.mailboxIds
  }

  // ----- Building a new email -----

  datatype Refusal = NotAnObject | MissingBlobId | BlobNotFound | MissingMailboxIds | NoMailbox | UnknownMailbox

  datatype Built = Refused(why: Refusal) | Fresh(email: Email)

  function Get(fields: seq<Field>, key: string): Json {
    if fields == [] then Null
    else if fields[0].key == key then fields[0].value
    else Get(fields[1..], key)
  }

  predicate KnownMailbox(mailboxes: seq<Mailbox>, id: Id) {
    exists i :: 0 <= i < |mailboxes| && mailboxes[i].id == id
  }

  /** Account of the first fixture mailbox that the email names. */
  function AccountFor(mailboxes: seq<Mailbox>, ids: seq<Id>, primary: Id): Id {
    if mailboxes == [] then primary
    else if mailboxes[0].id in ids then mailboxes[0].account
    else AccountFor(mailboxes[1..], ids, primary)
  }

  /** 2026-01-01T00:00:00Z */
  const EPOCH := 1767225600

  function NewestReceived(emails: seq<Email>): int {
    if emails == [] then EPOCH
    else if |emails| == 1 then emails[0].receivedAt
    else
      var rest := NewestReceived(emails[1..]);
      if emails[0].receivedAt > rest then emails[0].receivedAt else rest
  }

  function MintId(n: nat): Id {
    "mock-email-" + Decimal.Print(n)
  }

  function BuildFrom(st: Store, fields: seq<Field>): Built {
    var mailboxIds := Get(fields, "mailboxIds");
    if !mailboxIds.Obj? then Refused(MissingMailboxIds) else
      var ids := BoolSet(mailboxIds.fields);
      if ids == [] then Refused(NoMailbox)
      else if exists i :: 0 <= i < |ids| && !KnownMailbox(st.mailboxes, ids[i]) then Refused(UnknownMailbox)
      else
        var keywords := Get(fields, "keywords");
        Fresh(Email(MintId(st.emailSeq + 1), AccountFor(st.mailboxes, ids, st.primary), ids,
                    if keywords.Obj? then BoolSet(keywords.fields) else [],
                    NewestReceived(st.emails)))
  }

  function BuildFromCreate(st: Store, body: Json): Built {
    if !body.Obj? then Refused(NotAnObject) else BuildFrom(st, body.fields)
  }

  /** Import checks the uploaded blob before anything else in the entry. */
  function BuildFromImport(st: Store, body: Json): Built {
    if !body.Obj? then Refused(NotAnObject) else
      var blob := Get(body.fields, "blobId");
      if !blob.Str? then Refused(MissingBlobId)
      else if blob.s !in st.blobs then Refused(BlobNotFound)
      else BuildFrom(st, body.fields)
  }

  // ----- Edits -----

  datatype Work = Work(st: Store, log: Touched)

  datatype Edit =
    | Create(body: Json)
    | Import(body: Json)
    | Patch(id: Id, patch: Json)
    | Discard(id: Id)
    | DestroyBatch(ids: seq<Id>)
    | Copy(id: Id, target: Id)
    | Move(id: Id, source: Id, target: Id)
    | Expunge(id: Id, source: Id)
    | Flag(id: Id, op: StoreOp)

  function AddBuilt(w: Work, b: Built): Work {
    match b
    case Refused(_) => w
    case Fresh(e) =>
      Work(w.st.(emails := w.st.emails + [e], ledger := AssignAll(w.st.ledger, e.mailboxIds, e.id),
                 emailSeq := w.st.emailSeq + 1),
           w.log.(created := w.log.created + [e.id]))
  }

  /** Replace one email in place and record it as updated. */
  function Updated1(w: Work, i: nat, e: Email, ledger: Ledger): Work
    requires i < |w.st.emails|
  {
    Work(w.st.(emails := w.st.emails[i := e], ledger := ledger), w.log.(updated := w.log.updated + [e.id]))
  }

  /** Drop one email and record the tombstone with its account. */
  function Destroyed1(w: Work, i: nat, ledger: Ledger): Work
    requires i < |w.st.emails|
  {
    var e := w.st.emails[i];
    Work(w.st.(emails := w.st.emails[..i] + w.st.emails[i + 1..], ledger := ledger),
         w.log.(destroyed := w.log.destroyed + [e.id], sidecar := w.log.sidecar + [e.account]))
  }

  function EmailsWithout(emails: seq<Email>, ids: set<Id>): seq<Email> {
    if emails == [] then [] else
      var front, last := EmailsWithout(emails[..|emails| - 1], ids), emails[|emails| - 1];
      if last.id in ids then front else front + [last]
  }

  /** The response loop of a batch destroy: each requested id that was live when the batch began
      (in `gone`) gives up its slots and is recorded. */
  function DestroyEach(w: Work, gone: seq<Email>, ids: seq<Id>): Work {
    if ids == [] then w else
      var v := DestroyEach(w, gone, ids[..|ids| - 1]);
      var id := ids[|ids| - 1];
      match Lookup(gone, id)
      case None => v
      case Some(e) =>
        Work(v.st.(ledger := RetireAll(v.st.ledger, e.mailboxIds, id)),
             v.log.(destroyed := v.log.destroyed + [id], sidecar := v.log.sidecar + [e.account]))
  }

  function Do(w: Work, edit: Edit): Work {
    var st := w.st;
    match edit
    case Create(body) => AddBuilt(w, BuildFromCreate(st, body))
    case Import(body) => AddBuilt(w, BuildFromImport(st, body))
    case DestroyBatch(ids) =>
      DestroyEach(w.(st := st.(emails := EmailsWithout(st.emails, Elems(ids)))), st.emails, ids)
    case _ =>
      var i := IndexOf(st.emails, edit.id);
      if i == |st.emails| then w else DoAt(w, edit, i)
  }

  /** An edit of the email at index `i`. */
  function DoAt(w: Work, edit: Edit, i: nat): Work
    requires !edit.Create? && !edit.Import? && !edit.DestroyBatch?
    requires i < |w.st.emails|
  {
    var e, l := w.st.emails[i], w.st.ledger;
    match edit
    case Patch(id, patch) => (
      match Patched(e.keywords, e.mailboxIds, patch)
      case None => w
      case Some(p) =>
        Updated1(w, i, e.(keywords := p.keywords, mailboxIds := p.mailboxIds), Sync(l, id, e.mailboxIds, p.mailboxIds)))
    case Discard(id) => Destroyed1(w, i, RetireAll(l, e.mailboxIds, id))
    case Copy(id, target) =>
      if target in e.mailboxIds then w
      else Updated1(w, i, e.(mailboxIds := e.mailboxIds + [target]), Assign(l, target, id))
    case Move(id, source, target) =>
      Updated1(w, i, e.(mailboxIds := Without(Include(e.mailboxIds, target), {source})),
               Retire(Assign(l, target, id), source, id))
    case Expunge(id, source) =>
      var rest := Without(e.mailboxIds, {source});
      if rest == [] then Destroyed1(w, i, Retire(l, source, id))
      else Updated1(w, i, e.(mailboxIds := rest), Retire(l, source, id))
    case Flag(id, op) =>
      var e' := e.(keywords := KeywordsAfter(op, e.keywords));
      if Changes(op, e.keywords) then Updated1(w, i, e', l)
      else w.(st := w.st.(emails := w.st.emails[i := e']))
  }

  function DoAll(w: Work, edits: seq<Edit>): Work {
    if edits == [] then w else Do(DoAll(w, edits[..|edits| - 1]), edits[|edits| - 1])
  }

  // ----- Commands -----

  datatype Update = Update(id: Id, patch: Json)

  /** One `EmailSubmission/set` create, its email id already resolved. */
  datatype Submission = Submission(createId: string, emailId: Option<Id>)

  /** The seven mail commands, and any other recorded mutation (RENAME, mailbox, folder and contact
      edits, ACL changes): one that leaves emails and ledger alone and records no email. */
  datatype Command =
    | EmailSet(creates: seq<Json>, updates: seq<Update>, destroys: seq<Id>)
    | EmailImport(bodies: seq<Json>)
    | EmailSubmissionSet(submissions: seq<Submission>, onUpdate: map<string, Json>, onDestroy: seq<string>)
    | UidStore(selected: Id, uids: UidSet, op: StoreOp)
    | UidCopy(selected: Id, uids: UidSet, target: Option<Id>)
    | UidMove(selected: Id, uids: UidSet, target: Option<Id>)
    | UidExpunge(selected: Id, uids: UidSet)
    | Elsewhere(mailboxes: seq<Mailbox>, folders: seq<Folder>, contacts: seq<Contact>, diff: Diff)

  /** A live slot as a client sees it. */
  datatype Seen = Seen(uid: nat, id: Id)

  function Live(slots: Slots): (r: seq<Seen>)
    ensures forall s :: s in r <==> 1 <= s.uid <= |slots| && slots[s.uid - 1] == Some(s.id)
  {
    if slots == [] then [] else
      var n := |slots| - 1;
      if slots[n].Some? then Live(slots[..n]) + [Seen(n + 1, slots[n].value)] else Live(slots[..n])
  }

  function Selected(seen: seq<Seen>, uids: UidSet): (r: seq<Seen>)
    ensures forall s :: s in r <==> s in seen && Matches(uids, s.uid)
  {
    if seen == [] then [] else
      var front, last := seen[..|seen| - 1], seen[|seen| - 1];
      assert seen == front + [last];
      if Matches(uids, last.uid) then Selected(front, uids) + [last] else Selected(front, uids)
  }

  predicate IsDeleted(emails: seq<Email>, id: Id) {
    var e := Lookup(emails, id);
    e.Some? && "$deleted" in e.value.keywords
  }

  /** The matched messages that carry `\Deleted`, highest sequence number first. */
  function Victims(st: Store, seen: seq<Seen>): (r: seq<Seen>)
    ensures forall s :: s in r <==> s in seen && IsDeleted(st.emails, s.id)
  {
    if seen == [] then [] else
      var front, last := seen[..|seen| - 1], seen[|seen| - 1];
      assert seen == front + [last];
      if IsDeleted(st.emails, last.id) then [last] + Victims(st, front) else Victims(st, front)
  }

  /** `UID STORE` numbers messages by their position among the emails that list the mailbox. */
  function StoreNumbered(emails: seq<Email>, m: Id): seq<Seen> {
    if emails == [] then [] else
      var front, last := StoreNumbered(emails[..|emails| - 1], m), emails[|emails| - 1];
      if m in last.mailboxIds then front + [Seen(|front| + 1, last.id)] else front
  }

  function SubmissionEdits(c: Command): (r: seq<Edit>)
    requires c.EmailSubmissionSet?
    decreases |c.submissions|
  {
    var n := |c.submissions|;
    if n == 0 then [] else
      var front := SubmissionEdits(c.(submissions := c.submissions[..n - 1]));
      var sub := c.submissions[n - 1];
      var key := "#" + sub.createId;
      if sub.emailId.None? then front
      else if key in c.onUpdate then front + [Patch(sub.emailId.value, c.onUpdate[key])]
      else if key in c.onDestroy then front + [Discard(sub.emailId.value)]
      else front
  }

  function Edits(st: Store, c: Command): seq<Edit> {
    match c
    case EmailSet(creates, updates, destroys) =>
      seq(|creates|, i requires 0 <= i < |creates| => Create(creates[i]))
      + seq(|updates|, i requires 0 <= i < |updates| => Patch(updates[i].id, updates[i].patch))
      + [DestroyBatch(destroys)]
    case EmailImport(bodies) => seq(|bodies|, i requires 0 <= i < |bodies| => Import(bodies[i]))
    case EmailSubmissionSet(_, _, _) => SubmissionEdits(c)
    case UidStore(selected, uids, op) =>
      var seen := Selected(StoreNumbered(st.emails, selected), uids);
      seq(|seen|, i requires 0 <= i < |seen| => Flag(seen[i].id, op))
    case UidCopy(selected, uids, target) =>
      if target.None? then [] else
        var seen := Selected(Live(SlotsOf(st.ledger, selected)), uids);
        seq(|seen|, i requires 0 <= i < |seen| => Copy(seen[i].id, target.value))
    case UidMove(selected, uids, target) =>
      if target.None? || target.value == selected then [] else
        var seen := Selected(Live(SlotsOf(st.ledger, selected)), uids);
        seq(|seen|, i requires 0 <= i < |seen| => Move(seen[i].id, selected, target.value))
    case UidExpunge(selected, uids) =>
      var seen := Victims(st, Selected(Live(SlotsOf(st.ledger, selected)), uids));
      seq(|seen|, i requires 0 <= i < |seen| => Expunge(seen[i].id, selected))
    case Elsewhere(_, _, _, _) => []
  }

  /** The store the edits of a command start from. */
  function Around(st: Store, c: Command): (r: Store)
    ensures r.emails == st.emails && r.ledger == st.ledger && r.emailSeq == st.emailSeq && r.primary == st.primary
  {
    if c.Elsewhere? then st.(mailboxes := c.mailboxes, folders := c.folders, contacts := c.contacts) else st
  }

  function Exec(st: Store, c: Command): Work {
    DoAll(Work(Around(st, c), UNTOUCHED), Edits(st, c))
  }
}
