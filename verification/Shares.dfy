/** Building the per-account shares one id at a time: how the accumulator map of
    `split_diff_by_account` grows into the shares of Splits.dfy. */
module Shares {
  import opened Basics
  import opened ChangeLogs
  import opened Splits

  /** The accumulator: an account without an entry has an empty diff. */
  type Partial = map<Id, Diff>

  function At(out: Partial, a: Id): Diff {
    if a in out then out[a] else EMPTY_DIFF
  }

  function Put(d: Diff, kind: Kind, t: Touched): Diff {
    match kind
    case EmailKind => d.(email := t)
    case MailboxKind => d.(mailbox := t)
    case ContactKind => d.(contact := t)
  }

  function AddCreated(t: Touched, id: Id): Touched {
    t.(created := t.created + [id])
  }

  function AddUpdated(t: Touched, id: Id): Touched {
    t.(updated := t.updated + [id])
  }

  function AddTomb(t: Touched, id: Id, side: Id): Touched {
    t.(destroyed := t.destroyed + [id], sidecar := t.sidecar + [side])
  }

  /** The accumulator holds every account's share of `d`, and no empty entry. */
  ghost predicate Dealt(dir: Directory, d: Diff, out: Partial) {
    && (forall a :: At(out, a) == Sub(dir, d, a))
    && forall a :: a in out ==> !IsEmpty(out[a])
  }

  lemma NothingDealt(dir: Directory)
    ensures Dealt(dir, EMPTY_DIFF, map[])
  {
  }

  lemma OwnedSnoc(dir: Directory, kind: Kind, ids: seq<Id>, id: Id, a: Id)
    ensures Owned(dir, kind, ids + [id], a) == Owned(dir, kind, ids, a) + if Owner(dir, kind, id) == a then [id] else []
  {
    hide Owner;
    assert (ids + [id])[..|ids|] == ids;
    assert Owned(dir, kind, ids, a) + [] == Owned(dir, kind, ids, a);
  }

  lemma SubCreated(dir: Directory, kind: Kind, t: Touched, id: Id, a: Id)
    ensures SubTouched(dir, kind, AddCreated(t, id), a) ==
            if Owner(dir, kind, id) == a then AddCreated(SubTouched(dir, kind, t, a), id) else SubTouched(dir, kind, t, a)
  {
    hide Owner, Owned, OwnedTombs;
    OwnedSnoc(dir, kind, t.created, id, a);
  }

  lemma SubUpdated(dir: Directory, kind: Kind, t: Touched, id: Id, a: Id)
    ensures SubTouched(dir, kind, AddUpdated(t, id), a) ==
            if Owner(dir, kind, id) == a then AddUpdated(SubTouched(dir, kind, t, a), id) else SubTouched(dir, kind, t, a)
  {
    hide Owner, Owned, OwnedTombs;
    OwnedSnoc(dir, kind, t.updated, id, a);
  }

  lemma SubTomb(dir: Directory, kind: Kind, t: Touched, id: Id, side: Id, a: Id)
    requires |t.destroyed| == |t.sidecar|
    ensures SubTouched(dir, kind, AddTomb(t, id, side), a) ==
            if GoneOwner(dir, kind, side) == a then AddTomb(SubTouched(dir, kind, t, a), id, side)
            else SubTouched(dir, kind, t, a)
  {
    hide Owner, Owned, GoneOwner;
    var tombs, last := Tombs(t.destroyed, t.sidecar), Tomb(id, side);
    var all := Tombs(AddTomb(t, id, side).destroyed, AddTomb(t, id, side).sidecar);
    assert all == tombs + [last];
    assert all[..|tombs|] == tombs;
    var mine := OwnedTombs(dir, kind, tombs, a);
    assert TombIds(mine + [last]) == TombIds(mine) + [id];
    assert TombSides(mine + [last]) == TombSides(mine) + [side];
  }

  /** Replacing one kind's lists replaces that part of every share. */
  lemma SubPut(dir: Directory, d: Diff, kind: Kind, t: Touched, a: Id)
    ensures Sub(dir, Put(d, kind, t), a) == Put(Sub(dir, d, a), kind, SubTouched(dir, kind, t, a))
    ensures Pick(Sub(dir, d, a), kind) == SubTouched(dir, kind, Pick(d, kind), a)
  {
    hide SubTouched, Concerning;
  }

  lemma PutPick(d: Diff, kind: Kind)
    ensures Put(d, kind, Pick(d, kind)) == d
    ensures forall t :: Pick(Put(d, kind, t), kind) == t
    ensures forall t, u :: Put(Put(d, kind, t), kind, u) == Put(d, kind, u)
  {
  }

  lemma PutNonEmpty(d: Diff, kind: Kind, t: Touched)
    requires !NothingTouched(t)
    ensures !IsEmpty(Put(d, kind, t))
  {
  }

  /** One account's entry grows by `t`, the others stay. */
  ghost predicate Grown(dir: Directory, d: Diff, kind: Kind, t: Touched, owner: Id) {
    && !NothingTouched(SubTouched(dir, kind, t, owner))
    && forall a :: a != owner ==> SubTouched(dir, kind, t, a) == SubTouched(dir, kind, Pick(d, kind), a)
  }

  lemma DealtPut(dir: Directory, d: Diff, out: Partial, kind: Kind, t: Touched, owner: Id)
    requires Dealt(dir, d, out) && Grown(dir, d, kind, t, owner)
    ensures Dealt(dir, Put(d, kind, t), out[owner := Put(At(out, owner), kind, SubTouched(dir, kind, t, owner))])
  {
    hide Sub, SubTouched, IsEmpty, Put, Pick, NothingTouched;
    var entry := Put(At(out, owner), kind, SubTouched(dir, kind, t, owner));
    PutNonEmpty(At(out, owner), kind, SubTouched(dir, kind, t, owner));
    var grown := out[owner := entry];
    forall a
      ensures At(grown, a) == Sub(dir, Put(d, kind, t), a)
    {
      SubPut(dir, d, kind, t, a);
      PutPick(Sub(dir, d, a), kind);
    }
  }

  function PostCreated(dir: Directory, out: Partial, kind: Kind, id: Id): Partial {
    var a := Owner(dir, kind, id);
    out[a := Put(At(out, a), kind, AddCreated(Pick(At(out, a), kind), id))]
  }

  function PostUpdated(dir: Directory, out: Partial, kind: Kind, id: Id): Partial {
    var a := Owner(dir, kind, id);
    out[a := Put(At(out, a), kind, AddUpdated(Pick(At(out, a), kind), id))]
  }

  function PostTomb(dir: Directory, out: Partial, kind: Kind, id: Id, side: Id): Partial {
    var a := GoneOwner(dir, kind, side);
    out[a := Put(At(out, a), kind, AddTomb(Pick(At(out, a), kind), id, side))]
  }

  lemma CreatedDealt(dir: Directory, d: Diff, out: Partial, kind: Kind, id: Id)
    requires Dealt(dir, d, out)
    ensures Dealt(dir, Put(d, kind, AddCreated(Pick(d, kind), id)), PostCreated(dir, out, kind, id))
  {
    hide Sub, SubTouched, IsEmpty, Put, Pick, Owner;
    var t, owner := Pick(d, kind), Owner(dir, kind, id);
    forall a {
      SubCreated(dir, kind, t, id, a);
    }
    SubPut(dir, d, kind, t, owner);
    DealtPut(dir, d, out, kind, AddCreated(t, id), owner);
  }

  lemma UpdatedDealt(dir: Directory, d: Diff, out: Partial, kind: Kind, id: Id)
    requires Dealt(dir, d, out)
    ensures Dealt(dir, Put(d, kind, AddUpdated(Pick(d, kind), id)), PostUpdated(dir, out, kind, id))
  {
    hide Sub, SubTouched, IsEmpty, Put, Pick, Owner;
    var t, owner := Pick(d, kind), Owner(dir, kind, id);
    forall a {
      SubUpdated(dir, kind, t, id, a);
    }
    SubPut(dir, d, kind, t, owner);
    DealtPut(dir, d, out, kind, AddUpdated(t, id), owner);
  }

  lemma TombDealt(dir: Directory, d: Diff, out: Partial, kind: Kind, id: Id, side: Id)
    requires Dealt(dir, d, out) && |Pick(d, kind).destroyed| == |Pick(d, kind).sidecar|
    ensures Dealt(dir, Put(d, kind, AddTomb(Pick(d, kind), id, side)), PostTomb(dir, out, kind, id, side))
  {
    hide Sub, SubTouched, IsEmpty, Put, Pick, GoneOwner;
    var t, owner := Pick(d, kind), GoneOwner(dir, kind, side);
    forall a {
      SubTomb(dir, kind, t, id, side, a);
    }
    SubPut(dir, d, kind, t, owner);
    DealtPut(dir, d, out, kind, AddTomb(t, id, side), owner);
  }

  // ----- Sharing -----

  function Grant(d: Diff, granted: bool, ref: AclRef): Diff {
    if granted then d.(granted := d.granted + [ref]) else d.(revoked := d.revoked + [ref])
  }

  function PostRef(out: Partial, a: Id, granted: bool, ref: AclRef): Partial {
    out[a := Grant(At(out, a), granted, ref)]
  }

  function PostBoth(out: Partial, granted: bool, ref: AclRef): Partial {
    PostRef(PostRef(out, ref.owner, granted, ref), ref.identifier, granted, ref)
  }

  lemma ConcerningSnoc(refs: seq<AclRef>, ref: AclRef, a: Id)
    ensures Concerning(refs + [ref], a) ==
            Concerning(refs, a) + (if ref.owner == a then [ref] else []) + (if ref.identifier == a then [ref] else [])
  {
    assert (refs + [ref])[..|refs|] == refs;
  }

  lemma SubGrant(dir: Directory, d: Diff, granted: bool, ref: AclRef, a: Id)
    ensures Sub(dir, Grant(d, granted, ref), a) ==
            var once := if ref.owner == a then Grant(Sub(dir, d, a), granted, ref) else Sub(dir, d, a);
            if ref.identifier == a then Grant(once, granted, ref) else once
  {
    hide SubTouched, Concerning;
    ConcerningSnoc(if granted then d.granted else d.revoked, ref, a);
    var c := Concerning(if granted then d.granted else d.revoked, a);
    assert c + [] == c && c + [ref] + [] == c + [ref];
  }

  lemma GrantNonEmpty(d: Diff, granted: bool, ref: AclRef)
    ensures !IsEmpty(Grant(d, granted, ref))
  {
  }

  lemma RefDealt(dir: Directory, d: Diff, out: Partial, granted: bool, ref: AclRef)
    requires Dealt(dir, d, out)
    ensures Dealt(dir, Grant(d, granted, ref), PostBoth(out, granted, ref))
  {
    hide Sub, IsEmpty, Grant;
    var once := PostRef(out, ref.owner, granted, ref);
    GrantNonEmpty(At(out, ref.owner), granted, ref);
    GrantNonEmpty(At(once, ref.identifier), granted, ref);
    forall a {
      SubGrant(dir, d, granted, ref, a);
    }
  }

  // ----- All of it -----

  /** Where the two destroyed vectors differ in length, pairing them stops at the shorter. */
  function Paired(t: Touched): Touched {
    var n := if |t.destroyed| < |t.sidecar| then |t.destroyed| else |t.sidecar|;
    t.(destroyed := t.destroyed[..n], sidecar := t.sidecar[..n])
  }

  function PairedAll(d: Diff): Diff {
    d.(email := Paired(d.email), mailbox := Paired(d.mailbox), contact := Paired(d.contact))
  }

  lemma SubOfPaired(dir: Directory, kind: Kind, t: Touched, a: Id)
    ensures SubTouched(dir, kind, Paired(t), a) == SubTouched(dir, kind, t, a)
  {
    assert Tombs(Paired(t).destroyed, Paired(t).sidecar) == Tombs(t.destroyed, t.sidecar);
  }

  /** When everything was dealt, the accumulator is the split: its accounts are the touched ones,
      and each entry is that account's share. */
  lemma DealtIsSplit(dir: Directory, d: Diff, out: Partial)
    requires Dealt(dir, PairedAll(d), out)
    ensures out.Keys == AccountsTouched(dir, d)
    ensures forall a :: a in out ==> out[a] == Sub(dir, d, a)
  {
    forall a
      ensures a in out <==> a in AccountsTouched(dir, d)
      ensures a in out ==> out[a] == Sub(dir, d, a)
    {
      hide SubTouched, IsEmpty, AccountsTouched;
      SubOfPaired(dir, EmailKind, d.email, a);
      SubOfPaired(dir, MailboxKind, d.mailbox, a);
      SubOfPaired(dir, ContactKind, d.contact, a);
      assert At(out, a) == Sub(dir, d, a);
      TouchedExactly(dir, d, a);
      EmptyIsEmpty();
    }
  }

  lemma EmptyIsEmpty()
    ensures IsEmpty(EMPTY_DIFF)
  {
  }

  method DealCreated(dir: Directory, kind: Kind, ids: seq<Id>, before: Partial, ghost d: Diff) returns (out: Partial)
    requires Dealt(dir, d, before) && Pick(d, kind).created == []
    ensures Dealt(dir, Put(d, kind, Pick(d, kind).(created := ids)), out)
  {
    hide Dealt, Put, Pick, Owner;
    out := before;
    ghost var t := Pick(d, kind);
    PutPick(d, kind);
    for i := 0 to |ids|
      invariant Dealt(dir, Put(d, kind, t.(created := ids[..i])), out)
    {
      ghost var sofar := Put(d, kind, t.(created := ids[..i]));
      PutPick(d, kind);
      CreatedDealt(dir, sofar, out, kind, ids[i]);
      assert ids[..i + 1] == ids[..i] + [ids[i]];
      var a := Owner(dir, kind, ids[i]);
      var sub := At(out, a);
      out := out[a := Put(sub, kind, Pick(sub, kind).(created := Pick(sub, kind).created + [ids[i]]))];
    }
    assert ids[..|ids|] == ids;
  }

  method DealUpdated(dir: Directory, kind: Kind, ids: seq<Id>, before: Partial, ghost d: Diff) returns (out: Partial)
    requires Dealt(dir, d, before) && Pick(d, kind).updated == []
    ensures Dealt(dir, Put(d, kind, Pick(d, kind).(updated := ids)), out)
  {
    hide Dealt, Put, Pick, Owner;
    out := before;
    ghost var t := Pick(d, kind);
    PutPick(d, kind);
    for i := 0 to |ids|
      invariant Dealt(dir, Put(d, kind, t.(updated := ids[..i])), out)
    {
      ghost var sofar := Put(d, kind, t.(updated := ids[..i]));
      PutPick(d, kind);
      UpdatedDealt(dir, sofar, out, kind, ids[i]);
      assert ids[..i + 1] == ids[..i] + [ids[i]];
      var a := Owner(dir, kind, ids[i]);
      var sub := At(out, a);
      out := out[a := Put(sub, kind, Pick(sub, kind).(updated := Pick(sub, kind).updated + [ids[i]]))];
    }
    assert ids[..|ids|] == ids;
  }

  method DealDestroyed(dir: Directory, kind: Kind, ids: seq<Id>, sides: seq<Id>, before: Partial, ghost d: Diff)
      returns (out: Partial)
    requires Dealt(dir, d, before) && Pick(d, kind).destroyed == [] && Pick(d, kind).sidecar == []
    ensures var n := if |ids| < |sides| then |ids| else |sides|;
            Dealt(dir, Put(d, kind, Pick(d, kind).(destroyed := ids[..n], sidecar := sides[..n])), out)
  {
    hide Dealt, Put, Pick, GoneOwner;
    out := before;
    ghost var t := Pick(d, kind);
    PutPick(d, kind);
    var n := if |ids| < |sides| then |ids| else |sides|;
    for i := 0 to n
      invariant Dealt(dir, Put(d, kind, t.(destroyed := ids[..i], sidecar := sides[..i])), out)
    {
      ghost var sofar := Put(d, kind, t.(destroyed := ids[..i], sidecar := sides[..i]));
      PutPick(d, kind);
      TombDealt(dir, sofar, out, kind, ids[i], sides[i]);
      assert ids[..i + 1] == ids[..i] + [ids[i]] && sides[..i + 1] == sides[..i] + [sides[i]];
      var a := GoneOwner(dir, kind, sides[i]);
      var sub := At(out, a);
      out := out[a := Put(sub, kind, AddTomb(Pick(sub, kind), ids[i], sides[i]))];
    }
  }

  method DealRefs(dir: Directory, granted: bool, refs: seq<AclRef>, before: Partial, ghost d: Diff) returns (out: Partial)
    requires Dealt(dir, d, before) && (if granted then d.granted else d.revoked) == []
    ensures Dealt(dir, if granted then d.(granted := refs) else d.(revoked := refs), out)
  {
    hide Dealt;
    out := before;
    for i := 0 to |refs|
      invariant Dealt(dir, if granted then d.(granted := refs[..i]) else d.(revoked := refs[..i]), out)
    {
      RefDealt(dir, if granted then d.(granted := refs[..i]) else d.(revoked := refs[..i]), out, granted, refs[i]);
      assert refs[..i + 1] == refs[..i] + [refs[i]];
      out := PostRef(out, refs[i].owner, granted, refs[i]);
      out := PostRef(out, refs[i].identifier, granted, refs[i]);
    }
    assert refs[..|refs|] == refs;
  }

  /** The three lists of one kind. */
  method DealKind(dir: Directory, kind: Kind, t: Touched, before: Partial, ghost d: Diff) returns (out: Partial)
    requires Dealt(dir, d, before) && Pick(d, kind) == UNTOUCHED
    ensures Dealt(dir, Put(d, kind, Paired(t)), out)
  {
    hide Dealt, Put, Pick;
    PutPick(d, kind);
    out := DealCreated(dir, kind, t.created, before, d);
    ghost var d1 := Put(d, kind, UNTOUCHED.(created := t.created));
    out := DealUpdated(dir, kind, t.updated, out, d1);
    ghost var d2 := Put(d, kind, UNTOUCHED.(created := t.created, updated := t.updated));
    out := DealDestroyed(dir, kind, t.destroyed, t.sidecar, out, d2);
  }

  /** `split_diff_by_account`: one entry for each account touched, holding exactly its share. */
  method SplitDiff(dir: Directory, d: Diff) returns (out: Partial)
    ensures out.Keys == AccountsTouched(dir, d)
    ensures forall a :: a in out ==> out[a] == Sub(dir, d, a)
  {
    hide Dealt, Sub, AccountsTouched, Paired;
    NothingDealt(dir);
    out := DealKind(dir, EmailKind, d.email, map[], EMPTY_DIFF);
    ghost var d1 := EMPTY_DIFF.(email := Paired(d.email));
    out := DealKind(dir, MailboxKind, d.mailbox, out, d1);
    ghost var d2 := d1.(mailbox := Paired(d.mailbox));
    out := DealKind(dir, ContactKind, d.contact, out, d2);
    ghost var d3 := d2.(contact := Paired(d.contact));
    out := DealRefs(dir, true, d.granted, out, d3);
    out := DealRefs(dir, false, d.revoked, out, d3.(granted := d.granted));
    DealtIsSplit(dir, d, out);
  }
}
