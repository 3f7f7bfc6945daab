/** `Email/set` patches (section 5.3 of RFC 8620, section 4.1.1 of RFC 8621): `keywords` and
    `mailboxIds` replaced whole, or one member added or removed by path. */
module Patches {
  import opened Basics
  import Sorting

  /** Just enough of a JSON value: `Other` stands for numbers and arrays. */
  datatype Json = Null | Bool(b: bool) | Str(s: string) | Obj(fields: seq<Field>) | Other

  datatype Field = Field(key: string, value: Json)

  /** The two set-valued properties of an email. */
  datatype Side = Keywords | Mailboxes

  datatype Path = Whole(side: Side) | Member(side: Side, name: string) | Unknown

  function Classify(key: string): Path {
    if key == "keywords" then Whole(Keywords)
    else if key == "mailboxIds" then Whole(Mailboxes)
    else if |key| >= 9 && key[..9] == "keywords/" then Member(Keywords, key[9..])
    else if |key| >= 11 && key[..11] == "mailboxIds/" then Member(Mailboxes, key[11..])
    else Unknown
  }

  function BoolSet(fields: seq<Field>): (r: seq<string>)
    ensures forall x :: x in r <==> Field(x, Bool(true)) in fields
  {
    if fields == [] then [] else
      var front, last := fields[..|fields| - 1], fields[|fields| - 1];
      assert fields == front + [last];
      if last.value == Bool(true) then BoolSet(front) + [last.key] else BoolSet(front)
  }

  function PatchSetMember(value: Json): Option<bool> {
    match value
    case Null => Some(false)
    case Bool(b) => Some(b)
    case _ => None
  }

  function Include(s: seq<string>, x: string): (r: seq<string>)
    ensures forall y :: y in r <==> y in s || y == x
  {
    if x in s then s else s + [x]
  }

  datatype Sets = Sets(keywords: seq<string>, mailboxIds: seq<Id>, touched: bool) {
    function Get(side: Side): seq<string> {
      if side == Keywords then keywords else mailboxIds
    }

    function Put(side: Side, s: seq<string>): Sets {
      if side == Keywords then this.(keywords := s) else this.(mailboxIds := s, touched := true)
    }
  }

  function ApplyField(p: Sets, f: Field): Option<Sets> {
    match Classify(f.key)
    case Whole(side) => if f.value.Obj? then Some(p.Put(side, BoolSet(f.value.fields))) else None
    case Member(side, name) => (
      match PatchSetMember(f.value)
      case Some(true) => Some(p.Put(side, Include(p.Get(side), name)))
      case Some(false) => Some(p.Put(side, Without(p.Get(side), {name})))
      case None => None)
    case Unknown => None
  }

  function FoldFields(p: Sets, fields: seq<Field>): Option<Sets> {
    if fields == [] then Some(p) else
      match FoldFields(p, fields[..|fields| - 1])
      case None => None
      case Some(q) => ApplyField(q, fields[|fields| - 1])
  }

  /** The verdict on a whole patch: the new sets, or `None` for `invalidProperties`. */
  function Patched(keywords: seq<string>, mailboxIds: seq<Id>, patch: Json): Option<Sets> {
    if !patch.Obj? then None else
      match FoldFields(Sets(keywords, mailboxIds, false), patch.fields)
      case None => None
      case Some(q) => if q.touched && q.mailboxIds == [] then None else Some(q)
  }

  /** The loop of `apply_email_patch`: it stops at the first field it cannot take, and looks at
      emptiness once, after the last. */
  method ApplyEmailPatch(keywords: seq<string>, mailboxIds: seq<Id>, patch: Json) returns (r: Option<Sets>)
    ensures r == Patched(keywords, mailboxIds, patch)
  {
    if !patch.Obj? {
      return None;
    }
    var fields := patch.fields;
    var kw, mb, touches := keywords, mailboxIds, false;
    ghost var start := Sets(keywords, mailboxIds, false);
    for i := 0 to |fields|
      invariant FoldFields(start, fields[..i]) == Some(Sets(kw, mb, touches))
    {
      var f := fields[i];
      assert fields[..i + 1][..i] == fields[..i];
      assert FoldFields(start, fields[..i + 1]) == ApplyField(Sets(kw, mb, touches), f);
      match Classify(f.key) {
        case Whole(side) =>
          if !f.value.Obj? {
            FoldStops(start, fields, i + 1);
            return None;
          }
          if side == Keywords {
            kw := BoolSet(f.value.fields);
          } else {
            touches := true;
            mb := BoolSet(f.value.fields);
          }
        case Member(side, name) =>
          var member := PatchSetMember(f.value);
          if member.None? {
            FoldStops(start, fields, i + 1);
            return None;
          }
          if side == Keywords {
            kw := if member.value then Include(kw, name) else Without(kw, {name});
          } else {
            touches := true;
            mb := if member.value then Include(mb, name) else Without(mb, {name});
          }
        case Unknown =>
          FoldStops(start, fields, i + 1);
          return None;
      }
    }
    assert fields[..|fields|] == fields;
    if touches && mb == [] {
      return None;
    }
    r := Some(Sets(kw, mb, touches));
  }

  lemma {:induction false} FoldStops(p: Sets, fields: seq<Field>, i: nat)
    requires i <= |fields| && FoldFields(p, fields[..i]) == None
    ensures FoldFields(p, fields) == None
  {
    if i == |fields| {
      assert fields[..i] == fields;
    } else {
      assert fields[..|fields| - 1][..i] == fields[..i];
      FoldStops(p, fields[..|fields| - 1], i);
    }
  }

  // ----- What a patch means, whatever order its fields come in -----

  ghost predicate DistinctKeys(fields: seq<Field>) {
    forall i, j :: 0 <= i < j < |fields| ==> fields[i].key != fields[j].key
  }

  /** Section 5.3 of RFC 8620: no path in a patch may be a prefix of another. */
  ghost predicate PrefixFree(fields: seq<Field>) {
    forall f, g :: f in fields && g in fields ==> !StrictPrefix(f.key, g.key)
  }

  predicate StrictPrefix(a: string, b: string) {
    |a| < |b| && b[..|a|] == a && b[|a|] == '/'
  }

  predicate Acceptable(f: Field) {
    match Classify(f.key)
    case Whole(_) => f.value.Obj?
    case Member(_, _) => PatchSetMember(f.value).Some?
    case Unknown => false
  }

  predicate Replaces(f: Field, side: Side) {
    Classify(f.key) == Whole(side)
  }

  predicate SetsMember(f: Field, side: Side, x: string, present: bool) {
    Classify(f.key) == Member(side, x) && PatchSetMember(f.value) == Some(present)
  }

  /** Whether `x` belongs to a property after the patch, in terms of which fields the patch has:
      it is in the replacement, or added by path, or was there and neither replaced nor removed. */
  ghost predicate Belongs(base: seq<string>, fields: seq<Field>, side: Side, x: string) {
    || (exists f :: f in fields && Replaces(f, side) && f.value.Obj? && Field(x, Bool(true)) in f.value.fields)
    || (exists f :: f in fields && SetsMember(f, side, x, true))
    || (x in base && (forall f :: f in fields ==> !Replaces(f, side) && !SetsMember(f, side, x, false)))
  }

  ghost predicate TouchesMailboxes(fields: seq<Field>) {
    exists f :: f in fields && Classify(f.key) != Unknown && Classify(f.key).side == Mailboxes
  }

  lemma PathKeys(a: string, b: string)
    ensures Classify(a) == Classify(b) && Classify(a) != Unknown ==> a == b
    ensures Classify(a).Whole? && Classify(b).Member? && Classify(a).side == Classify(b).side ==> StrictPrefix(a, b)
  {
    if |a| >= 9 && |b| >= 9 && a[..9] == b[..9] && a[9..] == b[9..] {
      assert a == a[..9] + a[9..] && b == b[..9] + b[9..];
    }
    if |a| >= 11 && |b| >= 11 && a[..11] == b[..11] && a[11..] == b[11..] {
      assert a == a[..11] + a[11..] && b == b[..11] + b[11..];
    }
  }

  /** The property's name in a patch. */
  function Property(side: Side): string {
    if side == Keywords then "keywords" else "mailboxIds"
  }

  /** What the paths and values of a patch stand for: a property's own name replaces it whole, and takes
      an object; the name, a slash and anything (nothing included) is one member, added by true, removed
      by false or null; no other path and no other value is taken. */
  lemma FieldMeaning(f: Field, side: Side, x: string)
    ensures Replaces(f, side) <==> f.key == Property(side)
    ensures Classify(f.key) == Member(side, x) <==> f.key == Property(side) + "/" + x
    ensures SetsMember(f, side, x, true) <==> f == Field(Property(side) + "/" + x, Bool(true))
    ensures SetsMember(f, side, x, false) <==>
              f == Field(Property(side) + "/" + x, Bool(false)) || f == Field(Property(side) + "/" + x, Null)
  {
    assert "keywords" + "/" == "keywords/" && "mailboxIds" + "/" == "mailboxIds/";
    var head := Property(side) + "/";
    assert (head + x)[..|head|] == head && (head + x)[|head|..] == x;
    assert "keywords/"[0] != "mailboxIds/"[0];
    if |f.key| >= |head| && f.key[..|head|] == head {
      assert f.key == head + f.key[|head|..];
    }
  }

  lemma AcceptableMeaning(f: Field)
    ensures Acceptable(f) <==>
              || ((f.key == "keywords" || f.key == "mailboxIds") && f.value.Obj?)
              || ((exists side, x :: f.key == Property(side) + "/" + x) && (f.value == Null || f.value.Bool?))
  {
    hide Property;
    if side, x :| f.key == Property(side) + "/" + x {
      FieldMeaning(f, side, x);
    }
    if Classify(f.key).Member? {
      FieldMeaning(f, Classify(f.key).side, Classify(f.key).name);
    }
  }

  /** Membership is touched by the property's own name and by the paths under it. */
  lemma TouchesMeaning(fields: seq<Field>)
    ensures TouchesMailboxes(fields) <==>
              exists f :: f in fields && (f.key == "mailboxIds" || exists x :: f.key == "mailboxIds" + "/" + x)
  {
    hide Classify;
    forall f | f in fields
      ensures Classify(f.key) != Unknown && Classify(f.key).side == Mailboxes
              <==> f.key == "mailboxIds" || exists x :: f.key == "mailboxIds" + "/" + x
    {
      FieldMeaning(f, Mailboxes, "");
      if x :| f.key == "mailboxIds" + "/" + x {
        FieldMeaning(f, Mailboxes, x);
      }
      if Classify(f.key).Member? {
        FieldMeaning(f, Mailboxes, Classify(f.key).name);
      }
    }
  }

  /** The members asked for come in the order of the object. */
  lemma {:induction false} BoolSetInOrder(front: seq<Field>, more: seq<Field>)
    ensures BoolSet(front + more) == BoolSet(front) + BoolSet(more)
  {
    if more == [] {
      assert front + more == front;
    } else {
      var rest, last := more[..|more| - 1], more[|more| - 1];
      assert (front + more)[..|front + more| - 1] == front + rest;
      BoolSetInOrder(front, rest);
    }
  }

  /** In a patch that RFC 8620 allows, the last field settles its own path and nothing else. */
  lemma LastFieldDecides(base: seq<string>, front: seq<Field>, last: Field, side: Side, x: string)
    requires DistinctKeys(front + [last]) && PrefixFree(front + [last]) && Acceptable(last)
    ensures var before, after := Belongs(base, front, side, x), Belongs(base, front + [last], side, x);
            match Classify(last.key)
            case Whole(s) => after <==> if s == side then Field(x, Bool(true)) in last.value.fields else before
            case Member(s, n) => after <==> if s == side && n == x then PatchSetMember(last.value) == Some(true) else before
            case Unknown => true
  {
    hide Classify, StrictPrefix;
    var all := front + [last];
    assert last in all && forall f :: f in all <==> f in front || f == last;
    forall f | f in front
      ensures Classify(f.key) != Unknown ==> Classify(f.key) != Classify(last.key)
      ensures Classify(f.key).Whole? && Classify(last.key).Member? ==> Classify(f.key).side != Classify(last.key).side
      ensures Classify(f.key).Member? && Classify(last.key).Whole? ==> Classify(f.key).side != Classify(last.key).side
    {
      assert f in all;
      var i :| 0 <= i < |front| && front[i] == f;
      assert all[i].key != all[|front|].key;
      PathKeys(f.key, last.key);
      PathKeys(last.key, f.key);
    }
  }

  /** What one field does to the two sets. */
  lemma ApplyFieldMembers(p: Sets, f: Field, side: Side, x: string)
    ensures ApplyField(p, f).Some? <==> Acceptable(f)
    ensures Acceptable(f) ==>
              var after := x in ApplyField(p, f).value.Get(side);
              match Classify(f.key)
              case Whole(s) => after <==> if s == side then Field(x, Bool(true)) in f.value.fields else x in p.Get(side)
              case Member(s, n) => after <==> if s == side && n == x then PatchSetMember(f.value) == Some(true) else x in p.Get(side)
              case Unknown => true
    ensures Acceptable(f) ==> (ApplyField(p, f).value.touched <==> p.touched || Classify(f.key).side == Mailboxes)
  {
    hide Classify;
  }

  lemma {:induction false} FoldMeaning(p: Sets, fields: seq<Field>)
    requires DistinctKeys(fields) && PrefixFree(fields)
    ensures FoldFields(p, fields).Some? <==> forall f :: f in fields ==> Acceptable(f)
    ensures FoldFields(p, fields).Some? ==>
              && (forall side, x :: x in FoldFields(p, fields).value.Get(side) <==> Belongs(p.Get(side), fields, side, x))
              && (FoldFields(p, fields).value.touched <==> p.touched || TouchesMailboxes(fields))
  {
    hide Classify, ApplyField, Belongs, StrictPrefix, Acceptable;
    if fields == [] {
      NoFields(p);
    } else {
      var front, last := fields[..|fields| - 1], fields[|fields| - 1];
      assert fields == front + [last];
      assert forall f :: f in fields <==> f in front || f == last;
      FoldMeaning(p, front);
      FoldStep(p, front, last);
    }
  }

  lemma NoFields(p: Sets)
    ensures forall side, x :: x in p.Get(side) <==> Belongs(p.Get(side), [], side, x)
  {
  }

  lemma FoldStep(p: Sets, front: seq<Field>, last: Field)
    requires DistinctKeys(front + [last]) && PrefixFree(front + [last])
    requires FoldFields(p, front).Some? ==>
               && (forall side, x :: x in FoldFields(p, front).value.Get(side) <==> Belongs(p.Get(side), front, side, x))
               && (FoldFields(p, front).value.touched <==> p.touched || TouchesMailboxes(front))
    ensures FoldFields(p, front + [last]).Some? <==> FoldFields(p, front).Some? && Acceptable(last)
    ensures FoldFields(p, front + [last]).Some? ==>
              && (forall side, x :: x in FoldFields(p, front + [last]).value.Get(side) <==> Belongs(p.Get(side), front + [last], side, x))
              && (FoldFields(p, front + [last]).value.touched <==> p.touched || TouchesMailboxes(front + [last]))
  {
    hide Classify, ApplyField, Belongs, StrictPrefix;
    var all := front + [last];
    assert all[..|front|] == front && forall f :: f in all <==> f in front || f == last;
    if FoldFields(p, front).Some? {
      var q := FoldFields(p, front).value;
      assert FoldFields(p, all) == ApplyField(q, last);
      ApplyFieldMembers(q, last, Keywords, "");
      if Acceptable(last) {
        forall side, x
          ensures x in ApplyField(q, last).value.Get(side) <==> Belongs(p.Get(side), all, side, x)
        {
          ApplyFieldMembers(q, last, side, x);
          LastFieldDecides(p.Get(side), front, last, side, x);
        }
      }
    }
  }

  /** The patch law: a patch with distinct, prefix-free paths is refused exactly when one of its
      fields is unacceptable or it would leave the email in no mailbox; otherwise each property ends
      with exactly the members that belong to it. Nothing here mentions the order of the fields. */
  lemma PatchMeaning(keywords: seq<string>, mailboxIds: seq<Id>, fields: seq<Field>)
    requires DistinctKeys(fields) && PrefixFree(fields)
    ensures Patched(keywords, mailboxIds, Obj(fields)).None? <==>
              || (exists f :: f in fields && !Acceptable(f))
              || (TouchesMailboxes(fields) && forall x :: !Belongs(mailboxIds, fields, Mailboxes, x))
    ensures Patched(keywords, mailboxIds, Obj(fields)).Some? ==>
              var q := Patched(keywords, mailboxIds, Obj(fields)).value;
              && (forall x :: x in q.keywords <==> Belongs(keywords, fields, Keywords, x))
              && (forall x :: x in q.mailboxIds <==> Belongs(mailboxIds, fields, Mailboxes, x))
  {
    hide FoldFields, Belongs, Acceptable, TouchesMailboxes, StrictPrefix;
    var start := Sets(keywords, mailboxIds, false);
    FoldMeaning(start, fields);
    if FoldFields(start, fields).Some? {
      var q := FoldFields(start, fields).value;
      assert q.Get(Mailboxes) == q.mailboxIds && start.Get(Mailboxes) == mailboxIds;
      assert q.Get(Keywords) == q.keywords && start.Get(Keywords) == keywords;
      assert forall x :: x in q.mailboxIds <==> Belongs(mailboxIds, fields, Mailboxes, x);
      assert q.mailboxIds == [] || q.mailboxIds[0] in q.mailboxIds;
    }
  }

  /** Every iteration order of the patch object gives the same verdict and the same two sets. */
  lemma PatchOrderIndependent(keywords: seq<string>, mailboxIds: seq<Id>, a: seq<Field>, b: seq<Field>)
    requires DistinctKeys(a) && DistinctKeys(b) && PrefixFree(a)
    requires forall f :: f in a <==> f in b
    ensures var ra, rb := Patched(keywords, mailboxIds, Obj(a)), Patched(keywords, mailboxIds, Obj(b));
            && (ra.None? <==> rb.None?)
            && (ra.Some? ==> Elems(ra.value.keywords) == Elems(rb.value.keywords))
            && (ra.Some? ==> Elems(ra.value.mailboxIds) == Elems(rb.value.mailboxIds))
  {
    hide Patched, Acceptable, StrictPrefix;
    PatchMeaning(keywords, mailboxIds, a);
    PatchMeaning(keywords, mailboxIds, b);
    forall side, base, x
      ensures Belongs(base, a, side, x) <==> Belongs(base, b, side, x)
    {
      hide Classify, PatchSetMember;
    }
  }

  // ----- Any patch, in the order the code meets its fields -----

  /** The locked `serde_json` keeps objects in a map ordered by key (code point order, which is the byte
      order of UTF-8), so a patch is always met like this, whatever its text. */
  ghost predicate KeySorted(fields: seq<Field>) {
    forall i, j :: 0 <= i < j < |fields| ==> Before(fields[i].key, fields[j].key)
  }

  predicate Before(a: string, b: string) {
    Sorting.LexLe(a, b) && a != b
  }

  ghost predicate Decides(fields: seq<Field>, path: Path) {
    exists f :: f in fields && Classify(f.key) == path
  }

  /** Membership when paths may be prefixes of one another: a member path settles its own member, else
      a replacement settles it, else it stays as it was. */
  ghost predicate BelongsSorted(base: seq<string>, fields: seq<Field>, side: Side, x: string) {
    if Decides(fields, Member(side, x)) then exists f :: f in fields && SetsMember(f, side, x, true)
    else if Decides(fields, Whole(side)) then
      exists f :: f in fields && Replaces(f, side) && f.value.Obj? && Field(x, Bool(true)) in f.value.fields
    else x in base
  }

  lemma {:induction false} PrefixBefore(a: string, b: string)
    requires StrictPrefix(a, b)
    ensures Sorting.LexLe(a, b)
  {
    if a != "" {
      assert b[..|a|][0] == a[0];
      assert b[1..][..|a| - 1] == b[..|a|][1..] == a[1..];
      assert b[1..][|a| - 1] == b[|a|];
      PrefixBefore(a[1..], b[1..]);
    }
  }

  /** In key order a replacement comes before every member path of its property. */
  lemma ReplacementFirst(front: seq<Field>, last: Field, f: Field)
    requires KeySorted(front + [last]) && f in front
    ensures Classify(f.key) != Unknown ==> Classify(f.key) != Classify(last.key)
    ensures !(Classify(f.key).Member? && Classify(last.key).Whole? && Classify(f.key).side == Classify(last.key).side)
  {
    hide Classify, StrictPrefix;
    var all := front + [last];
    var i :| 0 <= i < |front| && front[i] == f;
    assert Before(all[i].key, all[|front|].key);
    PathKeys(f.key, last.key);
    PathKeys(last.key, f.key);
    if StrictPrefix(last.key, f.key) {
      PrefixBefore(last.key, f.key);
      Sorting.LexTotal(last.key, f.key);
    }
  }

  lemma LastSortedDecides(base: seq<string>, front: seq<Field>, last: Field, side: Side, x: string)
    requires KeySorted(front + [last]) && Acceptable(last)
    ensures var before, after := BelongsSorted(base, front, side, x), BelongsSorted(base, front + [last], side, x);
            match Classify(last.key)
            case Whole(s) => after <==> if s == side then Field(x, Bool(true)) in last.value.fields else before
            case Member(s, n) => after <==> if s == side && n == x then PatchSetMember(last.value) == Some(true) else before
            case Unknown => true
  {
    hide Classify, KeySorted;
    var all := front + [last];
    assert last in all && forall f :: f in all <==> f in front || f == last;
    forall f | f in front {
      ReplacementFirst(front, last, f);
    }
    forall path
      ensures Decides(all, path) <==> Decides(front, path) || Classify(last.key) == path
    {
    }
  }

  lemma {:induction false} FoldSorted(p: Sets, fields: seq<Field>)
    requires KeySorted(fields)
    ensures FoldFields(p, fields).Some? <==> forall f :: f in fields ==> Acceptable(f)
    ensures FoldFields(p, fields).Some? ==>
              && (forall side, x :: x in FoldFields(p, fields).value.Get(side) <==> BelongsSorted(p.Get(side), fields, side, x))
              && (FoldFields(p, fields).value.touched <==> p.touched || TouchesMailboxes(fields))
  {
    hide Classify, ApplyField, BelongsSorted, Before;
    if fields == [] {
      NoFieldsSorted(p);
    } else {
      var front, last := fields[..|fields| - 1], fields[|fields| - 1];
      assert fields == front + [last];
      assert forall f :: f in fields <==> f in front || f == last;
      FoldSorted(p, front);
      if FoldFields(p, front).Some? {
        var q := FoldFields(p, front).value;
        assert FoldFields(p, fields) == ApplyField(q, last);
        ApplyFieldMembers(q, last, Keywords, "");
        if Acceptable(last) {
          forall side, x
            ensures x in ApplyField(q, last).value.Get(side) <==> BelongsSorted(p.Get(side), fields, side, x)
          {
            ApplyFieldMembers(q, last, side, x);
            LastSortedDecides(p.Get(side), front, last, side, x);
          }
        }
      }
    }
  }

  lemma NoFieldsSorted(p: Sets)
    ensures forall side, x :: x in p.Get(side) <==> BelongsSorted(p.Get(side), [], side, x)
  {
  }

  /** The law for every patch the code can meet, prefix rule kept or not: refused exactly when a field
      is unacceptable or no mailbox would be left; otherwise replacements come first and member paths
      have the last word. */
  lemma SortedPatchMeaning(keywords: seq<string>, mailboxIds: seq<Id>, fields: seq<Field>)
    requires KeySorted(fields)
    ensures Patched(keywords, mailboxIds, Obj(fields)).None? <==>
              || (exists f :: f in fields && !Acceptable(f))
              || (TouchesMailboxes(fields) && forall x :: !BelongsSorted(mailboxIds, fields, Mailboxes, x))
    ensures Patched(keywords, mailboxIds, Obj(fields)).Some? ==>
              var q := Patched(keywords, mailboxIds, Obj(fields)).value;
              && (forall x :: x in q.keywords <==> BelongsSorted(keywords, fields, Keywords, x))
              && (forall x :: x in q.mailboxIds <==> BelongsSorted(mailboxIds, fields, Mailboxes, x))
  {
    hide FoldFields, BelongsSorted, Acceptable, TouchesMailboxes, KeySorted;
    var start := Sets(keywords, mailboxIds, false);
    FoldSorted(start, fields);
    if FoldFields(start, fields).Some? {
      var q := FoldFields(start, fields).value;
      assert q.Get(Mailboxes) == q.mailboxIds && start.Get(Mailboxes) == mailboxIds;
      assert q.Get(Keywords) == q.keywords && start.Get(Keywords) == keywords;
      assert forall x :: x in q.mailboxIds <==> BelongsSorted(mailboxIds, fields, Mailboxes, x);
      assert q.mailboxIds == [] || q.mailboxIds[0] in q.mailboxIds;
    }
  }

  /** For such patches the key order is what settles it: met in the other order, a replacement would
      lose what a member path had added. Key order never yields the second list. */
  lemma PrefixRuleNeeded()
    ensures var whole, member := Field("keywords", Obj([])), Field("keywords/a", Bool(true));
            && Patched([], ["m"], Obj([whole, member])) == Some(Sets(["a"], ["m"], false))
            && Patched([], ["m"], Obj([member, whole])) == Some(Sets([], ["m"], false))
            && !KeySorted([member, whole])
  {
    hide FoldFields, KeySorted, Classify, BoolSet, Include;
    var whole, member := Field("keywords", Obj([])), Field("keywords/a", Bool(true));
    var start := Sets([], ["m"], false);
    KeywordsA();
    TwoFields(start, whole, member);
    TwoFields(start, member, whole);
    MemberFirst(whole, member);
  }

  lemma KeywordsA()
    ensures Classify("keywords/a") == Member(Keywords, "a") && Classify("keywords") == Whole(Keywords)
    ensures BoolSet([]) == [] && Include([], "a") == ["a"]
  {
    assert "keywords/a"[..9] == "keywords/" && "keywords/a"[9..] == "a";
  }

  lemma TwoFields(p: Sets, f: Field, g: Field)
    ensures FoldFields(p, [f, g]) == match ApplyField(p, f) case None => None case Some(q) => ApplyField(q, g)
  {
    hide ApplyField;
    assert [f, g][..1] == [f] && [f][..0] == [];
    assert FoldFields(p, [f]) == ApplyField(p, f);
  }

  lemma MemberFirst(whole: Field, member: Field)
    requires whole.key == "keywords" && member.key == "keywords/a"
    ensures !KeySorted([member, whole])
  {
    assert StrictPrefix("keywords", "keywords/a");
    PrefixBefore("keywords", "keywords/a");
    Sorting.LexTotal("keywords", "keywords/a");
    assert !Before([member, whole][0].key, [member, whole][1].key);
  }

  // ----- The lists stay duplicate-free -----

  /** A parsed JSON object never repeats a key, at any depth. */
  ghost predicate WellFormed(v: Json) {
    v.Obj? ==> DistinctKeys(v.fields) && forall f :: f in v.fields ==> WellFormed(f.value)
  }

  lemma {:induction false} BoolSetDistinct(fields: seq<Field>)
    requires DistinctKeys(fields)
    ensures Distinct(BoolSet(fields))
  {
    if fields != [] {
      var front, last := fields[..|fields| - 1], fields[|fields| - 1];
      BoolSetDistinct(front);
      assert last.key !in BoolSet(front) by {
        assert forall f :: f in front ==> f.key != last.key;
      }
    }
  }

  lemma {:induction false} FoldKeepsDistinct(p: Sets, fields: seq<Field>)
    requires Distinct(p.mailboxIds) && WellFormed(Obj(fields))
    ensures FoldFields(p, fields).Some? ==> Distinct(FoldFields(p, fields).value.mailboxIds)
  {
    hide Classify;
    if fields != [] {
      var front, last := fields[..|fields| - 1], fields[|fields| - 1];
      assert forall f :: f in front ==> f in fields;
      FoldKeepsDistinct(p, front);
      if FoldFields(p, front).Some? {
        var q := FoldFields(p, front).value;
        assert last in fields;
        if last.value.Obj? {
          BoolSetDistinct(last.value.fields);
        }
        match Classify(last.key)
        case Member(_, name) => WithoutDistinct(q.mailboxIds, {name});
        case _ =>
      }
    }
  }

  /** What every caller relies on: an accepted patch never empties a membership. */
  lemma PatchedMailboxes(keywords: seq<string>, mailboxIds: seq<Id>, patch: Json)
    requires mailboxIds != [] && Patched(keywords, mailboxIds, patch).Some?
    ensures Patched(keywords, mailboxIds, patch).value.mailboxIds != []
  {
    UntouchedKept(Sets(keywords, mailboxIds, false), patch.fields);
  }

  /** And it repeats no mailbox. */
  lemma PatchedDistinct(keywords: seq<string>, mailboxIds: seq<Id>, patch: Json)
    requires Distinct(mailboxIds) && WellFormed(patch) && Patched(keywords, mailboxIds, patch).Some?
    ensures Distinct(Patched(keywords, mailboxIds, patch).value.mailboxIds)
  {
    FoldKeepsDistinct(Sets(keywords, mailboxIds, false), patch.fields);
  }

  lemma {:induction false} UntouchedKept(p: Sets, fields: seq<Field>)
    ensures FoldFields(p, fields).Some? && !FoldFields(p, fields).value.touched ==>
              FoldFields(p, fields).value.mailboxIds == p.mailboxIds
    ensures FoldFields(p, fields).Some? && p.touched ==> FoldFields(p, fields).value.touched
  {
    hide Classify;
    if fields != [] {
      UntouchedKept(p, fields[..|fields| - 1]);
    }
  }
}
