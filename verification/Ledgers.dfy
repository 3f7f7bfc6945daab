/** The IMAP UID ledger: per mailbox an append-only list of slots, slot index + 1 being the UID
    (section 2.3.1.1 of RFC 3501). A slot holds an email id until it retires to `None`. */
module Ledgers {
  import opened Basics

  type Slots = seq<Option<Id>>
  type Ledger = map<Id, Slots>

  function SlotsOf(l: Ledger, m: Id): Slots {
    if m in l then l[m] else []
  }

  function UidNext(l: Ledger, m: Id): nat {
    |SlotsOf(l, m)| + 1
  }

  function Assign(l: Ledger, m: Id, id: Id): Ledger {
    l[m := SlotsOf(l, m) + [Some(id)]]
  }

  /** Index of the first slot holding `id`, or the length when none does. */
  function FirstSlot(slots: Slots, id: Id): (i: nat)
    ensures i <= |slots| && Some(id) !in slots[..i]
    ensures i < |slots| ==> slots[i] == Some(id)
    ensures i == |slots| ==> Some(id) !in slots
  {
    if slots == [] || slots[0] == Some(id) then 0 else
      assert slots == [slots[0]] + slots[1..];
      1 + FirstSlot(slots[1..], id)
  }

  function RetireSlot(slots: Slots, id: Id): (r: Slots)
    ensures |r| == |slots|
  {
    var i := FirstSlot(slots, id);
    if i < |slots| then slots[i := None] else slots
  }

  function Retire(l: Ledger, m: Id, id: Id): Ledger {
    if m in l then l[m := RetireSlot(l[m], id)] else l
  }

  function AssignAll(l: Ledger, ms: seq<Id>, id: Id): Ledger {
    if ms == [] then l else Assign(AssignAll(l, ms[..|ms| - 1], id), ms[|ms| - 1], id)
  }

  function RetireAll(l: Ledger, ms: seq<Id>, id: Id): Ledger {
    if ms == [] then l else Retire(RetireAll(l, ms[..|ms| - 1], id), ms[|ms| - 1], id)
  }

  /** After an in-place edit of a membership list: retire what was left, then assign what was joined. */
  function Sync(l: Ledger, id: Id, before: seq<Id>, after: seq<Id>): Ledger {
    AssignAll(RetireAll(l, Without(before, Elems(after)), id), Without(after, Elems(before)), id)
  }

  // ----- How many live slots of a mailbox hold an email -----

  function Count(l: Ledger, m: Id, id: Id): nat {
    multiset(SlotsOf(l, m))[Some(id)]
  }

  lemma CountAssign(l: Ledger, m: Id, id: Id, m': Id, id': Id)
    ensures Count(Assign(l, m, id), m', id') == Count(l, m', id') + if m' == m && id' == id then 1 else 0
  {
  }

  lemma CountRetire(l: Ledger, m: Id, id: Id, m': Id, id': Id)
    ensures Count(Retire(l, m, id), m', id') ==
            Count(l, m', id') - if m' == m && id' == id && Count(l, m, id) > 0 then 1 else 0
  {
    var slots := SlotsOf(l, m);
    var i := FirstSlot(slots, id);
    if i < |slots| {
      assert slots[i] in multiset(slots);
      assert multiset(slots[i := None]) == multiset(slots) - multiset{Some(id)} + multiset{None};
    } else {
      assert Some(id) !in multiset(slots);
    }
  }

  lemma {:induction false} CountAssignAll(l: Ledger, ms: seq<Id>, id: Id, m': Id, id': Id)
    requires Distinct(ms)
    ensures Count(AssignAll(l, ms, id), m', id') == Count(l, m', id') + if m' in ms && id' == id then 1 else 0
  {
    hide Count, Assign;
    if ms != [] {
      var front, last := ms[..|ms| - 1], ms[|ms| - 1];
      CountAssignAll(l, front, id, m', id');
      CountAssign(AssignAll(l, front, id), last, id, m', id');
      assert ms == front + [last] && last !in front;
    }
  }

  lemma {:induction false} CountRetireAll(l: Ledger, ms: seq<Id>, id: Id, m': Id, id': Id)
    requires Distinct(ms)
    ensures Count(RetireAll(l, ms, id), m', id') ==
            Count(l, m', id') - if m' in ms && id' == id && Count(l, m', id) > 0 then 1 else 0
  {
    hide Count, Retire;
    if ms != [] {
      var front, last := ms[..|ms| - 1], ms[|ms| - 1];
      CountRetireAll(l, front, id, m', id');
      CountRetireAll(l, front, id, last, id);
      CountRetire(RetireAll(l, front, id), last, id, m', id');
      assert ms == front + [last] && last !in front;
    }
  }

  /** `sync_mailbox_uids` moves an email's single slots from the mailboxes it left to those it joined. */
  lemma CountSync(l: Ledger, id: Id, before: seq<Id>, after: seq<Id>, m': Id, id': Id)
    requires Distinct(before) && Distinct(after)
    requires forall m :: Count(l, m, id) == if m in before then 1 else 0
    ensures Count(Sync(l, id, before, after), m', id') ==
            if id' == id then (if m' in after then 1 else 0) else Count(l, m', id')
  {
    hide Count;
    var left, joined := Without(before, Elems(after)), Without(after, Elems(before));
    WithoutDistinct(before, Elems(after));
    WithoutDistinct(after, Elems(before));
    CountRetireAll(l, left, id, m', id');
    CountAssignAll(RetireAll(l, left, id), joined, id, m', id');
  }

  // ----- The ledger only ever appends and retires -----

  /** Every slot of `a` is still there in `b`, holding the same email or nothing. */
  ghost predicate Ages(a: Ledger, b: Ledger) {
    forall m :: SlotsAge(SlotsOf(a, m), SlotsOf(b, m))
  }

  ghost predicate SlotsAge(a: Slots, b: Slots) {
    |a| <= |b| && forall i :: 0 <= i < |a| ==> b[i] == a[i] || b[i] == None
  }

  lemma AgesTransitive(a: Ledger, b: Ledger, c: Ledger)
    requires Ages(a, b) && Ages(b, c)
    ensures Ages(a, c)
  {
    forall m
      ensures SlotsAge(SlotsOf(a, m), SlotsOf(c, m))
    {
      assert SlotsAge(SlotsOf(a, m), SlotsOf(b, m)) && SlotsAge(SlotsOf(b, m), SlotsOf(c, m));
    }
  }

  lemma AssignAges(l: Ledger, m: Id, id: Id)
    ensures Ages(l, Assign(l, m, id))
  {
  }

  lemma RetireAges(l: Ledger, m: Id, id: Id)
    ensures Ages(l, Retire(l, m, id))
  {
  }

  lemma {:induction false} AssignAllAges(l: Ledger, ms: seq<Id>, id: Id)
    ensures Ages(l, AssignAll(l, ms, id))
  {
    hide Ages;
    if ms == [] {
      AgesItself(l);
    } else {
      var front := AssignAll(l, ms[..|ms| - 1], id);
      AssignAllAges(l, ms[..|ms| - 1], id);
      AssignAges(front, ms[|ms| - 1], id);
      AgesTransitive(l, front, AssignAll(l, ms, id));
    }
  }

  lemma {:induction false} RetireAllAges(l: Ledger, ms: seq<Id>, id: Id)
    ensures Ages(l, RetireAll(l, ms, id))
  {
    hide Ages;
    if ms == [] {
      AgesItself(l);
    } else {
      var front := RetireAll(l, ms[..|ms| - 1], id);
      RetireAllAges(l, ms[..|ms| - 1], id);
      RetireAges(front, ms[|ms| - 1], id);
      AgesTransitive(l, front, RetireAll(l, ms, id));
    }
  }

  lemma AgesItself(l: Ledger)
    ensures Ages(l, l)
  {
  }

  lemma SyncAges(l: Ledger, id: Id, before: seq<Id>, after: seq<Id>)
    ensures Ages(l, Sync(l, id, before, after))
  {
    hide Ages;
    var mid := RetireAll(l, Without(before, Elems(after)), id);
    RetireAllAges(l, Without(before, Elems(after)), id);
    AssignAllAges(mid, Without(after, Elems(before)), id);
    AgesTransitive(l, mid, Sync(l, id, before, after));
  }

  // ----- Slots one by one -----

  /** With at most one live slot for `id`, retiring it empties that slot and no other. */
  lemma RetirePointwise(slots: Slots, id: Id)
    requires multiset(slots)[Some(id)] <= 1
    ensures forall i :: 0 <= i < |slots| ==>
              RetireSlot(slots, id)[i] == if slots[i] == Some(id) then None else slots[i]
  {
    var k := FirstSlot(slots, id);
    if k < |slots| {
      forall i | 0 <= i < |slots| && i != k
        ensures slots[i] != Some(id)
      {
        AtMostOnce(slots, Some(id), i, k);
      }
    }
  }

  lemma AtMostOnce<T>(s: seq<T>, x: T, i: nat, j: nat)
    requires multiset(s)[x] <= 1 && i < |s| && j < |s| && i != j && s[j] == x
    ensures s[i] != x
  {
    var lo, hi := if i < j then i else j, if i < j then j else i;
    assert s == s[..lo + 1] + s[lo + 1..];
    assert s[lo] in s[..lo + 1] && s[lo + 1..][hi - lo - 1] == s[hi];
    assert s[lo] in multiset(s[..lo + 1]) && s[hi] in multiset(s[lo + 1..]);
  }
}
