/** What `UID EXPUNGE` and `UID MOVE` take off a mailbox, in every store: also where one message holds
    several live slots of it, as a MOVE into a mailbox that already held it or a repeated declaration
    leaves it. Each message carried out empties the first live slot of its email, which need not be the
    one that was named. */
module Removals {
  import opened Basics
  import opened Patches
  import opened Ledgers
  import opened UidSets
  import opened ChangeLogs
  import opened Stores
  import opened Upkeep
  import opened Runs
  import opened Views
  import opened Effects

  // ----- Which slots a batch empties -----

  /** How many earlier slots hold the same. */
  function Rank(slots: Slots, i: nat): nat
    requires i < |slots|
  {
    multiset(slots[..i])[slots[i]]
  }

  lemma RankGrows(slots: Slots, i: nat, j: nat)
    requires i < j < |slots| && slots[i] == slots[j]
    ensures Rank(slots, i) < Rank(slots, j)
  {
    assert slots[..j] == slots[..i] + [slots[i]] + slots[i + 1..j];
  }

  /** The slot of the next lower rank. */
  lemma {:induction false} RankBelow(slots: Slots, j: nat, n: nat) returns (i: nat)
    requires n <= j < |slots| && multiset(slots[..n])[slots[j]] == Rank(slots, j) > 0
    ensures i < j && slots[i] == slots[j] && Rank(slots, i) == Rank(slots, j) - 1
    decreases n
  {
    assert slots[..n] == slots[..n - 1] + [slots[n - 1]];
    if slots[n - 1] == slots[j] {
      i := n - 1;
    } else {
      i := RankBelow(slots, j, n - 1);
    }
  }

  /** Retiring a batch empties, of each email, as many of its slots as it is named, first ones first. */
  predicate Emptied(slots: Slots, ids: seq<Id>, i: nat)
    requires i < |slots|
  {
    slots[i].Some? && Rank(slots, i) < multiset(ids)[slots[i].value]
  }

  ghost predicate RetiredBy(slots: Slots, ids: seq<Id>, after: Slots) {
    |after| == |slots| && forall i :: 0 <= i < |slots| ==> after[i] == if Emptied(slots, ids, i) then None else slots[i]
  }

  lemma NoneBefore(mid: Slots, x: Id)
    ensures forall i :: 0 <= i < FirstSlot(mid, x) ==> mid[i] != Some(x)
  {
    var f := FirstSlot(mid, x);
    assert forall i :: 0 <= i < f ==> mid[i] == mid[..f][i] && mid[i] in mid[..f];
  }

  lemma StillLeft(slots: Slots, ids: seq<Id>, mid: Slots, x: Id)
    requires RetiredBy(slots, ids, mid)
    ensures var f := FirstSlot(mid, x); f < |slots| ==> slots[f] == Some(x) && Rank(slots, f) == multiset(ids)[x]
  {
    hide Rank;
    var f := FirstSlot(mid, x);
    NoneBefore(mid, x);
    if f < |slots| && Rank(slots, f) > multiset(ids)[x] {
      RankOfAll(slots, f);
      var i := RankBelow(slots, f, f);
      assert false;
    }
  }

  lemma RankOfAll(slots: Slots, j: nat)
    requires j < |slots|
    ensures multiset(slots[..j])[slots[j]] == Rank(slots, j)
  {
  }

  /** The first slot that still holds an email is the one whose rank is the number emptied so far. */
  lemma FirstLeft(slots: Slots, ids: seq<Id>, mid: Slots, x: Id)
    requires RetiredBy(slots, ids, mid)
    ensures var f := FirstSlot(mid, x);
            forall i :: 0 <= i < |slots| && slots[i] == Some(x) ==> (Rank(slots, i) == multiset(ids)[x] <==> i == f)
  {
    hide Rank;
    var f, c := FirstSlot(mid, x), multiset(ids)[x];
    NoneBefore(mid, x);
    StillLeft(slots, ids, mid, x);
    forall i | 0 <= i < |slots| && slots[i] == Some(x)
      ensures Rank(slots, i) == c <==> i == f
    {
      if f < i {
        LastNone(mid, x, i);
        RankGrows(slots, f, i);
      }
    }
  }

  lemma LastNone(mid: Slots, x: Id, i: nat)
    requires FirstSlot(mid, x) < i < |mid|
    ensures mid[FirstSlot(mid, x)] == Some(x)
  {
  }

  lemma RetireOneMore(slots: Slots, ids: seq<Id>, mid: Slots, x: Id)
    requires RetiredBy(slots, ids, mid)
    ensures RetiredBy(slots, ids + [x], RetireSlot(mid, x))
  {
    hide Rank;
    FirstLeft(slots, ids, mid, x);
    var f := FirstSlot(mid, x);
    forall i | 0 <= i < |slots|
      ensures RetireSlot(mid, x)[i] == if Emptied(slots, ids + [x], i) then None else slots[i]
    {
      assert f < |slots| ==> slots[f] == Some(x);
    }
  }

  lemma {:induction false} RetireEachRank(slots: Slots, ids: seq<Id>)
    ensures RetiredBy(slots, ids, RetireEach(slots, ids))
  {
    hide RetireSlot, RetiredBy;
    if ids == [] {
      NothingRetired(slots);
    } else {
      RetireEachRank(slots, ids[..|ids| - 1]);
      RetireOneMore(slots, ids[..|ids| - 1], RetireEach(slots, ids[..|ids| - 1]), ids[|ids| - 1]);
      assert ids == ids[..|ids| - 1] + [ids[|ids| - 1]];
    }
  }

  lemma NothingRetired(slots: Slots)
    ensures RetiredBy(slots, [], slots)
  {
  }

  function EmptiedSet(slots: Slots, ids: seq<Id>): (r: set<Seen>)
    ensures forall s :: s in r <==> s in Live(slots) && Emptied(slots, ids, s.uid - 1)
  {
    set s | s in Live(slots) && Emptied(slots, ids, s.uid - 1)
  }

  lemma LiveAfterBatch(slots: Slots, ids: seq<Id>)
    ensures Live(RetireEach(slots, ids)) == Without(Live(slots), EmptiedSet(slots, ids))
  {
    hide RetireEach, Rank;
    RetireEachRank(slots, ids);
    LiveAfter(slots, RetireEach(slots, ids), EmptiedSet(slots, ids));
  }

  // ----- UID EXPUNGE -----

  ghost predicate OnlyIn(emails: seq<Email>, id: Id, m: Id) {
    var e := Lookup(emails, id);
    e.Some? && forall x :: x in e.value.mailboxIds ==> x == m
  }

  /** The expunges that find their email: one is enough for an email that is in no other mailbox. */
  ghost function Carried(emails: seq<Email>, seen: seq<Seen>, source: Id): seq<Id> {
    if seen == [] then [] else
      var front, last := seen[..|seen| - 1], seen[|seen| - 1];
      if Lookup(emails, last.id).Some? && !(last.id in SeenIds(front) && OnlyIn(emails, last.id, source))
      then Carried(emails, front, source) + [last.id]
      else Carried(emails, front, source)
  }

  lemma {:induction false} CarriedCount(emails: seq<Email>, seen: seq<Seen>, source: Id, id: Id)
    ensures var k := multiset(SeenIds(seen))[id];
            multiset(Carried(emails, seen, source))[id] ==
            if Lookup(emails, id).None? then 0 else if OnlyIn(emails, id, source) && k > 0 then 1 else k
  {
    hide Lookup, OnlyIn;
    if seen != [] {
      var front, last := seen[..|seen| - 1], seen[|seen| - 1];
      CarriedCount(emails, front, source, id);
      assert SeenIds(seen) == SeenIds(front) + [last.id];
      assert id in SeenIds(front) <==> multiset(SeenIds(front))[id] > 0;
    }
  }

  /** The email after a number of expunges, in any store that keeps emails in some mailbox. */
  lemma StoredAfterExpunges(st: Store, seen: seq<Seen>, source: Id, id: Id)
    requires Kept(st)
    ensures var before, after := Lookup(st.emails, id), Lookup(DoAll(Work(st, UNTOUCHED), Expunges(seen, source)).st.emails, id);
            && (after.Some? <==> before.Some? && !(id in SeenIds(seen) && OnlyIn(st.emails, id, source)))
            && (after.Some? ==> after.value.account == before.value.account)
  {
    hide Kept, Lookup, DoAll, Outcome;
    CommandOutcome(st, Expunges(seen, source), id);
    if Lookup(st.emails, id).Some? {
      ExpungesOutcome(Lookup(st.emails, id).value, seen, source);
    }
  }

  lemma {:induction false} ExpungesLedger(st: Store, seen: seq<Seen>, source: Id)
    requires Kept(st)
    ensures SlotsOf(DoAll(Work(st, UNTOUCHED), Expunges(seen, source)).st.ledger, source) ==
            RetireEach(SlotsOf(st.ledger, source), Carried(st.emails, seen, source))
  {
    hide RetireSlot, RetireEach, Lookup, Do, DoAll, SlotsOf, Kept, OnlyIn;
    var w := Work(st, UNTOUCHED);
    if seen == [] {
      NoExpunges(w, source);
      RetireNone(SlotsOf(st.ledger, source));
    } else {
      var front, last := seen[..|seen| - 1], seen[|seen| - 1];
      ExpungesSnoc(w, seen, source);
      ExpungesLedger(st, front, source);
      StoredAfterExpunges(st, front, source, last.id);
      RetireEachSnoc(SlotsOf(st.ledger, source), Carried(st.emails, front, source), last.id);
      OneExpunge(DoAll(w, Expunges(front, source)), last.id, source);
    }
  }

  lemma RetireNone(slots: Slots)
    ensures RetireEach(slots, []) == slots
  {
  }

  lemma OneExpunge(w: Work, x: Id, source: Id)
    ensures SlotsOf(Do(w, Expunge(x, source)).st.ledger, source) ==
            if Lookup(w.st.emails, x).Some? then RetireSlot(SlotsOf(w.st.ledger, source), x) else SlotsOf(w.st.ledger, source)
  {
    hide RetireSlot, Without;
    RetireNothing(x);
  }

  /** `UID EXPUNGE` in the ledger: of each expunged email that stays elsewhere as many live slots as it
      had victims, first ones first, and of one that goes a single slot. */
  lemma LiveAfterExpunge(st: Store, selected: Id, uids: UidSet)
    requires Kept(st)
    ensures var slots := SlotsOf(st.ledger, selected);
            Live(SlotsOf(Exec(st, UidExpunge(selected, uids)).st.ledger, selected)) ==
            Without(Live(slots), EmptiedSet(slots, Carried(st.emails, ExpungedBy(st, selected, uids), selected)))
  {
    hide Kept, Live, Edits, DoAll, RetireEach, ExpungedBy, Carried, SlotsOf;
    ExpungeEdits(st, selected, uids);
    ExpungesLedger(st, ExpungedBy(st, selected, uids), selected);
    LiveAfterBatch(SlotsOf(st.ledger, selected), Carried(st.emails, ExpungedBy(st, selected, uids), selected));
  }

  // ----- UID MOVE -----

  lemma StoredAfterMoves(st: Store, seen: seq<Seen>, source: Id, target: Id, id: Id)
    requires Kept(st) && source != target
    ensures var before, after := Lookup(st.emails, id), Lookup(DoAll(Work(st, UNTOUCHED), Moves(seen, source, target)).st.emails, id);
            (after.Some? <==> before.Some?) && (after.Some? ==> after.value.account == before.value.account)
  {
    hide Kept, Lookup, DoAll, Outcome, Moves;
    CommandOutcome(st, Moves(seen, source, target), id);
    if Lookup(st.emails, id).Some? {
      MovesOutcome(Lookup(st.emails, id).value, seen, source, target);
    }
  }

  lemma StoredSnoc(emails: seq<Email>, seen: seq<Seen>)
    requires seen != []
    ensures var front, last := Stored(emails, seen[..|seen| - 1]), seen[|seen| - 1];
            && Stored(emails, seen) == (if Lookup(emails, last.id).Some? then front + [last] else front)
            && SeenIds(Stored(emails, seen)) == (if Lookup(emails, last.id).Some? then SeenIds(front) + [last.id] else SeenIds(front))
  {
    hide Lookup;
  }

  /** Each stored message of the batch gains a target slot and empties a source slot. */
  lemma {:induction false} MovesLedger(st: Store, seen: seq<Seen>, source: Id, target: Id)
    requires Kept(st) && source != target
    ensures var l, ids := DoAll(Work(st, UNTOUCHED), Moves(seen, source, target)).st.ledger, SeenIds(Stored(st.emails, seen));
            && SlotsOf(l, source) == RetireEach(SlotsOf(st.ledger, source), ids)
            && SlotsOf(l, target) == SlotsOf(st.ledger, target) + Somes(ids)
  {
    hide RetireSlot, RetireEach, Kept, Do, DoAll, Lookup, SlotsOf, Moves, Stored, SeenIds, Somes;
    var w := Work(st, UNTOUCHED);
    if seen == [] {
      NoMoves(w, source, target);
      NoneStored(st.emails, SlotsOf(st.ledger, target));
      RetireNone(SlotsOf(st.ledger, source));
    } else {
      var front, last := seen[..|seen| - 1], seen[|seen| - 1];
      var ids := SeenIds(Stored(st.emails, front));
      MovesSnoc(w, seen, source, target);
      MovesLedger(st, front, source, target);
      StoredAfterMoves(st, front, source, target, last.id);
      StoredSnoc(st.emails, seen);
      RetireEachSnoc(SlotsOf(st.ledger, source), ids, last.id);
      SomesSnoc(SlotsOf(st.ledger, target), ids, last.id);
      OneMoveLedger(DoAll(w, Moves(front, source, target)), last.id, source, target);
    }
  }

  lemma NoneStored(emails: seq<Email>, slots: Slots)
    ensures Stored(emails, []) == [] && SeenIds([]) == [] && slots + Somes([]) == slots
  {
  }

  lemma SomesSnoc(slots: Slots, ids: seq<Id>, id: Id)
    ensures slots + Somes(ids + [id]) == (slots + Somes(ids)) + [Some(id)]
  {
    assert Somes(ids + [id]) == Somes(ids) + [Some(id)];
  }

  lemma OneMoveLedger(w: Work, x: Id, source: Id, target: Id)
    requires source != target
    ensures var v := Do(w, Move(x, source, target));
            if Lookup(w.st.emails, x).Some? then
              && SlotsOf(v.st.ledger, source) == RetireSlot(SlotsOf(w.st.ledger, source), x)
              && SlotsOf(v.st.ledger, target) == SlotsOf(w.st.ledger, target) + [Some(x)]
            else v == w
  {
    hide RetireSlot, Without, Include;
    RetireNothing(x);
  }

  /** The messages `UID MOVE` carries out. */
  function MovedBy(st: Store, selected: Id, uids: UidSet): seq<Seen> {
    Stored(st.emails, Matched(st, selected, uids))
  }

  /** `UID MOVE` in the source's ledger: of each moved email as many live slots as it was matched by,
      first ones first. */
  lemma LiveAfterMove(st: Store, selected: Id, uids: UidSet, target: Id)
    requires Kept(st) && target != selected
    ensures var slots := SlotsOf(st.ledger, selected);
            Live(SlotsOf(Exec(st, UidMove(selected, uids, Some(target))).st.ledger, selected)) ==
            Without(Live(slots), EmptiedSet(slots, SeenIds(MovedBy(st, selected, uids))))
  {
    hide Kept, Live, Edits, DoAll, RetireEach, Matched, Moves, Stored, SlotsOf;
    MovesOfMatched(st, selected, uids, target);
    MovesLedger(st, Matched(st, selected, uids), selected, target);
    LiveAfterBatch(SlotsOf(st.ledger, selected), SeenIds(MovedBy(st, selected, uids)));
  }

  /** COPYUID (section 4.3 of RFC 6851): source UIDs ascend, destination UIDs are the run that starts
      at the target's old UIDNEXT, and the k-th of each names the same message, before and after. */
  lemma CopyUidPairs(st: Store, selected: Id, uids: UidSet, target: Id, k: nat)
    requires Kept(st) && target != selected && k < |MovedBy(st, selected, uids)|
    ensures var seen := MovedBy(st, selected, uids);
            var after := Exec(st, UidMove(selected, uids, Some(target))).st.ledger;
            && Ascending(seen)
            && seen[k] in Live(SlotsOf(st.ledger, selected))
            && Seen(UidNext(st.ledger, target) + k, seen[k].id) in Live(SlotsOf(after, target))
            && UidNext(after, target) == UidNext(st.ledger, target) + |seen|
  {
    hide Lookup, Kept, RetireEach, Moves, Matched, Live, DoAll, Edits, Ascending, SlotsOf, Stored;
    var seen := MovedBy(st, selected, uids);
    MatchedAscends(st, selected, uids);
    StoredAscends(st.emails, Matched(st, selected, uids));
    MovesOfMatched(st, selected, uids, target);
    MovesLedger(st, Matched(st, selected, uids), selected, target);
    MovedIsLive(st, selected, uids, k);
    AppendedSlots(SlotsOf(st.ledger, target), SeenIds(seen), k);
  }

  lemma {:induction false} StoredAscends(emails: seq<Email>, seen: seq<Seen>)
    requires Ascending(seen)
    ensures Ascending(Stored(emails, seen))
  {
    hide Lookup;
    if seen != [] {
      var front, last := seen[..|seen| - 1], seen[|seen| - 1];
      StoredAscends(emails, front);
      assert forall s :: s in front ==> s.uid < last.uid;
      AscendingSnoc(Stored(emails, front), last);
    }
  }

  lemma MovedIsLive(st: Store, selected: Id, uids: UidSet, k: nat)
    requires k < |MovedBy(st, selected, uids)|
    ensures MovedBy(st, selected, uids)[k] in Live(SlotsOf(st.ledger, selected))
  {
    hide Live, Selected, SlotsOf, Lookup;
    assert MovedBy(st, selected, uids)[k] in MovedBy(st, selected, uids);
  }

  // ----- What a client loses sight of -----

  /** The live messages that are not shown any more after `gone` was taken off: all those of an email
      that goes altogether, and of any other its first ones, as many as it has among `gone`. */
  ghost predicate IsLost(st: Store, m: Id, gone: seq<Seen>, destroys: bool, s: Seen) {
    var slots, k := SlotsOf(st.ledger, m), multiset(SeenIds(gone))[s.id];
    && 1 <= s.uid <= |slots| && k > 0
    && ((destroys && OnlyIn(st.emails, s.id, m)) || Rank(slots, s.uid - 1) < k)
  }

  ghost function Lost(st: Store, m: Id, gone: seq<Seen>, destroys: bool): (r: set<Seen>)
    ensures forall s :: s in r <==> s in Live(SlotsOf(st.ledger, m)) && IsLost(st, m, gone, destroys, s)
  {
    set s | s in Live(SlotsOf(st.ledger, m)) && IsLost(st, m, gone, destroys, s)
  }

  /** Where no email has two live slots, what is lost is what was named. */
  lemma LostSingle(st: Store, m: Id, gone: seq<Seen>, destroys: bool)
    requires SlotsSingle(SlotsOf(st.ledger, m)) && forall s :: s in gone ==> s in Live(SlotsOf(st.ledger, m))
    ensures Lost(st, m, gone, destroys) == Elems(gone)
  {
    hide Live, IsLost, SlotsSingle, SlotsOf;
    forall s
      ensures s in Lost(st, m, gone, destroys) <==> s in gone
    {
      if s in Live(SlotsOf(st.ledger, m)) {
        LostIffNamed(st, m, gone, destroys, s);
      }
    }
  }

  lemma LostIffNamed(st: Store, m: Id, gone: seq<Seen>, destroys: bool, s: Seen)
    requires SlotsSingle(SlotsOf(st.ledger, m)) && s in Live(SlotsOf(st.ledger, m))
    requires forall g :: g in gone ==> g in Live(SlotsOf(st.ledger, m))
    ensures IsLost(st, m, gone, destroys, s) <==> s in gone
  {
    hide Live, OnlyIn, SlotsSingle, SlotsOf, Rank;
    var slots := SlotsOf(st.ledger, m);
    SingleRank(slots, s.uid - 1);
    NamedOnce(slots, gone, s);
    assert multiset(SeenIds(gone))[s.id] > 0 <==> s.id in SeenIds(gone);
  }

  lemma NamedOnce(slots: Slots, gone: seq<Seen>, s: Seen)
    requires SlotsSingle(slots) && s in Live(slots) && forall g :: g in gone ==> g in Live(slots)
    ensures s in gone <==> s.id in SeenIds(gone)
  {
    hide Live, SlotsSingle;
    if s.id in SeenIds(gone) {
      var k :| 0 <= k < |gone| && SeenIds(gone)[k] == s.id;
      assert gone[k] in gone;
      AtMostOneOf(slots, s.id);
      if gone[k].uid != s.uid {
        AtMostOnce(slots, Some(s.id), gone[k].uid - 1, s.uid - 1);
      }
    }
    if s in gone {
      var k :| 0 <= k < |gone| && gone[k] == s;
      assert SeenIds(gone)[k] == s.id;
    }
  }

  lemma SingleRank(slots: Slots, i: nat)
    requires SlotsSingle(slots) && i < |slots| && slots[i].Some?
    ensures Rank(slots, i) == 0
  {
    assert slots == slots[..i] + [slots[i]] + slots[i + 1..];
    AtMostOneOf(slots, slots[i].value);
  }
}
