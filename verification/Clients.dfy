/** What an IMAP client holds. SELECT, FETCH and IDLE show an account only its own emails, but the
    EXPUNGE numbers of `UID EXPUNGE` and `UID MOVE` are positions among all live slots. This module
    says exactly when a client that applies them to its own list ends with the right one, and that
    IDLE, which numbers its own view, is always right. */
module Clients {
  import opened Basics
  import opened Ledgers
  import opened UidSets
  import opened Stores
  import opened Upkeep
  import opened Runs
  import opened SpentSlots
  import opened Views
  import opened Replay
  import opened Removals

  // ----- Lines that need not fit the list they are applied to -----

  /** The list without the elements at the given 1-based positions. */
  function Strike<T>(view: seq<T>, places: set<nat>): seq<T> {
    if view == [] then [] else
      var front := Strike(view[..|view| - 1], places);
      if |view| in places then front else front + [view[|view| - 1]]
  }

  ghost predicate Descending(lines: seq<nat>) {
    (forall i :: 0 <= i < |lines| ==> 1 <= lines[i]) && forall i, j :: 0 <= i < j < |lines| ==> lines[i] > lines[j]
  }

  lemma {:induction false} StrikeSame<T>(view: seq<T>, a: set<nat>, b: set<nat>)
    requires forall n :: 1 <= n <= |view| ==> (n in a <==> n in b)
    ensures Strike(view, a) == Strike(view, b)
  {
    if view != [] {
      StrikeSame(view[..|view| - 1], a, b);
    }
  }

  lemma {:induction false} StrikeNothing<T>(view: seq<T>)
    ensures Strike(view, {}) == view
  {
    if view != [] {
      StrikeNothing(view[..|view| - 1]);
    }
  }

  lemma {:induction false} DescendingInRange(size: nat, lines: seq<nat>)
    requires Descending(lines) && (lines != [] ==> lines[0] <= size)
    ensures InRange(size, lines)
  {
    if lines != [] {
      DescendingInRange(size - 1, lines[1..]);
    }
  }

  lemma TailDescends(lines: seq<nat>)
    requires Descending(lines) && lines != []
    ensures Descending(lines[1..])
    ensures forall n :: n in lines[1..] ==> n < lines[0]
    ensures forall n :: n in lines <==> n == lines[0] || n in lines[1..]
  {
    assert lines == [lines[0]] + lines[1..];
  }

  /** Applied highest first, lines strike the positions they name in the original list, and those
      beyond its end do nothing. */
  lemma {:induction false} ReplayStrikes<T(!new)>(view: seq<T>, lines: seq<nat>)
    requires Descending(lines)
    ensures Views.Replay(view, lines) == Strike(view, Elems(lines))
    decreases |view| + |lines|
  {
    hide Strike, Descending, InRange;
    if lines == [] {
      StrikeNothing(view);
      assert Elems(lines) == {};
    } else {
      TailDescends(lines);
      AtLeastOne(lines);
      if lines[0] > |view| {
        ReplayStrikes(view, lines[1..]);
        StrikeSame(view, Elems(lines), Elems(lines[1..]));
      } else {
        var front, last := view[..|view| - 1], view[|view| - 1];
        StrikeLast(view, Elems(lines));
        assert view == front + [last];
        if lines[0] == |view| {
          assert Remove(view, |view|) == front;
          ReplayStrikes(front, lines[1..]);
          StrikeSame(front, Elems(lines), Elems(lines[1..]));
        } else {
          DescendingInRange(|front|, lines);
          ReplayUnder(front, last, lines);
          ReplayStrikes(front, lines);
        }
      }
    }
  }

  lemma AtLeastOne(lines: seq<nat>)
    requires Descending(lines) && lines != []
    ensures lines[0] >= 1
  {
  }

  lemma StrikeLast<T>(view: seq<T>, places: set<nat>)
    requires view != []
    ensures var front := Strike(view[..|view| - 1], places);
            Strike(view, places) == if |view| in places then front else front + [view[|view| - 1]]
  {
  }

  lemma {:induction false} StrikeMember<T(!new)>(view: seq<T>, places: set<nat>, n: nat)
    requires Distinct(view) && 1 <= n <= |view|
    ensures view[n - 1] in Strike(view, places) <==> n !in places
    ensures forall x :: x in Strike(view, places) ==> x in view
  {
    var front, last := view[..|view| - 1], view[|view| - 1];
    assert view == front + [last] && last !in front;
    if front != [] {
      StrikeMember(front, places, if n < |view| then n else 1);
    }
  }

  ghost predicate SamePlaces<T(!new)>(view: seq<T>, lines: set<nat>, gone: set<T>) {
    forall n :: 1 <= n <= |view| ==> (n in lines <==> view[n - 1] in gone)
  }

  /** At every place the view reaches, the live message there is one of `gone` exactly when the shown
      one is one of `lost`. */
  ghost predicate LinedUp<T(!new)>(live: seq<T>, gone: set<T>, view: seq<T>, lost: set<T>) {
    forall n :: 0 <= n < |view| && n < |live| ==> (live[n] in gone <==> view[n] in lost)
  }

  lemma LinedUpIs<T(!new)>(live: seq<T>, gone: set<T>, view: seq<T>, lost: set<T>)
    requires |view| <= |live|
    ensures SamePlaces(view, Elems(Positions(live, gone)), lost) <==> LinedUp(live, gone, view, lost)
  {
    hide Positions, Descending;
    PositionsAre(live, gone);
    if SamePlaces(view, Elems(Positions(live, gone)), lost) {
      forall n | 0 <= n < |view|
        ensures live[n] in gone <==> view[n] in lost
      {
        assert n + 1 in Positions(live, gone) <==> view[n] in lost;
      }
    }
  }

  lemma {:induction false} SamePlacesStrike<T(!new)>(view: seq<T>, lines: set<nat>, gone: set<T>)
    requires SamePlaces(view, lines, gone)
    ensures Strike(view, lines) == Without(view, gone)
  {
    if view != [] {
      var front := view[..|view| - 1];
      assert forall i :: 0 <= i < |front| ==> front[i] == view[i];
      SamePlacesStrike(front, lines, gone);
      WithoutSnoc(front, view[|view| - 1], gone);
      assert view == front + [view[|view| - 1]];
    }
  }

  lemma StrikeIsWithoutIff<T(!new)>(view: seq<T>, lines: set<nat>, gone: set<T>)
    requires Distinct(view)
    ensures Strike(view, lines) == Without(view, gone) <==> SamePlaces(view, lines, gone)
  {
    hide Strike, Without;
    if SamePlaces(view, lines, gone) {
      SamePlacesStrike(view, lines, gone);
    }
    if Strike(view, lines) == Without(view, gone) {
      forall n | 1 <= n <= |view|
        ensures n in lines <==> view[n - 1] in gone
      {
        StrikeMember(view, lines, n);
        assert view[n - 1] in view;
      }
    }
  }

  lemma {:induction false} PositionsAre<T(!new)>(view: seq<T>, drop: set<T>)
    ensures Descending(Positions(view, drop))
    ensures forall n :: n in Positions(view, drop) <==> 1 <= n <= |view| && view[n - 1] in drop
  {
    if view != [] {
      var front := view[..|view| - 1];
      PositionsAre(front, drop);
      PositionsBound(front, drop);
      assert forall i :: 0 <= i < |front| ==> front[i] == view[i];
    }
  }

  // ----- The view of an account -----

  predicate IsVisible(st: Store, account: Id, id: Id) {
    var e := Lookup(st.emails, id);
    e.Some? && e.value.account == account
  }

  lemma {:induction false} VisibleAre(st: Store, account: Id, seen: seq<Seen>)
    ensures forall s :: s in Visible(st, account, seen) <==> s in seen && IsVisible(st, account, s.id)
  {
    hide Lookup;
    if seen != [] {
      var front := seen[..|seen| - 1];
      assert seen == front + [seen[|seen| - 1]];
      VisibleAre(st, account, front);
    }
  }

  lemma {:induction false} VisibleAscends(st: Store, account: Id, seen: seq<Seen>)
    requires Ascending(seen)
    ensures Ascending(Visible(st, account, seen))
  {
    hide Lookup;
    if seen != [] {
      var front, last := seen[..|seen| - 1], seen[|seen| - 1];
      VisibleAscends(st, account, front);
      VisibleAre(st, account, front);
      assert forall s :: s in front ==> s.uid < last.uid;
      AscendingSnoc(Visible(st, account, front), last);
    }
  }

  lemma VisibleSnoc(st: Store, account: Id, seen: seq<Seen>, last: Seen)
    ensures Visible(st, account, seen + [last]) ==
            if IsVisible(st, account, last.id) then Visible(st, account, seen) + [last] else Visible(st, account, seen)
  {
    hide Lookup;
    assert (seen + [last])[..|seen|] == seen;
  }

  lemma NothingVisible(st: Store, account: Id, gone: set<Seen>)
    ensures Visible(st, account, []) == [] && Without<Seen>([], gone) == []
  {
  }

  /** Two ways to thin out a view: strike the emptied slots and look at what is stored now, or strike
      what is lost from what was shown. */
  lemma {:induction false} VisibleWithout(st: Store, st': Store, account: Id, seen: seq<Seen>, emptied: set<Seen>, lost: set<Seen>)
    requires forall s :: s in seen ==>
               (s !in emptied && IsVisible(st', account, s.id) <==> s !in lost && IsVisible(st, account, s.id))
    ensures Visible(st', account, Without(seen, emptied)) == Without(Visible(st, account, seen), lost)
  {
    hide Visible, IsVisible, Without;
    if seen == [] {
      NothingVisible(st, account, lost);
      NothingVisible(st', account, emptied);
    } else {
      var front, last := seen[..|seen| - 1], seen[|seen| - 1];
      assert seen == front + [last] && last in seen;
      assert forall s :: s in front ==> s in seen;
      VisibleWithout(st, st', account, front, emptied, lost);
      VisibleSnoc(st, account, front, last);
      VisibleSnoc(st', account, Without(front, emptied), last);
      WithoutSnoc(front, last, emptied);
      WithoutSnoc(Visible(st, account, front), last, lost);
    }
  }

  lemma AscendingDistinct(seen: seq<Seen>)
    requires Ascending(seen)
    ensures Distinct(seen)
  {
  }

  /** Applying the numbers of `gone` to a view gives the view without `lost` exactly when they line up. */
  lemma ReplayOnView(st: Store, account: Id, m: Id, gone: set<Seen>, lost: set<Seen>)
    ensures var live, view := Live(SlotsOf(st.ledger, m)), View(st, account, m);
            Views.Replay(view, Positions(live, gone)) == Without(view, lost) <==> LinedUp(live, gone, view, lost)
  {
    hide Live, Positions, Views.Replay, Without, Visible, SamePlaces, LinedUp, Ascending, Distinct, Descending, SlotsOf;
    var live, view := Live(SlotsOf(st.ledger, m)), View(st, account, m);
    PositionsAre(live, gone);
    ReplayStrikes(view, Positions(live, gone));
    LiveAscends(SlotsOf(st.ledger, m));
    VisibleAscends(st, account, live);
    AscendingDistinct(view);
    StrikeIsWithoutIff(view, Elems(Positions(live, gone)), lost);
    VisibleFits(st, account, live);
    LinedUpIs(live, gone, view, lost);
  }

  // ----- UID EXPUNGE and UID MOVE -----

  /** What is shown of one live slot after `UID EXPUNGE`. */
  lemma ExpungeSlot(st: Store, account: Id, selected: Id, uids: UidSet, s: Seen)
    requires Kept(st) && s in Live(SlotsOf(st.ledger, selected))
    ensures var gone, slots := ExpungedBy(st, selected, uids), SlotsOf(st.ledger, selected);
            s !in EmptiedSet(slots, Carried(st.emails, gone, selected))
              && IsVisible(Exec(st, UidExpunge(selected, uids)).st, account, s.id)
            <==> s !in Lost(st, selected, gone, true) && IsVisible(st, account, s.id)
  {
    hide Kept, Live, Lookup, Edits, DoAll, ExpungedBy, Carried, OnlyIn, Rank, SlotsOf;
    var gone := ExpungedBy(st, selected, uids);
    ExpungeEdits(st, selected, uids);
    CarriedCount(st.emails, gone, selected, s.id);
    StoredAfterExpunges(st, gone, selected, s.id);
    assert s.id in SeenIds(gone) <==> multiset(SeenIds(gone))[s.id] > 0;
    LiveIs(SlotsOf(st.ledger, selected), s);
  }

  lemma LiveIs(slots: Slots, s: Seen)
    requires s in Live(slots)
    ensures 1 <= s.uid <= |slots| && slots[s.uid - 1] == Some(s.id)
  {
    hide Live;
  }

  /** `UID EXPUNGE` as the account's client sees it, in every store. Its list loses, of each expunged
      email that stays elsewhere, its first live slots, as many as it had victims, and of one that goes
      every slot. Applying the announced numbers to the old list gives the new one exactly when, place
      by place, the victims among the live messages and the lost ones among those shown line up. */
  lemma ExpungeReplayIff(st: Store, account: Id, selected: Id, uids: UidSet)
    requires Kept(st)
    ensures var after := Exec(st, UidExpunge(selected, uids)).st;
            var live, view, gone := Live(SlotsOf(st.ledger, selected)), View(st, account, selected), ExpungedBy(st, selected, uids);
            var lost := Lost(st, selected, gone, true);
            && View(after, account, selected) == Without(view, lost)
            && (Views.Replay(view, ExpungeLines(st, selected, uids)) == View(after, account, selected) <==>
                  LinedUp(live, Elems(gone), view, lost))
  {
    hide Kept, Live, Exec, ExpungedBy, Carried, EmptiedSet, Lost, Visible, IsVisible, LinedUp, Views.Replay, Positions, SlotsOf, Without;
    var gone, slots := ExpungedBy(st, selected, uids), SlotsOf(st.ledger, selected);
    LiveAfterExpunge(st, selected, uids);
    forall s | s in Live(slots) {
      ExpungeSlot(st, account, selected, uids, s);
    }
    VisibleWithout(st, Exec(st, UidExpunge(selected, uids)).st, account, Live(slots),
                   EmptiedSet(slots, Carried(st.emails, gone, selected)), Lost(st, selected, gone, true));
    ReplayOnView(st, account, selected, Elems(gone), Lost(st, selected, gone, true));
  }

  lemma MoveSlot(st: Store, account: Id, selected: Id, uids: UidSet, target: Id, s: Seen)
    requires Kept(st) && target != selected && s in Live(SlotsOf(st.ledger, selected))
    ensures var gone, slots := MovedBy(st, selected, uids), SlotsOf(st.ledger, selected);
            s !in EmptiedSet(slots, SeenIds(gone)) && IsVisible(Exec(st, UidMove(selected, uids, Some(target))).st, account, s.id)
            <==> s !in Lost(st, selected, gone, false) && IsVisible(st, account, s.id)
  {
    hide Kept, Live, Lookup, Edits, DoAll, Matched, Stored, Moves, OnlyIn, Rank, SlotsOf;
    MovesOfMatched(st, selected, uids, target);
    StoredAfterMoves(st, Matched(st, selected, uids), selected, target, s.id);
    LiveIs(SlotsOf(st.ledger, selected), s);
  }

  /** `UID MOVE` on the source side, in the same way; no email goes. */
  lemma MoveReplayIff(st: Store, account: Id, selected: Id, uids: UidSet, target: Id)
    requires Kept(st) && target != selected
    ensures var after := Exec(st, UidMove(selected, uids, Some(target))).st;
            var live, view, gone := Live(SlotsOf(st.ledger, selected)), View(st, account, selected), MovedBy(st, selected, uids);
            var lost := Lost(st, selected, gone, false);
            && View(after, account, selected) == Without(view, lost)
            && (Views.Replay(view, MoveLines(st, selected, uids)) == View(after, account, selected) <==>
                  LinedUp(live, Elems(gone), view, lost))
  {
    hide Kept, Live, Exec, Matched, Stored, EmptiedSet, Lost, Visible, IsVisible, LinedUp, Views.Replay, Positions, SlotsOf, Without;
    var gone, slots := MovedBy(st, selected, uids), SlotsOf(st.ledger, selected);
    LiveAfterMove(st, selected, uids, target);
    forall s | s in Live(slots) {
      MoveSlot(st, account, selected, uids, target, s);
    }
    VisibleWithout(st, Exec(st, UidMove(selected, uids, Some(target))).st, account, Live(slots),
                   EmptiedSet(slots, SeenIds(gone)), Lost(st, selected, gone, false));
    ReplayOnView(st, account, selected, Elems(gone), Lost(st, selected, gone, false));
  }

  lemma VictimsLive(st: Store, selected: Id, uids: UidSet)
    ensures forall s :: s in ExpungedBy(st, selected, uids) ==> s in Live(SlotsOf(st.ledger, selected))
    ensures forall s :: s in MovedBy(st, selected, uids) ==> s in Live(SlotsOf(st.ledger, selected))
  {
    hide Lookup, Live, SlotsOf, IsDeleted;
  }

  /** Where no email holds two live slots of the mailbox, what is lost is what was named. */
  lemma ReplaySingle(st: Store, account: Id, selected: Id, uids: UidSet, target: Id)
    requires Kept(st) && SlotsSingle(SlotsOf(st.ledger, selected)) && target != selected
    ensures var live, view := Live(SlotsOf(st.ledger, selected)), View(st, account, selected);
            var gone, after := Elems(ExpungedBy(st, selected, uids)), Exec(st, UidExpunge(selected, uids)).st;
            && View(after, account, selected) == Without(view, gone)
            && (Views.Replay(view, ExpungeLines(st, selected, uids)) == View(after, account, selected) <==> LinedUp(live, gone, view, gone))
    ensures var live, view := Live(SlotsOf(st.ledger, selected)), View(st, account, selected);
            var gone, after := Elems(MovedBy(st, selected, uids)), Exec(st, UidMove(selected, uids, Some(target))).st;
            && View(after, account, selected) == Without(view, gone)
            && (Views.Replay(view, MoveLines(st, selected, uids)) == View(after, account, selected) <==> LinedUp(live, gone, view, gone))
  {
    hide Kept, Live, Exec, ExpungedBy, MovedBy, View, Lost, LinedUp, Views.Replay, ExpungeLines, MoveLines, SlotsOf, Without, SlotsSingle;
    ExpungeReplayIff(st, account, selected, uids);
    MoveReplayIff(st, account, selected, uids, target);
    VictimsLive(st, selected, uids);
    LostSingle(st, selected, ExpungedBy(st, selected, uids), true);
    LostSingle(st, selected, MovedBy(st, selected, uids), false);
  }

  // ----- When the client could see every victim -----

  /** Every live slot that lies before one of `gone` is shown to the account. */
  ghost predicate NothingHiddenBefore(st: Store, account: Id, live: seq<Seen>, gone: set<Seen>) {
    forall i, j :: 0 <= i < j < |live| && live[j] in gone ==> IsVisible(st, account, live[i].id)
  }

  lemma {:induction false} ShownPrefix(st: Store, account: Id, live: seq<Seen>, k: nat)
    requires k <= |live| && forall i :: 0 <= i < k ==> IsVisible(st, account, live[i].id)
    ensures k <= |Visible(st, account, live)| && Visible(st, account, live)[..k] == live[..k]
    decreases |live|
  {
    hide Lookup;
    if k == |live| {
      AllVisible(st, account, live);
    } else {
      var front := live[..|live| - 1];
      ShownPrefix(st, account, front, k);
      assert live[..k] == front[..k];
      assert Visible(st, account, live)[..k] == Visible(st, account, front)[..k];
    }
  }

  /** If nothing before a victim is hidden, numbers and places agree. */
  lemma NothingHiddenFits(st: Store, account: Id, live: seq<Seen>, gone: set<Seen>)
    requires Ascending(live) && NothingHiddenBefore(st, account, live, gone)
    requires forall s :: s in live && s in gone ==> IsVisible(st, account, s.id)
    ensures SamePlaces(Visible(st, account, live), Elems(Positions(live, gone)), gone)
  {
    hide Visible, IsVisible, Positions, Ascending, Distinct;
    var view := Visible(st, account, live);
    PositionsAre(live, gone);
    VisibleAre(st, account, live);
    VisibleAscends(st, account, live);
    AscendingDistinct(view);
    forall n | 1 <= n <= |view|
      ensures n in Positions(live, gone) <==> view[n - 1] in gone
    {
      if n in Positions(live, gone) {
        ShownPrefix(st, account, live, n);
        assert view[..n][n - 1] == live[..n][n - 1];
      }
      if view[n - 1] in gone {
        assert view[n - 1] in view;
        var k :| 0 <= k < |live| && live[k] == view[n - 1];
        ShownPrefix(st, account, live, k + 1);
        assert view[..k + 1][k] == live[..k + 1][k];
        OncePlaced(view, k, n - 1);
      }
    }
  }

  lemma OncePlaced<T(!new)>(view: seq<T>, i: nat, j: nat)
    requires Distinct(view) && i < |view| && j < |view| && view[i] == view[j]
    ensures i == j
  {
  }

  lemma {:induction false} SameCount(st: Store, account: Id, live: seq<Seen>, gone: set<Seen>)
    requires forall s :: s in live && s in gone ==> IsVisible(st, account, s.id)
    ensures |Positions(Visible(st, account, live), gone)| == |Positions(live, gone)|
    ensures |Visible(st, account, live)| <= |live|
  {
    hide Lookup;
    if live != [] {
      var front, last := live[..|live| - 1], live[|live| - 1];
      assert live == front + [last];
      SameCount(st, account, front, gone);
      var view := Visible(st, account, front);
      assert (view + [last])[..|view|] == view;
    }
  }

  /** Two descending lists of one length, the first inside the second, are the same list. */
  lemma {:induction false} SameDescending(a: seq<nat>, b: seq<nat>)
    requires Descending(a) && Descending(b) && |a| == |b| && forall n :: n in a ==> n in b
    ensures a == b
  {
    if a != [] {
      TailDescends(a);
      TailDescends(b);
      assert a[0] in a && (a[0] == b[0] || a[0] in b[1..]);
      SameDescending(a[1..], b[1..]);
      assert a == [a[0]] + a[1..] && b == [b[0]] + b[1..];
    }
  }

  /** If the numbers fit, nothing before a victim was hidden. */
  lemma {:induction false} FitsNothingHidden(st: Store, account: Id, live: seq<Seen>, gone: set<Seen>)
    requires Positions(Visible(st, account, live), gone) == Positions(live, gone)
    ensures NothingHiddenBefore(st, account, live, gone)
    decreases |live|
  {
    hide Lookup;
    if live != [] {
      var front, last := live[..|live| - 1], live[|live| - 1];
      var view := Visible(st, account, front);
      assert live == front + [last];
      VisibleFits(st, account, front);
      if IsVisible(st, account, last.id) {
        assert (view + [last])[..|view|] == view;
        if last in gone {
          assert Positions(live, gone)[0] == |live| && Positions(live, gone)[1..] == Positions(front, gone);
          assert Positions(view + [last], gone)[0] == |view| + 1 && Positions(view + [last], gone)[1..] == Positions(view, gone);
          AllShown(st, account, front);
        }
        FitsNothingHidden(st, account, front, gone);
      } else {
        PositionsAre(live, gone);
        PositionsAre(view, gone);
        assert last in gone ==> |live| in Positions(live, gone);
        FitsNothingHidden(st, account, front, gone);
      }
    }
  }

  lemma {:induction false} VisibleFits(st: Store, account: Id, live: seq<Seen>)
    ensures |Visible(st, account, live)| <= |live|
  {
    hide Lookup;
    if live != [] {
      VisibleFits(st, account, live[..|live| - 1]);
    }
  }

  /** A view as long as the live slots hides none of them. */
  lemma {:induction false} AllShown(st: Store, account: Id, live: seq<Seen>)
    requires |Visible(st, account, live)| == |live|
    ensures forall i :: 0 <= i < |live| ==> IsVisible(st, account, live[i].id)
  {
    hide Lookup;
    if live != [] {
      VisibleFits(st, account, live[..|live| - 1]);
      AllShown(st, account, live[..|live| - 1]);
    }
  }

  /** When all of `gone` is shown, numbers and places agree exactly when nothing before any of it is
      hidden. */
  lemma PlacesIffNothingHidden(st: Store, account: Id, live: seq<Seen>, gone: set<Seen>)
    requires Ascending(live)
    requires forall s :: s in live && s in gone ==> IsVisible(st, account, s.id)
    ensures LinedUp(live, gone, Visible(st, account, live), gone) <==> NothingHiddenBefore(st, account, live, gone)
  {
    hide LinedUp, Visible, IsVisible, Positions, Ascending, NothingHiddenBefore, Descending;
    var view := Visible(st, account, live);
    VisibleFits(st, account, live);
    LinedUpIs(live, gone, view, gone);
    if NothingHiddenBefore(st, account, live, gone) {
      NothingHiddenFits(st, account, live, gone);
    }
    if SamePlaces(view, Elems(Positions(live, gone)), gone) {
      SameCount(st, account, live, gone);
      PositionsAre(live, gone);
      PositionsAre(view, gone);
      SameDescending(Positions(view, gone), Positions(live, gone));
      FitsNothingHidden(st, account, live, gone);
    }
  }

  /** The two laws for a client that could see every message it removes, in a mailbox without doubles:
      the announced numbers are right exactly when no message hidden from it lies before one of them. */
  lemma ExpungeReplayOfSeen(st: Store, account: Id, selected: Id, uids: UidSet)
    requires Kept(st) && SlotsSingle(SlotsOf(st.ledger, selected))
    requires forall s :: s in ExpungedBy(st, selected, uids) ==> IsVisible(st, account, s.id)
    ensures var live := Live(SlotsOf(st.ledger, selected));
            Views.Replay(View(st, account, selected), ExpungeLines(st, selected, uids))
              == View(Exec(st, UidExpunge(selected, uids)).st, account, selected)
            <==> NothingHiddenBefore(st, account, live, Elems(ExpungedBy(st, selected, uids)))
  {
    hide Kept, Live, Exec, ExpungedBy, MovedBy, IsVisible, LinedUp, Views.Replay, ExpungeLines, MoveLines, SlotsOf, Visible, NothingHiddenBefore, Ascending, SlotsSingle;
    ReplaySingle(st, account, selected, uids, selected + "'");
    LiveAscends(SlotsOf(st.ledger, selected));
    PlacesIffNothingHidden(st, account, Live(SlotsOf(st.ledger, selected)), Elems(ExpungedBy(st, selected, uids)));
  }

  lemma MoveReplayOfSeen(st: Store, account: Id, selected: Id, uids: UidSet, target: Id)
    requires Kept(st) && SlotsSingle(SlotsOf(st.ledger, selected)) && target != selected
    requires forall s :: s in MovedBy(st, selected, uids) ==> IsVisible(st, account, s.id)
    ensures var live := Live(SlotsOf(st.ledger, selected));
            Views.Replay(View(st, account, selected), MoveLines(st, selected, uids))
              == View(Exec(st, UidMove(selected, uids, Some(target))).st, account, selected)
            <==> NothingHiddenBefore(st, account, live, Elems(MovedBy(st, selected, uids)))
  {
    hide Kept, Live, Exec, ExpungedBy, MovedBy, IsVisible, LinedUp, Views.Replay, ExpungeLines, MoveLines, SlotsOf, Visible, NothingHiddenBefore, Ascending, SlotsSingle;
    ReplaySingle(st, account, selected, uids, target);
    LiveAscends(SlotsOf(st.ledger, selected));
    PlacesIffNothingHidden(st, account, Live(SlotsOf(st.ledger, selected)), Elems(MovedBy(st, selected, uids)));
  }

  /** The other way round: where nothing is hidden, but doubles are allowed, the numbers are right exactly
      when the messages they name are the ones that are lost. */
  lemma NothingHiddenReplaysIff(st: Store, account: Id, selected: Id, uids: UidSet, target: Id)
    requires Kept(st) && target != selected
    requires View(st, account, selected) == Live(SlotsOf(st.ledger, selected))
    ensures var gone := ExpungedBy(st, selected, uids);
            Views.Replay(View(st, account, selected), ExpungeLines(st, selected, uids))
              == View(Exec(st, UidExpunge(selected, uids)).st, account, selected)
            <==> Elems(gone) == Lost(st, selected, gone, true)
    ensures var gone := MovedBy(st, selected, uids);
            Views.Replay(View(st, account, selected), MoveLines(st, selected, uids))
              == View(Exec(st, UidMove(selected, uids, Some(target))).st, account, selected)
            <==> Elems(gone) == Lost(st, selected, gone, false)
  {
    hide Kept, Live, Exec, ExpungedBy, MovedBy, View, IsLost, LinedUp, Views.Replay, ExpungeLines, MoveLines, SlotsOf, Without;
    var live := Live(SlotsOf(st.ledger, selected));
    ExpungeReplayIff(st, account, selected, uids);
    MoveReplayIff(st, account, selected, uids, target);
    VictimsLive(st, selected, uids);
    SameIffLinedUp(live, Elems(ExpungedBy(st, selected, uids)), Lost(st, selected, ExpungedBy(st, selected, uids), true));
    SameIffLinedUp(live, Elems(MovedBy(st, selected, uids)), Lost(st, selected, MovedBy(st, selected, uids), false));
  }

  lemma SameIffLinedUp<T(!new)>(live: seq<T>, a: set<T>, b: set<T>)
    requires forall x :: x in a || x in b ==> x in live
    ensures LinedUp(live, a, live, b) <==> a == b
  {
    if LinedUp(live, a, live, b) {
      forall x
        ensures x in a <==> x in b
      {
        if x in live {
          var n :| 0 <= n < |live| && live[n] == x;
        }
      }
    }
  }

  /** So in a mailbox without doubles that holds only the account's own emails both are always right. */
  lemma OwnMailboxReplays(st: Store, account: Id, selected: Id, uids: UidSet, target: Id)
    requires Kept(st) && SlotsMatchIn(st, selected) && OwnMailbox(st, account, selected) && target != selected
    ensures Views.Replay(View(st, account, selected), ExpungeLines(st, selected, uids))
              == View(Exec(st, UidExpunge(selected, uids)).st, account, selected)
    ensures Views.Replay(View(st, account, selected), MoveLines(st, selected, uids))
              == View(Exec(st, UidMove(selected, uids, Some(target))).st, account, selected)
  {
    hide Kept, SlotsMatchIn, Live, Exec, ExpungedBy, MovedBy, View, Views.Replay, ExpungeLines, MoveLines, SlotsOf, OwnMailbox, Without, SlotsSingle;
    ViewIsLive(st, account, selected);
    LawfulSingle(st, selected);
    ReplaySingle(st, account, selected, uids, target);
  }

  // ----- IDLE -----

  /** Over any run: an email known at the end either was known at the start, in the same account, or
      has an id minted since. */
  lemma {:induction false} RunOrigins(st: Store, cs: seq<Command>, id: Id)
    requires Kept(st) && (forall i :: 0 <= i < |cs| ==> ProperCommand(cs[i])) && RunStore(st, cs).emailSeq <= U64_MAX
    requires NeverAgain(st.emailSeq, id)
    ensures Known(RunStore(st, cs), id) ==> Known(st, id) && AccountOf(RunStore(st, cs), id) == AccountOf(st, id)
  {
    hide Exec, Kept, ProperCommand, Lookup, MintId;
    if cs != [] {
      var front, last := cs[..|cs| - 1], cs[|cs| - 1];
      var mid := RunStore(st, front);
      ExecFrame(mid, last);
      RunFrame(st, front);
      RunKept(st, front);
      RunOrigins(st, front, id);
      OneOrigin(mid, last, id, st.emailSeq);
    }
  }

  lemma OneOrigin(st: Store, c: Command, id: Id, minted: nat)
    requires Kept(st) && ProperCommand(c) && Exec(st, c).st.emailSeq <= U64_MAX
    requires minted <= st.emailSeq && NeverAgain(minted, id)
    ensures Known(Exec(st, c).st, id) ==> Known(st, id) && AccountOf(Exec(st, c).st, id) == AccountOf(st, id)
  {
    hide Exec, Kept, ProperCommand, Lookup, MintId;
    ExecBooks(st, c);
  }

  /** Whatever ran in between, a UID shown now was shown before or is newer than everything shown
      before: slots are only appended and retired, and no slot comes to name another account's email. */
  lemma ViewOnlyAppends(st: Store, cs: seq<Command>, account: Id, m: Id)
    requires Kept(st) && Spent(st)
    requires (forall i :: 0 <= i < |cs| ==> ProperCommand(cs[i])) && RunStore(st, cs).emailSeq <= U64_MAX
    ensures OnlyAppends(Uids(View(st, account, m)), Uids(View(RunStore(st, cs), account, m)))
  {
    hide RunStore, Kept, Live, Visible, IsVisible, NeverAgain, Lookup, ProperCommand;
    var now := RunStore(st, cs);
    var before, after := SlotsOf(st.ledger, m), SlotsOf(now.ledger, m);
    RunAges(st, cs);
    assert SlotsAge(before, after);
    VisibleAre(st, account, Live(before));
    VisibleAre(now, account, Live(after));
    var last, view := View(st, account, m), View(now, account, m);
    forall u | u in Uids(view)
      ensures u in Uids(last) || forall v :: v in Uids(last) ==> v < u
    {
      var k :| 0 <= k < |view| && Uids(view)[k] == u;
      var s := view[k];
      assert s in view;
      if u <= |before| {
        assert before[u - 1] == Some(s.id);
        RunOrigins(st, cs, s.id);
        StillVisible(st, now, account, s.id);
        assert s in last;
        var j :| 0 <= j < |last| && last[j] == s;
        assert Uids(last)[j] == u;
      } else {
        forall v | v in Uids(last)
          ensures v < u
        {
          var j :| 0 <= j < |last| && Uids(last)[j] == v;
          assert last[j] in last;
        }
      }
    }
  }

  lemma StillVisible(st: Store, now: Store, account: Id, id: Id)
    requires IsVisible(now, account, id)
    requires Known(now, id) ==> Known(st, id) && AccountOf(now, id) == AccountOf(st, id)
    ensures IsVisible(st, account, id)
  {
  }

  lemma ViewAscends(st: Store, account: Id, m: Id)
    ensures StrictlyAscending(Uids(View(st, account, m)))
  {
    hide Live, Visible;
    LiveAscends(SlotsOf(st.ledger, m));
    VisibleAscends(st, account, Live(SlotsOf(st.ledger, m)));
  }

  /** IDLE across any run: whatever commands coalesced into one wake-up, the client that applies the
      EXPUNGE lines to its last view and appends the arrivals holds the current view; EXISTS is sent
      exactly when something arrived, and counts what was left plus the arrivals. */
  lemma IdleOverRun(st: Store, cs: seq<Command>, account: Id, m: Id)
    requires Kept(st) && Spent(st)
    requires (forall i :: 0 <= i < |cs| ==> ProperCommand(cs[i])) && RunStore(st, cs).emailSeq <= U64_MAX
    ensures var last, now := Uids(View(st, account, m)), Uids(View(RunStore(st, cs), account, m));
            var report, left := Idle(last, now), Views.Replay(last, Idle(last, now).expunges);
            && now == left + Arrivals(last, now)
            && report.recent == |now| - |left|
            && (report.exists_ == if left == now then None else Some(|left| + report.recent))
  {
    hide RunStore, Views.Replay, Idle, Arrivals, View, Kept, Spent, StrictlyAscending, OnlyAppends, ProperCommand;
    ViewOnlyAppends(st, cs, account, m);
    ViewAscends(st, account, m);
    ViewAscends(RunStore(st, cs), account, m);
    IdleReplay(Uids(View(st, account, m)), Uids(View(RunStore(st, cs), account, m)));
  }
}
