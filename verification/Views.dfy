/** What an IMAP client sees of the ledger, and how it follows along: sequence numbers are positions
    in the list of live UIDs, and untagged EXPUNGE lines remove by position
    (section 7.4.1 of RFC 3501). */
module Views {
  import opened Basics
  import opened Text
  import opened Ledgers
  import opened UidSets
  import opened Stores
  import opened Upkeep
  import opened Runs

  // ----- A client that replays EXPUNGE lines -----

  /** The client's list after one `* n EXPUNGE`. */
  function Remove<T>(view: seq<T>, n: nat): seq<T> {
    if 1 <= n <= |view| then view[..n - 1] + view[n..] else view
  }

  function Replay<T>(view: seq<T>, lines: seq<nat>): seq<T> {
    if lines == [] then view else Replay(Remove(view, lines[0]), lines[1..])
  }

  /** The 1-based positions of the elements of `view` that are in `drop`, highest first. */
  function Positions<T(==)>(view: seq<T>, drop: set<T>): seq<nat> {
    if view == [] then [] else
      var front := Positions(view[..|view| - 1], drop);
      if view[|view| - 1] in drop then [|view|] + front else front
  }

  lemma {:induction false} PositionsBound<T(!new)>(view: seq<T>, drop: set<T>)
    ensures forall i :: 0 <= i < |Positions(view, drop)| ==> 1 <= Positions(view, drop)[i] <= |view|
  {
    if view != [] {
      PositionsBound(view[..|view| - 1], drop);
    }
  }

  /** Lines that stay inside a list do not disturb what comes after it. */
  lemma {:induction false} ReplayUnder<T(!new)>(view: seq<T>, last: T, lines: seq<nat>)
    requires InRange(|view|, lines)
    ensures Replay(view + [last], lines) == Replay(view, lines) + [last]
    decreases |lines|
  {
    if lines != [] {
      var n := lines[0];
      assert Remove(view + [last], n) == Remove(view, n) + [last];
      ReplayUnder(Remove(view, n), last, lines[1..]);
    }
  }

  /** Every line hits an element of a list that shrinks by one each time. */
  ghost predicate InRange(size: nat, lines: seq<nat>) {
    lines == [] || (1 <= lines[0] <= size && InRange(size - 1, lines[1..]))
  }

  lemma {:induction false} PositionsInRange<T(!new)>(view: seq<T>, drop: set<T>)
    ensures InRange(|view|, Positions(view, drop))
    ensures InRange(|view| + 1, Positions(view, drop))
  {
    if view != [] {
      var front := view[..|view| - 1];
      PositionsInRange(front, drop);
      WiderRange(|front| + 1, Positions(front, drop));
    }
  }

  lemma {:induction false} WiderRange(size: nat, lines: seq<nat>)
    requires InRange(size, lines)
    ensures InRange(size + 1, lines)
  {
    if lines != [] {
      WiderRange(size - 1, lines[1..]);
    }
  }

  /** Highest first is right: replaying the positions of a set removes exactly that set. */
  lemma {:induction false} ReplayRemoves<T(!new)>(view: seq<T>, drop: set<T>)
    ensures Replay(view, Positions(view, drop)) == Without(view, drop)
  {
    if view != [] {
      var front, last := view[..|view| - 1], view[|view| - 1];
      var lines := Positions(front, drop);
      assert view == front + [last];
      ReplayRemoves(front, drop);
      WithoutSnoc(front, last, drop);
      if last in drop {
        assert Remove(view, |view|) == front;
        assert ([|view|] + lines)[1..] == lines;
      } else {
        PositionsInRange(front, drop);
        ReplayUnder(front, last, lines);
      }
    }
  }

  // ----- Retiring a batch -----

  function RetireEach(slots: Slots, ids: seq<Id>): (r: Slots)
    ensures |r| == |slots|
  {
    if ids == [] then slots else RetireSlot(RetireEach(slots, ids[..|ids| - 1]), ids[|ids| - 1])
  }

  /** No email holds two live slots. */
  ghost predicate SlotsSingle(slots: Slots) {
    forall id :: multiset(slots)[Some(id)] <= 1
  }

  lemma AtMostOneOf(slots: Slots, id: Id)
    requires SlotsSingle(slots)
    ensures multiset(slots)[Some(id)] <= 1
  {
  }

  /** The live view after a batch retired is the old one without the retired messages. */
  lemma {:induction false} LiveAfter(slots: Slots, after: Slots, drop: set<Seen>)
    requires |after| == |slots|
    requires forall i :: 0 <= i < |slots| ==>
               after[i] == if slots[i].Some? && Seen(i + 1, slots[i].value) in drop then None else slots[i]
    ensures Live(after) == Without(Live(slots), drop)
  {
    if slots != [] {
      var n := |slots| - 1;
      LiveAfter(slots[..n], after[..n], drop);
      if slots[n].Some? {
        WithoutSnoc(Live(slots[..n]), Seen(n + 1, slots[n].value), drop);
      }
    }
  }

  lemma LawfulSingle(st: Store, m: Id)
    requires SlotsMatchIn(st, m)
    ensures SlotsSingle(SlotsOf(st.ledger, m))
  {
    hide Lists;
    forall id
      ensures multiset(SlotsOf(st.ledger, m))[Some(id)] <= 1
    {
      assert Count(st.ledger, m, id) == if Lists(st.emails, id, m) then 1 else 0;
    }
  }

  // ----- UID EXPUNGE -----

  function ExpungedBy(st: Store, selected: Id, uids: UidSet): seq<Seen> {
    Victims(st, Matched(st, selected, uids))
  }

  /** The `* n EXPUNGE` lines of `UID EXPUNGE`. */
  function ExpungeLines(st: Store, selected: Id, uids: UidSet): seq<nat> {
    Positions(Live(SlotsOf(st.ledger, selected)), Elems(ExpungedBy(st, selected, uids)))
  }

  function Expunges(seen: seq<Seen>, source: Id): (r: seq<Edit>)
    ensures |r| == |seen| && forall i :: 0 <= i < |r| ==> r[i] == Expunge(seen[i].id, source)
  {
    seq(|seen|, i requires 0 <= i < |seen| => Expunge(seen[i].id, source))
  }

  ghost predicate DistinctIds(seen: seq<Seen>) {
    forall i, j :: 0 <= i < j < |seen| ==> seen[i].id != seen[j].id
  }

  lemma NoExpunges(w: Work, source: Id)
    ensures DoAll(w, Expunges([], source)) == w
  {
  }

  lemma ExpungesSnoc(w: Work, seen: seq<Seen>, source: Id)
    requires seen != []
    ensures var front, last := seen[..|seen| - 1], seen[|seen| - 1];
            && DoAll(w, Expunges(seen, source)) == Do(DoAll(w, Expunges(front, source)), Expunge(last.id, source))
            && SeenIds(seen) == SeenIds(front) + [last.id]
  {
    hide Do;
    var edits := Expunges(seen, source);
    assert edits[..|edits| - 1] == Expunges(seen[..|seen| - 1], source);
  }

  lemma RetireEachSnoc(slots: Slots, ids: seq<Id>, id: Id)
    ensures RetireEach(slots, ids + [id]) == RetireSlot(RetireEach(slots, ids), id)
  {
    hide RetireSlot;
    assert (ids + [id])[..|ids|] == ids;
  }

  lemma RetireNothing(x: Id)
    ensures RetireSlot([], x) == []
  {
  }

  lemma ExpungeEdits(st: Store, selected: Id, uids: UidSet)
    ensures Edits(st, UidExpunge(selected, uids)) == Expunges(ExpungedBy(st, selected, uids), selected)
  {
  }

  lemma MatchedKnown(st: Store, selected: Id, uids: UidSet)
    requires SlotsMatchIn(st, selected)
    ensures forall s :: s in Matched(st, selected, uids) ==>
              Lookup(st.emails, s.id).Some? && s in Live(SlotsOf(st.ledger, selected))
  {
    hide SlotsMatchIn;
    MatchedLaw(st, selected, uids);
    var r := Matched(st, selected, uids);
    forall s | s in r
      ensures Lookup(st.emails, s.id).Some? && s in Live(SlotsOf(st.ledger, selected))
    {
      var i :| 0 <= i < |r| && r[i] == s;
      assert Lists(st.emails, r[i].id, selected);
    }
  }

  // ----- UID COPY -----

  function Copies(seen: seq<Seen>, target: Id): (r: seq<Edit>)
    ensures |r| == |seen| && forall i :: 0 <= i < |r| ==> r[i] == Copy(seen[i].id, target)
  {
    seq(|seen|, i requires 0 <= i < |seen| => Copy(seen[i].id, target))
  }

  lemma CopyEdits(st: Store, selected: Id, uids: UidSet, target: Id)
    ensures Edits(st, UidCopy(selected, uids, Some(target))) == Copies(Matched(st, selected, uids), target)
  {
  }

  // ----- UID MOVE -----

  /** The live messages among those listed; `UID MOVE` skips the others. */
  function Stored(emails: seq<Email>, seen: seq<Seen>): (r: seq<Seen>)
    ensures forall s :: s in r <==> s in seen && Lookup(emails, s.id).Some?
  {
    if seen == [] then [] else
      var front, last := Stored(emails, seen[..|seen| - 1]), seen[|seen| - 1];
      assert seen == seen[..|seen| - 1] + [last];
      if Lookup(emails, last.id).Some? then front + [last] else front
  }

  lemma {:induction false} AllStored(emails: seq<Email>, seen: seq<Seen>)
    requires forall s :: s in seen ==> Lookup(emails, s.id).Some?
    ensures Stored(emails, seen) == seen
  {
    hide Lookup;
    if seen != [] {
      AllStored(emails, seen[..|seen| - 1]);
      assert seen[|seen| - 1] in seen;
    }
  }

  /** The `* n EXPUNGE` lines of `UID MOVE`. */
  function MoveLines(st: Store, selected: Id, uids: UidSet): seq<nat> {
    Positions(Live(SlotsOf(st.ledger, selected)), Elems(Stored(st.emails, Matched(st, selected, uids))))
  }

  /** Where slots and memberships match it skips none. */
  lemma NothingSkipped(st: Store, selected: Id, uids: UidSet)
    requires SlotsMatchIn(st, selected)
    ensures Stored(st.emails, Matched(st, selected, uids)) == Matched(st, selected, uids)
  {
    hide SlotsMatchIn, Lookup, Matched;
    MatchedKnown(st, selected, uids);
    AllStored(st.emails, Matched(st, selected, uids));
  }

  function Somes(ids: seq<Id>): (r: Slots)
    ensures |r| == |ids| && forall i :: 0 <= i < |r| ==> r[i] == Some(ids[i])
  {
    seq(|ids|, i requires 0 <= i < |ids| => Some(ids[i]))
  }

  lemma IsLive(slots: Slots, s: Seen)
    requires 1 <= s.uid <= |slots| && slots[s.uid - 1] == Some(s.id)
    ensures s in Live(slots)
  {
    hide Live;
  }

  lemma AppendedSlots(slots: Slots, ids: seq<Id>, k: nat)
    requires k < |ids|
    ensures Seen(|slots| + 1 + k, ids[k]) in Live(slots + Somes(ids))
  {
    hide Live;
    var all, more := slots + Somes(ids), Somes(ids);
    assert all[|slots| + k] == more[k] == Some(ids[k]);
    IsLive(all, Seen(|slots| + 1 + k, ids[k]));
  }

  // ----- QRESYNC -----

  /** The retired UIDs, ascending, bounded to the client's known set when it sent one. */
  function ExpungedUids(slots: Slots, known: Option<UidSet>): (r: seq<nat>)
    ensures forall u :: u in r <==>
              1 <= u <= |slots| && slots[u - 1] == None && (known.None? || Matches(known.value, u))
  {
    if slots == [] then [] else
      var n := |slots| - 1;
      var front := ExpungedUids(slots[..n], known);
      if slots[n].None? && (known.None? || Matches(known.value, n + 1)) then front + [n + 1] else front
  }

  lemma {:induction false} ExpungedAscend(slots: Slots, known: Option<UidSet>)
    ensures StrictlyAscending(ExpungedUids(slots, known))
  {
    hide Matches;
    if slots != [] {
      var n := |slots| - 1;
      var front := ExpungedUids(slots[..n], known);
      ExpungedAscend(slots[..n], known);
      forall i | 0 <= i < |front|
        ensures front[i] < n + 1
      {
        assert front[i] in front;
      }
    }
  }

  /** The untagged `VANISHED (EARLIER)` of a SELECT; an empty list is not sent. */
  function VanishedText(slots: Slots, known: Option<UidSet>): Option<string> {
    var gone := ExpungedUids(slots, known);
    if gone == [] then None else Some(Join(PrintRuns(UidSets.Runs(gone)), ","))
  }

  /** What a client reads in it. */
  predicate Says(text: Option<string>, uid: nat) {
    text.Some? && ParseSet(text.value).Some? && Matches(ParseSet(text.value).value, uid)
  }

  /** The text names exactly the retired UIDs the client asked about. */
  lemma VanishedReadsBack(slots: Slots, known: Option<UidSet>, uid: nat)
    requires |slots| <= U32_MAX
    ensures Says(VanishedText(slots, known), uid) <==>
            1 <= uid <= |slots| && slots[uid - 1] == None && (known.None? || Matches(known.value, uid))
  {
    hide Matches, ParseSet, PrintRuns, UidSets.Runs, Join;
    var gone := ExpungedUids(slots, known);
    assert forall i :: 0 <= i < |gone| ==> gone[i] in gone;
    if gone != [] {
      FormatParsesBack(gone, uid);
      assert VanishedText(slots, known) == Some(Join(PrintRuns(UidSets.Runs(gone)), ","));
    } else {
      assert uid !in gone;
    }
  }

  function LiveUids(slots: Slots): set<nat> {
    set i | 0 <= i < |slots| && slots[i].Some? :: i + 1
  }

  /** Live and expunged UIDs partition the assigned ones, so a client that prunes its known UIDs by
      `VANISHED (EARLIER)` (section 3.2.5.2 of RFC 7162) keeps exactly the live ones among them. */
  lemma VanishedPrunes(slots: Slots, known: set<nat>, sent: Option<UidSet>)
    requires forall u :: u in known ==> 1 <= u <= |slots|
    requires sent.Some? ==> forall u :: u in known ==> Matches(sent.value, u)
    ensures forall u :: 1 <= u <= |slots| <==> (u in LiveUids(slots) || u in ExpungedUids(slots, None))
    ensures forall u :: !(u in LiveUids(slots) && u in ExpungedUids(slots, None))
    ensures known - Elems(ExpungedUids(slots, sent)) == known * LiveUids(slots)
  {
    hide Matches;
    forall u | 1 <= u <= |slots|
      ensures u in LiveUids(slots) <==> slots[u - 1].Some?
    {
      if slots[u - 1].Some? {
        var i := u - 1;
        assert 0 <= i < |slots| && slots[i].Some?;
      }
    }
  }

  // ----- IDLE -----

  function Uids(seen: seq<Seen>): (r: seq<nat>)
    ensures |r| == |seen| && forall i :: 0 <= i < |r| ==> r[i] == seen[i].uid
  {
    seq(|seen|, i requires 0 <= i < |seen| => seen[i].uid)
  }

  /** What a wake-up writes: EXPUNGE lines, then EXISTS and RECENT if anything arrived. */
  datatype IdleReport = IdleReport(expunges: seq<nat>, exists_: Option<nat>, recent: nat)

  function Gone(last: seq<nat>, now: seq<nat>): set<nat> {
    set u | u in last && u !in now
  }

  function Arrivals(last: seq<nat>, now: seq<nat>): seq<nat> {
    Without(now, Elems(last))
  }

  function Idle(last: seq<nat>, now: seq<nat>): IdleReport {
    var n := |Arrivals(last, now)|;
    IdleReport(Positions(last, Gone(last, now)), if n > 0 then Some(|now|) else None, n)
  }

  /** Every UID now live either was live before or lies beyond all that were. */
  ghost predicate OnlyAppends(last: seq<nat>, now: seq<nat>) {
    forall u :: u in now ==> u in last || forall v :: v in last ==> v < u
  }

  lemma {:induction false} WithoutAscends(u: seq<nat>, drop: set<nat>)
    requires StrictlyAscending(u)
    ensures StrictlyAscending(Without(u, drop))
  {
    if u != [] {
      var front, last := u[..|u| - 1], u[|u| - 1];
      WithoutAscends(front, drop);
      var q := Without(front, drop);
      forall i | 0 <= i < |q|
        ensures q[i] < last
      {
        assert q[i] in q;
        var k :| 0 <= k < |front| && front[k] == q[i];
      }
    }
  }

  lemma {:induction false} SameAscending(a: seq<nat>, b: seq<nat>)
    requires StrictlyAscending(a) && StrictlyAscending(b) && forall u :: u in a <==> u in b
    ensures a == b
  {
    assert b != [] ==> b[0] in b;
    if a != [] {
      assert a[0] in a;
      var j :| 0 <= j < |b| && b[j] == a[0];
      var i :| 0 <= i < |a| && a[i] == b[0];
      assert a[0] == b[0];
      forall u
        ensures u in a[1..] <==> u in b[1..]
      {
        assert u in a <==> u == a[0] || u in a[1..] by { assert a == [a[0]] + a[1..]; }
        assert u in b <==> u == b[0] || u in b[1..] by { assert b == [b[0]] + b[1..]; }
      }
      SameAscending(a[1..], b[1..]);
      assert a == [a[0]] + a[1..] && b == [b[0]] + b[1..];
    }
  }

  lemma JoinedAscends(left: seq<nat>, arrived: seq<nat>)
    requires StrictlyAscending(left) && StrictlyAscending(arrived)
    requires forall i, j :: 0 <= i < |left| && 0 <= j < |arrived| ==> left[i] < arrived[j]
    ensures StrictlyAscending(left + arrived)
  {
  }

  lemma IdleSplits(last: seq<nat>, now: seq<nat>)
    requires StrictlyAscending(last) && StrictlyAscending(now) && OnlyAppends(last, now)
    ensures now == Without(last, Gone(last, now)) + Arrivals(last, now)
  {
    hide StrictlyAscending, Without;
    var left, arrived := Without(last, Gone(last, now)), Arrivals(last, now);
    WithoutAscends(last, Gone(last, now));
    WithoutAscends(now, Elems(last));
    forall i, j | 0 <= i < |left| && 0 <= j < |arrived|
      ensures left[i] < arrived[j]
    {
      assert left[i] in left && arrived[j] in arrived;
    }
    JoinedAscends(left, arrived);
    SameAscending(left + arrived, now);
  }

  /** Positional replay of IDLE: applying the EXPUNGE lines to the last view leaves a prefix of the
      new one; the rest are the arrivals, and EXISTS, sent exactly when there are any, counts both. */
  lemma IdleReplay(last: seq<nat>, now: seq<nat>)
    requires StrictlyAscending(last) && StrictlyAscending(now) && OnlyAppends(last, now)
    ensures var report, left := Idle(last, now), Replay(last, Idle(last, now).expunges);
            && now == left + Arrivals(last, now)
            && report.recent == |now| - |left|
            && (report.exists_ == if left == now then None else Some(|left| + report.recent))
  {
    hide StrictlyAscending, OnlyAppends, Without, Arrivals, Gone, Replay, Positions;
    var left, arrived := Without(last, Gone(last, now)), Arrivals(last, now);
    ReplayRemoves(last, Gone(last, now));
    IdleSplits(last, now);
    assert arrived == [] ==> left + arrived == left;
  }

  lemma {:induction false} UidIsLive(slots: Slots, u: nat)
    ensures u in Uids(Live(slots)) <==> 1 <= u <= |slots| && slots[u - 1].Some?
  {
    if slots != [] {
      var n := |slots| - 1;
      var front := Live(slots[..n]);
      UidIsLive(slots[..n], u);
      if slots[n].Some? {
        assert Uids(front + [Seen(n + 1, slots[n].value)]) == Uids(front) + [n + 1];
      }
    }
  }

  /** In IDLE the premise always holds: whatever ran in between, the ledger only appended and
      retired, so a UID that is live now was live at the last view or is newer than all of it. */
  lemma LedgerOnlyAppends(before: Slots, after: Slots)
    requires SlotsAge(before, after)
    ensures StrictlyAscending(Uids(Live(before))) && StrictlyAscending(Uids(Live(after)))
    ensures OnlyAppends(Uids(Live(before)), Uids(Live(after)))
  {
    hide Live;
    LiveAscends(before);
    LiveAscends(after);
    forall u {
      UidIsLive(before, u);
    }
    forall u {
      UidIsLive(after, u);
    }
  }

  // ----- The view an account gets -----

  /** `mailbox_messages`: live slots whose email is live in the account. */
  function View(st: Store, account: Id, m: Id): seq<Seen> {
    Visible(st, account, Live(SlotsOf(st.ledger, m)))
  }

  function Visible(st: Store, account: Id, seen: seq<Seen>): seq<Seen> {
    if seen == [] then [] else
      var front, last := Visible(st, account, seen[..|seen| - 1]), seen[|seen| - 1];
      var e := Lookup(st.emails, last.id);
      if e.Some? && e.value.account == account then front + [last] else front
  }

  ghost predicate OwnMailbox(st: Store, account: Id, m: Id) {
    forall i :: 0 <= i < |st.emails| && m in st.emails[i].mailboxIds ==> st.emails[i].account == account
  }

  /** Where slots and memberships match, in a mailbox whose emails all belong to the account, nothing is
      hidden. */
  lemma ViewIsLive(st: Store, account: Id, m: Id)
    requires SlotsMatchIn(st, m) && OwnMailbox(st, account, m)
    ensures View(st, account, m) == Live(SlotsOf(st.ledger, m))
  {
    hide SlotsMatchIn, Live;
    var seen := Live(SlotsOf(st.ledger, m));
    forall i | 0 <= i < |seen|
      ensures Lookup(st.emails, seen[i].id).Some? && Lookup(st.emails, seen[i].id).value.account == account
    {
      LiveLaw(st, m, seen[i], seen[i]);
      LookupIsElement(st.emails, seen[i].id);
    }
    AllVisible(st, account, seen);
  }

  lemma {:induction false} AllVisible(st: Store, account: Id, seen: seq<Seen>)
    requires forall i :: 0 <= i < |seen| ==>
               Lookup(st.emails, seen[i].id).Some? && Lookup(st.emails, seen[i].id).value.account == account
    ensures Visible(st, account, seen) == seen
  {
    hide Lookup;
    if seen != [] {
      AllVisible(st, account, seen[..|seen| - 1]);
    }
  }
}
