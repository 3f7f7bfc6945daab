/** `Email/query` (section 4.4 of RFC 8621): filter, sort, and cut one window out of the list by
    position or by anchor (section 5.5 of RFC 8620). */
module Paging {
  import opened Basics
  import opened Sorting
  import opened Stores
  import opened Upkeep

  const LIMIT_CAP: nat := 256
  const LIMIT_DEFAULT: nat := 50

  datatype Filter = Filter(after: Option<int>, before: Option<int>, inMailbox: Option<Id>)

  datatype Query = Query(account: Id, filter: Filter, position: Option<I64>, limit: Option<I64>,
                         anchor: Option<Id>, anchorOffset: Option<I64>)

  datatype QueryError = AccountNotFound | NegativePosition | NegativeLimit | AnchorNotFound

  datatype Answer = Rejected(why: QueryError) | Page(ids: seq<Id>, position: nat, total: nat)

  predicate Passes(f: Filter, e: Email) {
    && (f.after.Some? ==> e.receivedAt >= f.after.value)
    && (f.before.Some? ==> e.receivedAt < f.before.value)
    && (f.inMailbox.Some? ==> f.inMailbox.value in e.mailboxIds)
  }

  /** Newest first; equal times by id. */
  predicate NewestFirst(a: Email, b: Email) {
    a.receivedAt > b.receivedAt || (a.receivedAt == b.receivedAt && LexLe(a.id, b.id))
  }

  function Matching(emails: seq<Email>, account: Id, f: Filter): (r: seq<Email>)
    ensures forall e :: e in r <==> e in emails && e.account == account && Passes(f, e)
  {
    if emails == [] then [] else
      var front, last := Matching(emails[..|emails| - 1], account, f), emails[|emails| - 1];
      assert emails == emails[..|emails| - 1] + [last];
      if last.account == account && Passes(f, last) then front + [last] else front
  }

  function Listing(emails: seq<Email>, account: Id, f: Filter): seq<Email> {
    Sort(Matching(emails, account, f), NewestFirst)
  }

  function Limit(limit: Option<I64>): nat {
    if limit.None? then LIMIT_DEFAULT
    else if limit.value < 0 then 0
    else if limit.value < LIMIT_CAP then limit.value
    else LIMIT_CAP
  }

  function Capped(n: int, total: nat): (r: nat)
    ensures r <= total
  {
    if n < 0 then 0 else if n < total then n else total
  }

  /** Where the window starts: an anchor overrides the position, and its index plus the offset, a 64-bit
      sum, is clamped at the head of the list. */
  function Start(all: seq<Email>, q: Query): Option<nat> {
    if q.anchor.Some? then
      var i := IndexOf(all, q.anchor.value);
      var offset := if q.anchorOffset.Some? then q.anchorOffset.value else 0;
      var at := Wrap(i + offset);
      if i == |all| then None else Some(if at < 0 then 0 else at)
    else if q.position.Some? && q.position.value > 0 then Some(q.position.value)
    else Some(0)
  }

  function Window(all: seq<Email>, start: nat, limit: nat): Answer {
    var from, to := Capped(start, |all|), Capped(start + limit, |all|);
    Page(EmailIds(all[from..to]), start, |all|)
  }

  function Serve(accounts: set<Id>, emails: seq<Email>, q: Query): Answer {
    if q.account !in accounts then Rejected(AccountNotFound)
    else if q.position.Some? && q.position.value < 0 then Rejected(NegativePosition)
    else if q.limit.Some? && q.limit.value < 0 then Rejected(NegativeLimit)
    else
      var all := Listing(emails, q.account, q.filter);
      match Start(all, q)
      case None => Rejected(AnchorNotFound)
      case Some(start) => Window(all, start, Limit(q.limit))
  }

  /** The filter pass over the stored emails. */
  method Collect(emails: seq<Email>, account: Id, f: Filter) returns (matches: seq<Email>)
    ensures matches == Matching(emails, account, f)
  {
    hide Passes;
    matches := [];
    for i := 0 to |emails|
      invariant matches == Matching(emails[..i], account, f)
    {
      assert emails[..i + 1][..i] == emails[..i];
      if emails[i].account == account && Passes(f, emails[i]) {
        matches := matches + [emails[i]];
      }
    }
    assert emails[..|emails|] == emails;
  }

  /** The search for the anchor. */
  method Find(all: seq<Email>, id: Id) returns (i: nat)
    ensures i == IndexOf(all, id)
  {
    i := 0;
    while i < |all| && all[i].id != id
      invariant i <= IndexOf(all, id)
    {
      i := i + 1;
    }
  }

  /** The slice that is returned. */
  method Cut(matches: seq<Email>, position: nat, limit: nat) returns (r: Answer)
    ensures r == Window(matches, position, limit)
  {
    var start := if position < |matches| then position else |matches|;
    var end := if position + limit < |matches| then position + limit else |matches|;
    r := Page(EmailIds(matches[start..end]), position, |matches|);
  }

  /** `email_query`, its arguments already read from JSON. */
  method EmailQuery(accounts: set<Id>, emails: seq<Email>, q: Query) returns (r: Answer)
    ensures r == Serve(accounts, emails, q)
  {
    hide Passes, NewestFirst, Matching, Sort, IndexOf, Limit, Window, Wrap;
    if q.account !in accounts {
      return Rejected(AccountNotFound);
    }
    if q.position.Some? && q.position.value < 0 {
      return Rejected(NegativePosition);
    }
    if q.limit.Some? && q.limit.value < 0 {
      return Rejected(NegativeLimit);
    }
    var matches := Collect(emails, q.account, q.filter);
    matches := Sort(matches, NewestFirst);
    var position := if q.position.Some? then q.position.value else 0;
    if q.anchor.Some? {
      var i := Find(matches, q.anchor.value);
      if i == |matches| {
        return Rejected(AnchorNotFound);
      }
      var offset := if q.anchorOffset.Some? then q.anchorOffset.value else 0;
      var at := Wrap(i + offset);
      position := if at < 0 then 0 else at;
    }
    r := Cut(matches, position, Limit(q.limit));
  }

  // ----- The listing -----

  lemma NewestFirstOrders()
    ensures Ordering(NewestFirst)
  {
    hide LexLe;
    forall a, b
      ensures NewestFirst(a, b) || NewestFirst(b, a)
    {
      LexTotal(a.id, b.id);
    }
    forall a, b, c | NewestFirst(a, b) && NewestFirst(b, c)
      ensures NewestFirst(a, c)
    {
      if a.receivedAt == b.receivedAt == c.receivedAt {
        LexTransitive(a.id, b.id, c.id);
      }
    }
  }

  /** Two different emails of one store cannot tie. */
  lemma NoTiesAmongUnique(emails: seq<Email>)
    requires UniqueIds(emails)
    ensures NoTies(emails, NewestFirst)
  {
    hide LexLe;
    forall x, y | x in emails && y in emails && NewestFirst(x, y) && NewestFirst(y, x)
      ensures x == y
    {
      LexTotal(x.id, y.id);
      var i :| 0 <= i < |emails| && emails[i] == x;
      var j :| 0 <= j < |emails| && emails[j] == y;
    }
  }

  lemma {:induction false} MatchingUnique(emails: seq<Email>, account: Id, f: Filter)
    requires UniqueIds(emails)
    ensures UniqueIds(Matching(emails, account, f))
  {
    hide Passes;
    if emails != [] {
      MatchingUnique(emails[..|emails| - 1], account, f);
    }
  }

  lemma {:induction false} MatchingCount(emails: seq<Email>, account: Id, f: Filter, e: Email)
    ensures multiset(Matching(emails, account, f))[e] ==
            if e.account == account && Passes(f, e) then multiset(emails)[e] else 0
  {
    hide Passes;
    if emails != [] {
      MatchingCount(emails[..|emails| - 1], account, f, e);
      assert emails == emails[..|emails| - 1] + [emails[|emails| - 1]];
    }
  }

  lemma UniqueIsOfTheBag(a: seq<Email>, b: seq<Email>)
    requires multiset(a) == multiset(b) && UniqueIds(a)
    ensures UniqueIds(b)
  {
    forall i, j | 0 <= i < j < |b|
      ensures b[i].id != b[j].id
    {
      SameElements(a, b);
      assert b[i] in a && b[j] in a;
      var x :| 0 <= x < |a| && a[x] == b[i];
      var y :| 0 <= y < |a| && a[y] == b[j];
      if x == y {
        TwiceInBag(b, i, j);
        OnceInBag(a, x);
      }
    }
  }

  lemma TwiceInBag(s: seq<Email>, i: nat, j: nat)
    requires i < j < |s| && s[i] == s[j]
    ensures multiset(s)[s[i]] >= 2
  {
    assert s == s[..j] + [s[j]] + s[j + 1..];
    assert s[i] in s[..j];
    assert multiset(s) == multiset(s[..j]) + multiset{s[j]} + multiset(s[j + 1..]);
  }

  lemma OnceInBag(s: seq<Email>, i: nat)
    requires i < |s| && UniqueIds(s)
    ensures multiset(s)[s[i]] == 1
  {
    assert s == s[..i] + [s[i]] + s[i + 1..];
    assert s[i] !in s[..i] && s[i] !in s[i + 1..];
    assert multiset(s) == multiset(s[..i]) + multiset{s[i]} + multiset(s[i + 1..]);
  }

  /** The listing holds each email of the account once that is not older than `after`, older than `before`
      and in the mailbox asked for; newest first, and by id among equally old ones. */
  lemma ListingLaw(emails: seq<Email>, account: Id, f: Filter)
    requires UniqueIds(emails)
    ensures var all := Listing(emails, account, f);
            && UniqueIds(all) && Sorted(all, NewestFirst)
            && (forall e :: e in all <==>
                  && e in emails && e.account == account
                  && (f.after == None || e.receivedAt >= f.after.value)
                  && (f.before == None || e.receivedAt < f.before.value)
                  && (f.inMailbox == None || f.inMailbox.value in e.mailboxIds))
            && (forall i, j :: 0 <= i < j < |all| ==>
                  all[i].receivedAt > all[j].receivedAt || (all[i].receivedAt == all[j].receivedAt && LexLe(all[i].id, all[j].id)))
  {
    hide UniqueIds, Ordering, LexLe;
    var m := Matching(emails, account, f);
    MatchingUnique(emails, account, f);
    NewestFirstOrders();
    SortSorts(m, NewestFirst);
    UniqueIsOfTheBag(m, Sort(m, NewestFirst));
    SameElements(m, Sort(m, NewestFirst));
  }

  /** Answers do not depend on the order in which the store keeps its emails. */
  lemma StorageOrderIsInvisible(accounts: set<Id>, a: seq<Email>, b: seq<Email>, q: Query)
    requires UniqueIds(a) && multiset(a) == multiset(b)
    ensures Serve(accounts, a, q) == Serve(accounts, b, q)
  {
    hide Passes, NewestFirst, UniqueIds, Ordering, NoTies, Sorted;
    var m, n := Matching(a, q.account, q.filter), Matching(b, q.account, q.filter);
    forall e
      ensures multiset(m)[e] == multiset(n)[e]
    {
      MatchingCount(a, q.account, q.filter, e);
      MatchingCount(b, q.account, q.filter, e);
    }
    assert multiset(m) == multiset(n);
    UniqueIsOfTheBag(a, b);
    ListingLaw(a, q.account, q.filter);
    ListingLaw(b, q.account, q.filter);
    NoTiesAmongUnique(Listing(a, q.account, q.filter));
    SortedUnique(Listing(a, q.account, q.filter), Listing(b, q.account, q.filter), NewestFirst);
  }

  // ----- Which window is answered -----

  function Smaller(a: nat, b: nat): nat {
    if a < b then a else b
  }

  /** How many ids a page holds at most: what was asked for, 50 if nothing was, and never more than 256. */
  function Asked(limit: Option<I64>): nat
    requires limit.Some? ==> limit.value >= 0
  {
    if limit.None? then 50 else Smaller(limit.value, 256)
  }

  /** Without an anchor the page starts at the position asked for, at the head if none was. */
  lemma PageByPosition(accounts: set<Id>, emails: seq<Email>, q: Query)
    requires q.account in accounts && q.anchor.None?
    requires (q.position.Some? ==> q.position.value >= 0) && (q.limit.Some? ==> q.limit.value >= 0)
    ensures var all := Listing(emails, q.account, q.filter);
            var p, n := if q.position.None? then 0 else q.position.value, |all|;
            Serve(accounts, emails, q) == Page(EmailIds(all[Smaller(p, n)..Smaller(p + Asked(q.limit), n)]), p, n)
  {
    hide Listing;
  }

  /** With an anchor it starts at the anchor's place plus the offset, but not before the head, which is
      also where a sum past 63 bits lands; the position plays no part. */
  lemma PageByAnchor(accounts: set<Id>, emails: seq<Email>, q: Query, i: nat)
    requires UniqueIds(emails) && q.account in accounts
    requires (q.position.Some? ==> q.position.value >= 0) && (q.limit.Some? ==> q.limit.value >= 0)
    requires var all := Listing(emails, q.account, q.filter); i < |all| && q.anchor == Some(all[i].id)
    requires i <= I64_MAX
    ensures var all := Listing(emails, q.account, q.filter);
            var o, n := if q.anchorOffset.None? then 0 else q.anchorOffset.value, |all|;
            var p := if i + o < 0 || i + o > I64_MAX then 0 else i + o;
            Serve(accounts, emails, q) == Page(EmailIds(all[Smaller(p, n)..Smaller(p + Asked(q.limit), n)]), p, n)
  {
    hide Listing, UniqueIds, Start;
    ListingLaw(emails, q.account, q.filter);
    StartAtAnchor(Listing(emails, q.account, q.filter), q, i);
  }

  lemma StartAtAnchor(all: seq<Email>, q: Query, i: nat)
    requires UniqueIds(all) && i < |all| && i <= I64_MAX && q.anchor == Some(all[i].id)
    ensures var o := if q.anchorOffset.None? then 0 else q.anchorOffset.value;
            Start(all, q) == Some(if i + o < 0 || i + o > I64_MAX then 0 else i + o)
  {
    hide UniqueIds, IndexOf;
    IndexOfUnique(all, i);
  }

  /** The refusals, in the order in which they are looked for. */
  lemma Refusals(accounts: set<Id>, emails: seq<Email>, q: Query)
    ensures var r := Serve(accounts, emails, q);
            && (r == Rejected(AccountNotFound) <==> q.account !in accounts)
            && (r == Rejected(NegativePosition) <==> q.account in accounts && q.position.Some? && q.position.value < 0)
            && (r == Rejected(NegativeLimit) <==>
                  q.account in accounts && !(q.position.Some? && q.position.value < 0) && q.limit.Some? && q.limit.value < 0)
  {
    hide Listing;
  }

  // ----- The anchor walk -----

  /** The ids a client collects in at most `pages` requests: page one from the head, every later
      page anchored on the last id it was given with offset 1, stopping at an empty page. */
  function Walk(accounts: set<Id>, emails: seq<Email>, q: Query, pages: nat): seq<Id>
    decreases pages
  {
    if pages == 0 then [] else
      match Serve(accounts, emails, q)
      case Rejected(_) => []
      case Page(ids, _, _) =>
        if ids == [] then []
        else ids + Walk(accounts, emails, After(q, ids[|ids| - 1]), pages - 1)
  }

  /** The follow-up request for what comes after `id`. */
  function After(q: Query, id: Id): Query {
    q.(anchor := Some(id), anchorOffset := Some(1))
  }

  lemma WalkStep(accounts: set<Id>, emails: seq<Email>, q: Query, pages: nat, ids: seq<Id>, start: nat, total: nat)
    requires pages > 0 && Serve(accounts, emails, q) == Page(ids, start, total)
    ensures ids == [] ==> Walk(accounts, emails, q, pages) == []
    ensures ids != [] ==>
      Walk(accounts, emails, q, pages) == ids + Walk(accounts, emails, After(q, ids[|ids| - 1]), pages - 1)
  {
    hide Serve;
  }

  /** How many ids `pages` full pages hold. */
  function Quota(pages: nat, q: Query): nat {
    pages * Limit(q.limit)
  }

  /** One more page carries the walk from `start` to `to`. */
  lemma ReachStep(start: nat, pages: nat, q: Query, total: nat)
    requires pages > 0 && Limit(q.limit) > 0 && start <= total
    ensures var to := Capped(start + Limit(q.limit), total);
            && start <= to <= Capped(start + Quota(pages, q), total) == Capped(to + Quota(pages - 1, q), total)
            && (start < total ==> start < to)
            && forall id :: Quota(pages - 1, After(q, id)) == Quota(pages - 1, q)
  {
    assert pages * Limit(q.limit) == Limit(q.limit) + (pages - 1) * Limit(q.limit);
    assert (pages - 1) * Limit(q.limit) >= 0;
  }

  lemma IndexOfUnique(all: seq<Email>, i: nat)
    requires UniqueIds(all) && i < |all|
    ensures IndexOf(all, all[i].id) == i
  {
  }

  /** A request whose window starts at `start` returns the next `limit` ids. */
  lemma PageAt(accounts: set<Id>, emails: seq<Email>, q: Query, start: nat)
    requires q.account in accounts && (q.position.Some? ==> q.position.value >= 0) && (q.limit.Some? ==> q.limit.value >= 0)
    requires var all := Listing(emails, q.account, q.filter); start <= |all| && Start(all, q) == Some(start)
    ensures var all := Listing(emails, q.account, q.filter);
            Serve(accounts, emails, q) == Page(EmailIds(all)[start..Capped(start + Limit(q.limit), |all|)], start, |all|)
  {
    hide Listing;
    var all := Listing(emails, q.account, q.filter);
    var to := Capped(start + Limit(q.limit), |all|);
    assert EmailIds(all[start..to]) == EmailIds(all)[start..to];
  }

  lemma {:induction false} WalkFrom(accounts: set<Id>, emails: seq<Email>, q: Query, pages: nat, start: nat, reach: nat)
    requires UniqueIds(emails) && |emails| <= I64_MAX && q.account in accounts
    requires (q.position.Some? ==> q.position.value >= 0) && (q.limit.Some? ==> q.limit.value >= 1)
    requires reach == start + Quota(pages, q)
    requires var all := Listing(emails, q.account, q.filter); start <= |all| && Start(all, q) == Some(start)
    ensures var ids := EmailIds(Listing(emails, q.account, q.filter));
            start <= Capped(reach, |ids|) && Walk(accounts, emails, q, pages) == ids[start..Capped(reach, |ids|)]
    decreases pages
  {
    hide Listing, UniqueIds, Serve, IndexOf, Limit, Capped, Walk, Quota, Start, Distinct;
    var all, limit := Listing(emails, q.account, q.filter), Limit(q.limit);
    var ids := EmailIds(all);
    if pages == 0 {
      NoPages(accounts, emails, q, start, |all|);
      assert ids[start..start] == [];
    } else {
      LimitIsPositive(q);
      PageAt(accounts, emails, q, start);
      var to := Capped(start + limit, |all|);
      ReachStep(start, pages, q, |all|);
      WalkStep(accounts, emails, q, pages, ids[start..to], start, |all|);
      if start < |all| {
        LastOfSlice(ids, start, to);
        StartAfterListed(emails, q, to - 1);
        WalkFrom(accounts, emails, After(q, ids[to - 1]), pages - 1, to, to + Quota(pages - 1, q));
        SlicesJoin(ids, start, to, Capped(reach, |all|));
      }
    }
  }

  lemma LastOfSlice(ids: seq<Id>, from: nat, to: nat)
    requires from < to <= |ids|
    ensures ids[from..to] != [] && ids[from..to][to - from - 1] == ids[to - 1]
  {
  }

  lemma SlicesJoin(ids: seq<Id>, from: nat, mid: nat, to: nat)
    requires from <= mid <= to <= |ids|
    ensures ids[from..mid] + ids[mid..to] == ids[from..to]
  {
  }

  lemma NoPages(accounts: set<Id>, emails: seq<Email>, q: Query, start: nat, total: nat)
    requires start <= total
    ensures Walk(accounts, emails, q, 0) == [] && Capped(start + Quota(0, q), total) == start
  {
  }

  lemma ListingFits(emails: seq<Email>, account: Id, f: Filter)
    ensures |Listing(emails, account, f)| <= |emails|
  {
    hide Passes;
    MatchingFits(emails, account, f);
  }

  lemma {:induction false} MatchingFits(emails: seq<Email>, account: Id, f: Filter)
    ensures |Matching(emails, account, f)| <= |emails|
  {
    hide Passes;
    if emails != [] {
      MatchingFits(emails[..|emails| - 1], account, f);
    }
  }

  lemma StartAfter(all: seq<Email>, q: Query, i: nat)
    requires UniqueIds(all) && i < |all| <= I64_MAX
    ensures Start(all, After(q, all[i].id)) == Some(i + 1)
  {
    IndexOfUnique(all, i);
  }

  lemma StartAfterListed(emails: seq<Email>, q: Query, i: nat)
    requires UniqueIds(emails) && |emails| <= I64_MAX && i < |Listing(emails, q.account, q.filter)|
    ensures var all := Listing(emails, q.account, q.filter); Start(all, After(q, EmailIds(all)[i])) == Some(i + 1)
  {
    hide Listing, UniqueIds, Start;
    ListingLaw(emails, q.account, q.filter);
    ListingFits(emails, q.account, q.filter);
    StartAfter(Listing(emails, q.account, q.filter), q, i);
  }

  lemma LimitIsPositive(q: Query)
    requires q.limit.Some? ==> q.limit.value >= 1
    ensures Limit(q.limit) >= 1
  {
  }

  /** The anchor walk enumerates. With unique ids and a limit of at least one, `pages` requests from the head
      yield exactly the first `pages * limit` ids of the listing; so the whole list, each email
      once, as soon as that product reaches its length, and the page after the last id is empty. */
  lemma WalkEnumerates(accounts: set<Id>, emails: seq<Email>, q: Query, pages: nat)
    requires UniqueIds(emails) && |emails| <= I64_MAX && q.account in accounts
    requires (q.position.Some? ==> q.position.value == 0) && q.anchor.None? && (q.limit.Some? ==> q.limit.value >= 1)
    ensures var ids := EmailIds(Listing(emails, q.account, q.filter));
            && Walk(accounts, emails, q, pages) == ids[..Capped(Quota(pages, q), |ids|)]
            && (Quota(pages, q) >= |ids| ==> Walk(accounts, emails, q, pages) == ids)
            && Distinct(ids)
            && (ids != [] ==>
                 Serve(accounts, emails, After(q, ids[|ids| - 1])) == Page([], |ids|, |ids|))
  {
    hide Listing, Serve, UniqueIds, Capped, Quota, Walk, IndexOf;
    var all := Listing(emails, q.account, q.filter);
    var ids := EmailIds(all);
    ListingLaw(emails, q.account, q.filter);
    ListingFits(emails, q.account, q.filter);
    WalkFrom(accounts, emails, q, pages, 0, Quota(pages, q));
    IdsDistinct(all);
    CappedAbove(Quota(pages, q), |all|);
    if ids != [] {
      StartAfter(all, q, |all| - 1);
      PageAt(accounts, emails, After(q, ids[|ids| - 1]), |all|);
      CappedAbove(|all| + Limit(q.limit), |all|);
    }
  }

  lemma CappedAbove(n: nat, total: nat)
    ensures n >= total ==> Capped(n, total) == total
  {
  }

  lemma IdsDistinct(all: seq<Email>)
    requires UniqueIds(all)
    ensures Distinct(EmailIds(all))
  {
  }

  /** An anchor is refused exactly when it is not in the result set: never a silent first page. */
  lemma UnknownAnchorRejected(accounts: set<Id>, emails: seq<Email>, q: Query)
    requires q.account in accounts && q.anchor.Some?
    requires (q.position.Some? ==> q.position.value >= 0) && (q.limit.Some? ==> q.limit.value >= 0)
    ensures Serve(accounts, emails, q) == Rejected(AnchorNotFound) <==>
            !exists e :: e in emails && e.account == q.account && Passes(q.filter, e) && e.id == q.anchor.value
  {
    hide Passes, NewestFirst;
    var m := Matching(emails, q.account, q.filter);
    var all := Listing(emails, q.account, q.filter);
    SameElements(m, all);
    var i := IndexOf(all, q.anchor.value);
    if i < |all| {
      assert all[i] in m;
    } else {
      forall e | e in emails && e.account == q.account && Passes(q.filter, e)
        ensures e.id != q.anchor.value
      {
        assert e in all;
      }
    }
  }
}
