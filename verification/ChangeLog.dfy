/** The per-account change log: a counter, a state token and a ring of the last 256 transitions.
    The ghost field `history` is the log that never forgets; every contract below says which
    part of it the ring can still answer for. */
module ChangeLogs {
  import opened Basics
  import opened Dominance
  import opened Tokens
  import Decimal

  /** The ids one mutation touched. `sidecar` runs parallel to `destroyed`: the owning account
      of a destroyed email or mailbox, the parent folder of a destroyed contact. */
  datatype Touched = Touched(created: seq<Id>, updated: seq<Id>, destroyed: seq<Id>, sidecar: seq<Id>)

  const UNTOUCHED := Touched([], [], [], [])

  datatype AclRef = AclRef(mailboxId: Id, identifier: Id, owner: Id)

  datatype Diff = Diff(email: Touched, mailbox: Touched, contact: Touched,
                       granted: seq<AclRef>, revoked: seq<AclRef>)

  const EMPTY_DIFF := Diff(UNTOUCHED, UNTOUCHED, UNTOUCHED, [], [])

  predicate NothingTouched(t: Touched) {
    t.created == [] && t.updated == [] && t.destroyed == []
  }

  predicate IsEmpty(d: Diff) {
    && NothingTouched(d.email) && NothingTouched(d.mailbox) && NothingTouched(d.contact)
    && d.granted == [] && d.revoked == []
  }

  datatype Transition = Transition(from: string, to: string, diff: Diff)

  datatype Kind = EmailKind | MailboxKind | ContactKind

  function Pick(d: Diff, kind: Kind): Touched {
    match kind
    case EmailKind => d.email
    case MailboxKind => d.mailbox
    case ContactKind => d.contact
  }

  /** Which id list of a transition a walker accumulates. */
  datatype Part = Created | Updated | Destroyed | DestroyedUnder(parent: Id)

  function Ids(t: Touched, part: Part): seq<Id> {
    match part
    case Created => t.created
    case Updated => t.updated
    case Destroyed => t.destroyed
    case DestroyedUnder(parent) =>
      if |t.sidecar| == |t.destroyed| then Under(t.destroyed, t.sidecar, parent) else []
  }

  /** The destroyed ids whose recorded parent is `parent`. */
  function Under(ids: seq<Id>, parents: seq<Id>, parent: Id): (r: seq<Id>)
    requires |ids| == |parents|
    ensures forall x :: x in r <==> exists i :: 0 <= i < |ids| && ids[i] == x && parents[i] == parent
  {
    if ids == [] then [] else
      var n := |ids| - 1;
      var front := Under(ids[..n], parents[..n], parent);
      if parents[n] == parent then front + [ids[n]] else front
  }

  /** One part of every diff of a history, oldest first. */
  function Gather(hist: seq<Diff>, kind: Kind, part: Part): seq<Id> {
    if hist == [] then []
    else Gather(hist[..|hist| - 1], kind, part) + Ids(Pick(hist[|hist| - 1], kind), part)
  }

  lemma GatherStep(hist: seq<Diff>, from: nat, to: nat, kind: Kind, part: Part)
    requires from <= to < |hist|
    ensures Gather(hist[from..to + 1], kind, part) ==
            Gather(hist[from..to], kind, part) + Ids(Pick(hist[to], kind), part)
  {
    var next := hist[from..to + 1];
    assert next[..|next| - 1] == hist[from..to];
  }

  lemma GatherNothing(kind: Kind)
    ensures forall part: Part :: Gather([], kind, part) == []
  {
  }

  const MAX_TRANSITIONS: nat := 256

  /** Counter of the oldest state the ring can still start from. */
  function First(hist: seq<Diff>): (n: nat)
    ensures n <= |hist|
  {
    if |hist| > MAX_TRANSITIONS then |hist| - MAX_TRANSITIONS else 0
  }

  /** The counters a client may ask about: the seed for ever, later ones until evicted. */
  predicate Resolves(hist: seq<Diff>, n: nat) {
    n <= |hist| && (n == 0 || First(hist) <= n)
  }

  /** The retained diffs recorded after counter `n`. */
  function Window(hist: seq<Diff>, n: nat): seq<Diff>
    requires Resolves(hist, n)
  {
    if n < First(hist) then hist[First(hist)..] else hist[n..]
  }

  function FoldWindow(w: seq<Diff>, kind: Kind, gone: Part): DeltaSet {
    Fold(Gather(w, kind, Created), Gather(w, kind, Updated), Gather(w, kind, gone))
  }

  function DeltaFrom(hist: seq<Diff>, n: nat, kind: Kind, gone: Part): Option<DeltaSet> {
    if Resolves(hist, n) then Some(FoldWindow(Window(hist, n), kind, gone)) else None
  }

  /** The three outcomes of the walk, by where counter `n` lies. */
  lemma DeltaCases(hist: seq<Diff>, n: nat, kind: Kind, gone: Part)
    requires n <= |hist|
    ensures n == |hist| ==> DeltaFrom(hist, n, kind, gone) == Some(EMPTY_DELTA)
    ensures 0 < n < First(hist) ==> DeltaFrom(hist, n, kind, gone) == None
    ensures n == 0 ==> DeltaFrom(hist, n, kind, gone) == Some(FoldWindow(hist[First(hist)..|hist|], kind, gone))
    ensures First(hist) <= n ==> DeltaFrom(hist, n, kind, gone) == Some(FoldWindow(hist[n..|hist|], kind, gone))
  {
    GatherNothing(kind);
    FoldNothing();
    assert hist[First(hist)..|hist|] == hist[First(hist)..];
    assert hist[n..|hist|] == hist[n..];
  }

  lemma FoldWindowIs(w: seq<Diff>, kind: Kind, gone: Part)
    ensures FoldWindow(w, kind, gone) ==
            Fold(Gather(w, kind, Created), Gather(w, kind, Updated), Gather(w, kind, gone))
  {
  }

  /** The counter a token names among those the log has reached. */
  ghost function Asked(seed: string, hist: seq<Diff>, since: string): (r: Option<nat>)
    ensures r.Some? ==> r.value <= |hist| && since == Token(seed, r.value)
    ensures r.None? ==> forall n: nat :: n <= |hist| ==> since != Token(seed, n)
  {
    if exists n: nat :: n <= |hist| && since == Token(seed, n)
    then var n: nat :| n <= |hist| && since == Token(seed, n); Some(n)
    else None
  }

  /** The answer a client holding the text `since` is owed: the delta from the counter it names,
      "cannot calculate" when it names none or one that was evicted. */
  ghost function Answer(seed: string, hist: seq<Diff>, since: string, kind: Kind, gone: Part): Option<DeltaSet> {
    match Asked(seed, hist, since)
    case None => None
    case Some(n) => DeltaFrom(hist, n, kind, gone)
  }

  lemma AnswerToToken(seed: string, hist: seq<Diff>, n: nat, kind: Kind, gone: Part)
    requires n <= |hist|
    ensures Answer(seed, hist, Token(seed, n), kind, gone) == DeltaFrom(hist, n, kind, gone)
  {
    hide Token, DeltaFrom;
    var asked := Asked(seed, hist, Token(seed, n));
    TokenInjective(seed, asked.value, n);
  }

  predicate Touches(d: Diff, id: Id) {
    id in d.email.created || id in d.email.updated
  }

  /** Counter of the last diff at or after `lo` that created or updated `id`; 0 if none did. */
  function LastTouch(hist: seq<Diff>, lo: nat, id: Id): (n: nat)
    ensures n == 0 || (lo < n <= |hist| && Touches(hist[n - 1], id))
    ensures forall i :: lo <= i < |hist| && Touches(hist[i], id) ==> i < n
  {
    if |hist| <= lo then 0
    else if Touches(hist[|hist| - 1], id) then |hist|
    else
      LastTouch(hist[..|hist| - 1], lo, id)
  }

  lemma LastTouchStep(hist: seq<Diff>, lo: nat, to: nat, id: Id)
    requires lo <= to <= |hist|
    ensures LastTouch(hist[..lo], lo, id) == 0
    ensures LastTouch(hist[..to], lo, id) <= to
    ensures to < |hist| ==>
      LastTouch(hist[..to + 1], lo, id) == (if Touches(hist[to], id) then to + 1 else LastTouch(hist[..to], lo, id))
  {
    if to < |hist| {
      var next := hist[..to + 1];
      assert next[..|next| - 1] == hist[..to];
    }
  }

  function Modseq(hist: seq<Diff>, id: Id): nat {
    LastTouch(hist, First(hist), id) + 1
  }

  datatype GmailRecord = GmailRecord(id: nat, messagesAdded: seq<Id>, messagesDeleted: seq<Id>)

  datatype GmailHistory = Unknown | Delta(records: seq<GmailRecord>, historyId: nat)

  function Records(hist: seq<Diff>, lo: nat): (r: seq<GmailRecord>)
    requires lo <= |hist|
    ensures |r| == |hist| - lo
    ensures forall i :: 0 <= i < |r| ==>
      r[i] == GmailRecord(lo + i + 2, hist[lo + i].email.created, hist[lo + i].email.destroyed)
  {
    seq(|hist| - lo, i requires 0 <= i < |hist| - lo =>
      GmailRecord(lo + i + 2, hist[lo + i].email.created, hist[lo + i].email.destroyed))
  }

  /** `history.list` from a reported id, for an account with this history. */
  function GmailFrom(hist: seq<Diff>, start: nat): GmailHistory {
    var n := if start == 0 then 0 else start - 1;
    if n >= |hist| then Delta([], |hist| + 1)
    else if n < First(hist) then Unknown
    else Delta(Records(hist, n), |hist| + 1)
  }

  /** The same for an account that was never mutated: anything newer than the seed is unknown. */
  function GmailUnstarted(start: nat): GmailHistory {
    if start <= 1 then Delta([], 1) else Unknown
  }

  class ChangeLog {
    var transitions: seq<Transition>
    var counter: nat
    var seed: string
    var state: string
    ghost var history: seq<Diff>

    ghost predicate Valid()
      reads this
    {
      && counter == |history| <= U64_MAX
      && state == Token(seed, counter)
      && |transitions| == |history| - First(history)
      && (forall i :: 0 <= i < |transitions| ==>
            && transitions[i].from == Token(seed, First(history) + i)
            && transitions[i].to == Token(seed, First(history) + i + 1))
      && forall i :: 0 <= i < |transitions| ==> transitions[i].diff == history[First(history) + i]
    }

    constructor (seedState: string)
      ensures Valid() && seed == seedState && history == []
    {
      transitions, counter, seed, state := [], 0, seedState, seedState;
      history := [];
    }

    method Advance() returns (from: string, to: string)
      requires counter < U64_MAX
      modifies this`counter, this`state
      ensures from == old(state) && to == state
      ensures counter == old(counter) + 1 && state == Token(seed, counter)
    {
      from := state;
      counter := counter + 1;
      state := seed + "." + Decimal.Print(counter);
      to := state;
    }

    method Push(trans: Transition)
      modifies this`transitions
      ensures transitions ==
              (if old(|transitions|) >= MAX_TRANSITIONS then old(transitions)[1..] else old(transitions)) + [trans]
    {
      if |transitions| >= MAX_TRANSITIONS {
        transitions := transitions[1..];
      }
      transitions := transitions + [trans];
    }

    /** One recorded mutation: advance the token, then push the transition between the two. */
    method Record(diff: Diff)
      requires Valid() && counter < U64_MAX
      modifies this
      ensures Valid() && seed == old(seed)
      ensures history == old(history) + [diff]
    {
      hide Token;
      var from, to := Advance();
      Push(Transition(from, to, diff));
      history := history + [diff];
    }

    method ModseqForEmail(id: Id) returns (m: nat)
      requires Valid()
      ensures m == Modseq(history, id)
    {
      hide Token, CounterOfState, LastTouch;
      var best := 0;
      ghost var lo := First(history);
      LastTouchStep(history, lo, lo, id);
      for i := 0 to |transitions|
        invariant best == LastTouch(history[..lo + i], lo, id)
      {
        var t := transitions[i];
        LastTouchStep(history, lo, lo + i, id);
        if id in t.diff.email.created || id in t.diff.email.updated {
          CounterOfMintedToken(seed, lo + i + 1);
          var n := CounterOfState(t.to);
          best := if n > best then n else best;
        }
      }
      assert history[..lo + |transitions|] == history;
      m := best + 1;
    }

    /** What the comparisons of the walk say about a token that names a known counter. */
    lemma Located(since: string, n: nat)
      requires Valid() && n <= |history| && since == Token(seed, n)
      ensures since == state <==> n == |history|
      ensures since == seed <==> n == 0
      ensures forall i :: 0 <= i < |transitions| ==> (transitions[i].from == since <==> First(history) + i == n)
      ensures First(history) <= n < |history| ==> exists i :: 0 <= i < |transitions| && transitions[i].from == since
    {
      hide Token;
      TokenZero(seed);
      TokenInjective(seed, n, |history|);
      TokenInjective(seed, n, 0);
      forall i | 0 <= i < |transitions|
        ensures transitions[i].from == since <==> First(history) + i == n
      {
        TokenInjective(seed, n, First(history) + i);
      }
      assert First(history) <= n < |history| ==> transitions[n - First(history)].from == since;
    }

    /** A token that names no counter of this log equals nothing the walk compares it with. */
    lemma Unlocated(since: string)
      requires Valid() && Asked(seed, history, since) == None
      ensures since != state && since != seed
      ensures forall i :: 0 <= i < |transitions| ==> transitions[i].from != since
    {
      hide Token;
      TokenZero(seed);
    }

    /** The walk both delta functions share; `gone` says which destroyed ids count. */
    method Walk(since: string, kind: Kind, gone: Part) returns (r: Option<DeltaSet>)
      requires Valid()
      ensures r == Answer(seed, history, since, kind, gone)
    {
      hide Token, Gather, Fold, Asked, DeltaFrom, FoldWindow, ChangeLog.Valid;
      ghost var asked := Asked(seed, history, since);
      if asked.Some? {
        Located(since, asked.value);
        DeltaCases(history, asked.value, kind, gone);
      } else {
        Unlocated(since);
      }
      if since == state {
        return Some(EMPTY_DELTA);
      }
      var seedKnown := since == seed;
      var headKnown := exists i :: 0 <= i < |transitions| && transitions[i].from == since;
      if !seedKnown && !headKnown {
        return None;
      }
      ghost var s := if seedKnown then 0 else asked.value - First(history);
      var created, updated, destroyed := AccumulateFrom(since, seedKnown, kind, gone, s);
      var c, u, d := ApplyDominanceAndDedup(created, updated, destroyed);
      r := Some(DeltaSet(c, u, d));
      FoldWindowIs(history[First(history) + s..|history|], kind, gone);
    }

    /** The loop of the walk: skip to the transition that starts at `since`, then collect. */
    method AccumulateFrom(since: string, seedKnown: bool, kind: Kind, gone: Part, ghost s: nat)
        returns (created: seq<Id>, updated: seq<Id>, destroyed: seq<Id>)
      requires Valid()
      requires seedKnown ==> s == 0
      requires !seedKnown ==> s < |transitions| && transitions[s].from == since
      requires !seedKnown ==> forall i :: 0 <= i < |transitions| && transitions[i].from == since ==> i == s
      ensures var w := history[First(history) + s..|history|];
              && created == Gather(w, kind, Created)
              && updated == Gather(w, kind, Updated)
              && destroyed == Gather(w, kind, gone)
    {
      hide Token, Ids, Pick, Gather;
      var started := seedKnown;
      created, updated, destroyed := [], [], [];
      ghost var lo := First(history);
      ghost var from := lo + s;
      GatherNothing(kind);
      for i := 0 to |transitions|
        invariant started <==> seedKnown || i > s
        invariant var w := if i <= s then [] else history[from..lo + i];
                  && created == Gather(w, kind, Created)
                  && updated == Gather(w, kind, Updated)
                  && destroyed == Gather(w, kind, gone)
      {
        var t := transitions[i];
        if !started {
          if t.from == since {
            started := true;
          } else {
            continue;
          }
        }
        var touched := Pick(t.diff, kind);
        assert i <= s ==> history[from..lo + i] == [];
        GatherStep(history, from, lo + i, kind, Created);
        GatherStep(history, from, lo + i, kind, Updated);
        GatherStep(history, from, lo + i, kind, gone);
        created := created + Ids(touched, Created);
        updated := updated + Ids(touched, Updated);
        destroyed := destroyed + Ids(touched, gone);
      }
    }

    method DeltaSince(since: string, kind: Kind) returns (r: Option<DeltaSet>)
      requires Valid()
      ensures r == Answer(seed, history, since, kind, Destroyed)
    {
      r := Walk(since, kind, Destroyed);
    }

    method DeltaSinceFilteredDestroys(since: string, kind: Kind, parent: Id) returns (r: Option<DeltaSet>)
      requires Valid()
      ensures r == Answer(seed, history, since, kind, DestroyedUnder(parent))
    {
      r := Walk(since, kind, DestroyedUnder(parent));
    }

    method GmailHistorySince(reported: nat) returns (r: GmailHistory)
      requires Valid()
      ensures r == GmailFrom(history, reported)
    {
      hide Token;
      var start := if reported == 0 then 0 else reported - 1;
      var current := counter;
      if start >= current {
        return Delta([], current + 1);
      }
      assert current >= |transitions|;
      var frontFrom := current - |transitions|;
      if start < frontFrom {
        return Unknown;
      }
      var records: seq<GmailRecord> := [];
      for j := 0 to |transitions|
        invariant |records| == if frontFrom + j > start then frontFrom + j - start else 0
        invariant forall i :: 0 <= i < |records| ==> records[i] == Records(history, start)[i]
      {
        var toCounter := frontFrom + 1 + j;
        if toCounter <= start {
          continue;
        }
        var d := transitions[j].diff;
        records := records + [GmailRecord(toCounter + 1, d.email.created, d.email.destroyed)];
      }
      assert records == Records(history, start);
      r := Delta(records, current + 1);
    }
  }

  /** The ring of every reachable log is the tail of one unbroken chain: each retained transition
      starts where its predecessor ended, the i-th one ends at counter - len + 1 + i, the last one
      ends at the current state, and so `counter - len` cannot underflow. */
  lemma RingChain(log: ChangeLog)
    requires log.Valid()
    ensures |log.transitions| == if log.counter < 256 then log.counter else 256
    ensures forall i :: 0 <= i < |log.transitions| ==>
              CounterOfState(log.transitions[i].to) == log.counter - |log.transitions| + 1 + i
    ensures forall i :: 0 < i < |log.transitions| ==>
              log.transitions[i].from == log.transitions[i - 1].to
    ensures log.transitions != [] ==> log.transitions[|log.transitions| - 1].to == log.state
    ensures log.counter <= MAX_TRANSITIONS && log.transitions != [] ==> log.transitions[0].from == log.seed
  {
    hide Token, CounterOfState;
    TokenZero(log.seed);
    forall i | 0 <= i < |log.transitions|
      ensures CounterOfState(log.transitions[i].to) == log.counter - |log.transitions| + 1 + i
    {
      CounterOfMintedToken(log.seed, First(log.history) + i + 1);
    }
  }
}
