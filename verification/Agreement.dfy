/** Three protocols read the same ring in three ways: JMAP folds the diffs after a token, IMAP
    CONDSTORE compares a per-message maximum, Gmail lists the transitions one by one. This module
    proves that they tell a client the same story, and where eviction makes them stop. */
module Agreement {
  import opened Basics
  import opened Dominance
  import opened ChangeLogs

  lemma {:induction false} GatherMember(hist: seq<Diff>, kind: Kind, part: Part, id: Id)
    ensures id in Gather(hist, kind, part) <==>
            exists i :: 0 <= i < |hist| && id in Ids(Pick(hist[i], kind), part)
  {
    hide Ids, Pick;
    if hist != [] {
      var front := hist[..|hist| - 1];
      GatherMember(front, kind, part, id);
      assert forall i :: 0 <= i < |front| ==> front[i] == hist[i];
    }
  }

  /** What the lists of a window hold, for each kind of object; a contact tombstone counts for a folder
      only where the parents were recorded alongside. */
  lemma GatherMeaning(w: seq<Diff>, id: Id, folder: Id)
    ensures id in Gather(w, EmailKind, Created) <==> exists i :: 0 <= i < |w| && id in w[i].email.created
    ensures id in Gather(w, EmailKind, Updated) <==> exists i :: 0 <= i < |w| && id in w[i].email.updated
    ensures id in Gather(w, EmailKind, Destroyed) <==> exists i :: 0 <= i < |w| && id in w[i].email.destroyed
    ensures id in Gather(w, MailboxKind, Created) <==> exists i :: 0 <= i < |w| && id in w[i].mailbox.created
    ensures id in Gather(w, MailboxKind, Updated) <==> exists i :: 0 <= i < |w| && id in w[i].mailbox.updated
    ensures id in Gather(w, MailboxKind, Destroyed) <==> exists i :: 0 <= i < |w| && id in w[i].mailbox.destroyed
    ensures id in Gather(w, ContactKind, Created) <==> exists i :: 0 <= i < |w| && id in w[i].contact.created
    ensures id in Gather(w, ContactKind, Updated) <==> exists i :: 0 <= i < |w| && id in w[i].contact.updated
    ensures id in Gather(w, ContactKind, Destroyed) <==> exists i :: 0 <= i < |w| && id in w[i].contact.destroyed
    ensures id in Gather(w, ContactKind, DestroyedUnder(folder)) <==> exists i :: 0 <= i < |w| && TombOf(w[i].contact, folder, id)
  {
    hide Gather, TombOf;
    GatherMember(w, EmailKind, Created, id);
    GatherMember(w, EmailKind, Updated, id);
    GatherMember(w, EmailKind, Destroyed, id);
    GatherMember(w, MailboxKind, Created, id);
    GatherMember(w, MailboxKind, Updated, id);
    GatherMember(w, MailboxKind, Destroyed, id);
    GatherMember(w, ContactKind, Created, id);
    GatherMember(w, ContactKind, Updated, id);
    GatherMember(w, ContactKind, Destroyed, id);
    GatherMember(w, ContactKind, DestroyedUnder(folder), id);
    forall i | 0 <= i < |w|
      ensures id in Ids(Pick(w[i], ContactKind), DestroyedUnder(folder)) <==> TombOf(w[i].contact, folder, id)
    {
      UnderIsTomb(w[i].contact, folder, id);
    }
  }

  ghost predicate TombOf(t: Touched, folder: Id, id: Id) {
    exists j :: 0 <= j < |t.destroyed| == |t.sidecar| && t.destroyed[j] == id && t.sidecar[j] == folder
  }

  lemma UnderIsTomb(t: Touched, folder: Id, id: Id)
    ensures id in Ids(t, DestroyedUnder(folder)) <==> TombOf(t, folder, id)
  {
  }

  /** Whether the window after counter `n` created or updated `id`. */
  ghost predicate TouchedAfter(hist: seq<Diff>, n: nat, id: Id) {
    exists i :: n <= i < |hist| && Touches(hist[i], id)
  }

  lemma TouchedInWindow(hist: seq<Diff>, n: nat, id: Id)
    requires Resolves(hist, n)
    ensures var w := Window(hist, n);
            id in Gather(w, EmailKind, Created) || id in Gather(w, EmailKind, Updated)
            <==> TouchedAfter(hist, if n < First(hist) then First(hist) else n, id)
  {
    hide Gather;
    var w := Window(hist, n);
    var lo := if n < First(hist) then First(hist) else n;
    GatherMember(w, EmailKind, Created, id);
    GatherMember(w, EmailKind, Updated, id);
    assert forall i :: 0 <= i < |w| ==> w[i] == hist[lo + i];
    assert forall i :: lo <= i < |hist| ==> hist[i] == w[i - lo];
  }

  /** `CHANGEDSINCE n+1` on an email asks whether a retained transition after counter `n` touched it. */
  lemma ModseqReadsTheWindow(hist: seq<Diff>, n: nat, id: Id)
    ensures Modseq(hist, id) > n + 1 <==> TouchedAfter(hist, if n < First(hist) then First(hist) else n, id)
  {
    hide LastTouch, Touches;
    var lo, last := First(hist), LastTouch(hist, First(hist), id);
    if last > n {
      assert Touches(hist[last - 1], id);
    }
  }

  /** IMAP and JMAP agree (section 3.1.4.1 of RFC 7162, section 5.2 of RFC 8620): whenever the
      email delta from counter `n` resolves, an email that was not destroyed in the window passes
      `CHANGEDSINCE n+1` exactly when the delta reports it as created or updated. */
  lemma ChangedSinceAgreesWithDelta(hist: seq<Diff>, n: nat, id: Id)
    requires Resolves(hist, n)
    requires id !in Gather(Window(hist, n), EmailKind, Destroyed)
    ensures var delta := DeltaFrom(hist, n, EmailKind, Destroyed).value;
            Modseq(hist, id) > n + 1 <==> id in delta.created || id in delta.updated
  {
    hide Gather, Modseq, Fold;
    var w := Window(hist, n);
    TouchedInWindow(hist, n, id);
    ModseqReadsTheWindow(hist, n, id);
    var c, u, d := Gather(w, EmailKind, Created), Gather(w, EmailKind, Updated), Gather(w, EmailKind, Destroyed);
    FoldSets(c, u, d);
    assert id in Fold(c, u, d).created <==> id in Elems(Fold(c, u, d).created);
    assert id in Fold(c, u, d).updated <==> id in Elems(Fold(c, u, d).updated);
  }

  /** No MODSEQ exceeds HIGHESTMODSEQ, which is the counter plus one. */
  lemma ModseqBound(hist: seq<Diff>, id: Id)
    ensures 1 <= Modseq(hist, id) <= |hist| + 1
  {
  }

  /** A client that cached HIGHESTMODSEQ at counter `n` and asks `CHANGEDSINCE` with it is told of
      every change since, unless the ring outran it: a change since `n` goes unreported exactly
      when it and every later change to the same email were evicted. */
  lemma ChangedSinceMissesOnlyEvicted(hist: seq<Diff>, n: nat, id: Id)
    requires TouchedAfter(hist, n, id)
    ensures Modseq(hist, id) <= n + 1 <==> n < First(hist) && !TouchedAfter(hist, First(hist), id)
  {
    hide Touches, Modseq;
    ModseqReadsTheWindow(hist, n, id);
  }

  /** The source calls that case harmless. It is not: after 257 changes, a client that synced before
      the first one asks `CHANGEDSINCE 1` and is not told that "m" changed. */
  lemma EvictedChangeIsSkipped(others: seq<Diff>)
    requires |others| == MAX_TRANSITIONS && forall i :: 0 <= i < |others| ==> !Touches(others[i], "m")
    ensures var first := EMPTY_DIFF.(email := UNTOUCHED.(updated := ["m"]));
            TouchedAfter([first] + others, 0, "m") && Modseq([first] + others, "m") == 1
  {
    var first := EMPTY_DIFF.(email := UNTOUCHED.(updated := ["m"]));
    var hist := [first] + others;
    assert Touches(first, "m") by {
      assert "m" in first.email.updated;
    }
    assert Touches(hist[0], "m");
    hide Touches, Modseq;
    assert forall i :: 1 <= i < |hist| ==> hist[i] == others[i - 1];
    ChangedSinceMissesOnlyEvicted(hist, 0, "m");
    ModseqBound(hist, "m");
  }

  // ----- Gmail -----

  function Added(records: seq<GmailRecord>): seq<Id> {
    if records == [] then [] else Added(records[..|records| - 1]) + records[|records| - 1].messagesAdded
  }

  function Deleted(records: seq<GmailRecord>): seq<Id> {
    if records == [] then [] else Deleted(records[..|records| - 1]) + records[|records| - 1].messagesDeleted
  }

  lemma {:induction false} RecordsGather(hist: seq<Diff>, n: nat)
    requires n <= |hist|
    ensures Added(Records(hist, n)) == Gather(hist[n..], EmailKind, Created)
    ensures Deleted(Records(hist, n)) == Gather(hist[n..], EmailKind, Destroyed)
    decreases |hist|
  {
    if n < |hist| {
      var front := hist[..|hist| - 1];
      RecordsGather(front, n);
      var r := Records(hist, n);
      assert r[..|r| - 1] == Records(front, n);
      assert hist[n..][..|hist| - n - 1] == front[n..];
    }
  }

  /** `gmail_history_since` refines the token walk: from any counter the account has passed, it
      refuses exactly when the JMAP walk does; otherwise its record ids are the unbroken run
      n+2 .. current+1 and its concatenated lists are the lists the JMAP walk folds. */
  lemma GmailRefinesTheWalk(hist: seq<Diff>, n: nat)
    requires 0 < n <= |hist|
    ensures GmailFrom(hist, n + 1).Unknown? <==> !Resolves(hist, n)
    ensures GmailFrom(hist, n + 1).Delta? ==>
              var records := GmailFrom(hist, n + 1).records;
              && |records| == |hist| - n
              && (forall i :: 0 <= i < |records| ==> records[i].id == n + 2 + i)
              && Added(records) == Gather(Window(hist, n), EmailKind, Created)
              && Deleted(records) == Gather(Window(hist, n), EmailKind, Destroyed)
    ensures GmailFrom(hist, n + 1).Delta? ==> GmailFrom(hist, n + 1).historyId == |hist| + 1
  {
    RecordsGather(hist, n);
  }

  /** From the seed (reported ids 0 and 1) the two agree until the first eviction; after it the
      JMAP walk still answers with what is left while Gmail sends the client to a full re-sync. */
  lemma GmailFromTheSeed(hist: seq<Diff>, start: nat)
    requires start <= 1
    ensures Resolves(hist, 0)
    ensures GmailFrom(hist, start).Unknown? <==> |hist| > MAX_TRANSITIONS
    ensures GmailFrom(hist, start).Delta? ==>
              && Added(GmailFrom(hist, start).records) == Gather(Window(hist, 0), EmailKind, Created)
              && Deleted(GmailFrom(hist, start).records) == Gather(Window(hist, 0), EmailKind, Destroyed)
  {
    RecordsGather(hist, 0);
  }
}
