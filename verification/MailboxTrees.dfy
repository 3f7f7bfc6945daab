/** The mailbox hierarchy: the loader's cycle check, LIST paths, and RENAME
    (section 6.3.5 of RFC 3501). */
module MailboxTrees {
  import opened Basics
  import opened Sorting
  import opened Stores
  import opened Trees
  import opened Text

  ghost predicate UniqueMailboxes(mbs: seq<Mailbox>) {
    forall i, j :: 0 <= i < j < |mbs| ==> mbs[i].id != mbs[j].id
  }

  function Position(mbs: seq<Mailbox>, id: Id): (i: nat)
    ensures i <= |mbs|
    ensures i < |mbs| ==> mbs[i].id == id
    ensures forall j :: 0 <= j < i ==> mbs[j].id != id
  {
    if mbs == [] || mbs[0].id == id then 0 else 1 + Position(mbs[1..], id)
  }

  function MailboxIds(mbs: seq<Mailbox>): (r: set<Id>)
    ensures forall x :: x in r <==> Position(mbs, x) < |mbs|
  {
    set i | 0 <= i < |mbs| :: mbs[i].id
  }

  /** Links to parents that are in the list; a parent outside it ends the chain. */
  function ParentsOf(mbs: seq<Mailbox>): Parents {
    map x | x in MailboxIds(mbs) && ParentAt(mbs, x).Some? && ParentAt(mbs, x).value in MailboxIds(mbs)
      :: ParentAt(mbs, x).value
  }

  function ParentAt(mbs: seq<Mailbox>, x: Id): Option<Id> {
    var i := Position(mbs, x);
    if i < |mbs| then mbs[i].parent else None
  }

  function NamesOf(mbs: seq<Mailbox>): Names {
    map x | x in MailboxIds(mbs) :: mbs[Position(mbs, x)].name
  }

  lemma ParentsFit(mbs: seq<Mailbox>)
    ensures |ParentsOf(mbs)| <= |mbs|
  {
    var ids := seq(|mbs|, i requires 0 <= i < |mbs| => mbs[i].id);
    assert forall x :: x in ParentsOf(mbs).Keys ==> x in ids by {
      forall x | x in ParentsOf(mbs).Keys
        ensures x in ids
      {
        assert ids[Position(mbs, x)] == x;
      }
    }
    SubsetFits(ParentsOf(mbs).Keys, ids);
  }

  lemma {:induction false} SubsetFits(s: set<Id>, ids: seq<Id>)
    requires forall x :: x in s ==> x in ids
    ensures |s| <= |ids|
  {
    if ids != [] {
      var last := ids[|ids| - 1];
      assert ids == ids[..|ids| - 1] + [last];
      SubsetFits(s - {last}, ids[..|ids| - 1]);
    } else {
      assert s == {};
    }
  }

  /** The account's mailboxes, in storage order. */
  function Own(mbs: seq<Mailbox>, account: Id): (r: seq<Mailbox>)
    ensures forall m :: m in r <==> m in mbs && m.account == account
  {
    if mbs == [] then [] else
      var front, last := Own(mbs[..|mbs| - 1], account), mbs[|mbs| - 1];
      assert mbs == mbs[..|mbs| - 1] + [last];
      if last.account == account then front + [last] else front
  }

  lemma {:induction false} OwnUnique(mbs: seq<Mailbox>, account: Id)
    requires UniqueMailboxes(mbs)
    ensures UniqueMailboxes(Own(mbs, account))
  {
    if mbs != [] {
      var front := mbs[..|mbs| - 1];
      OwnUnique(front, account);
      var own := Own(front, account);
      assert forall i :: 0 <= i < |own| ==> own[i] in front;
    }
  }

  /** The account's links are links of the whole tree. */
  lemma OwnParents(mbs: seq<Mailbox>, account: Id, x: Id)
    requires UniqueMailboxes(mbs) && x in ParentsOf(Own(mbs, account))
    ensures x in ParentsOf(mbs) && ParentsOf(mbs)[x] == ParentsOf(Own(mbs, account))[x]
  {
    var own := Own(mbs, account);
    var y := ParentsOf(own)[x];
    OwnListed(mbs, account, x);
    OwnListed(mbs, account, y);
  }

  lemma OwnListed(mbs: seq<Mailbox>, account: Id, x: Id)
    requires UniqueMailboxes(mbs) && x in MailboxIds(Own(mbs, account))
    ensures x in MailboxIds(mbs) && ParentAt(mbs, x) == ParentAt(Own(mbs, account), x)
  {
    var own := Own(mbs, account);
    assert own[Position(own, x)] in own;
    var i :| 0 <= i < |mbs| && mbs[i] == own[Position(own, x)];
    assert mbs[Position(mbs, x)].id == mbs[i].id;
  }

  /** So every tree the loader accepts leaves no cycle in the list any account's commands walk. */
  lemma OwnAcyclic(mbs: seq<Mailbox>, account: Id)
    requires UniqueMailboxes(mbs) && Acyclic(ParentsOf(mbs))
    ensures Acyclic(ParentsOf(Own(mbs, account)))
  {
    hide ParentsOf, Own, Acyclic, UniqueMailboxes;
    forall x | x in ParentsOf(Own(mbs, account)) {
      OwnParents(mbs, account, x);
    }
    SubAcyclic(ParentsOf(Own(mbs, account)), ParentsOf(mbs));
  }

  lemma UniquePosition(mbs: seq<Mailbox>, i: nat)
    requires UniqueMailboxes(mbs) && i < |mbs|
    ensures Position(mbs, mbs[i].id) == i
  {
  }

  lemma OwnsAcyclic(mbs: seq<Mailbox>)
    requires UniqueMailboxes(mbs) && Acyclic(ParentsOf(mbs))
    ensures forall account: Id :: Acyclic(ParentsOf(Own(mbs, account)))
  {
    hide UniqueMailboxes, Acyclic, ParentsOf, Own;
    forall account: Id {
      OwnAcyclic(mbs, account);
    }
  }

  /** `detect_cycles`: from every mailbox, walk up as many steps as there are mailboxes, looking for
      the start. The loader has checked that ids are unique and parents exist. */
  method DetectCycles(mbs: seq<Mailbox>) returns (ok: bool)
    requires UniqueMailboxes(mbs)
    requires forall i :: 0 <= i < |mbs| && mbs[i].parent.Some? ==> mbs[i].parent.value in MailboxIds(mbs)
    ensures ok <==> Acyclic(ParentsOf(mbs))
    ensures ok ==> forall account: Id :: Acyclic(ParentsOf(Own(mbs, account)))
  {
    hide UniqueMailboxes, Own, Acyclic, ParentsOf, NoReturn, Up, Position, MailboxIds;
    ghost var p := ParentsOf(mbs);
    for s := 0 to |mbs|
      invariant forall i :: 0 <= i < s ==> NoReturn(p, mbs[i].id, |mbs|)
    {
      var start := mbs[s];
      var cur := start;
      UniquePosition(mbs, s);
      NoReturnYet(p, start.id);
      for n := 0 to |mbs|
        invariant 0 <= Position(mbs, cur.id) < |mbs| && mbs[Position(mbs, cur.id)] == cur
        invariant Up(p, start.id, n) == Some(cur.id)
        invariant NoReturn(p, start.id, n)
      {
        ParentStep(mbs, cur);
        UpAdd(p, start.id, n, 1);
        StepUp(p, cur.id);
        if cur.parent.None? {
          NoReturnAfterEnd(p, start.id, n, |mbs|);
          break;
        }
        cur := mbs[Position(mbs, cur.parent.value)];
        if cur.id == start.id {
          CyclicWitness(p, start.id, n + 1);
          return false;
        }
        NoReturnStep(p, start.id, n);
      }
    }
    NoReturnsAcyclic(mbs);
    OwnsAcyclic(mbs);
    return true;
  }

  ghost predicate NoReturn(p: Parents, x: Id, n: nat) {
    forall k: nat :: 1 <= k <= n ==> Up(p, x, k) != Some(x)
  }

  lemma NoReturnYet(p: Parents, x: Id)
    ensures Up(p, x, 0) == Some(x) && NoReturn(p, x, 0)
  {
  }

  lemma NoReturnStep(p: Parents, x: Id, n: nat)
    requires NoReturn(p, x, n) && Up(p, x, n + 1) != Some(x)
    ensures NoReturn(p, x, n + 1)
  {
    hide Up;
  }

  lemma StepUp(p: Parents, x: Id)
    ensures Up(p, x, 1) == if x in p then Some(p[x]) else None
  {
  }

  lemma ParentStep(mbs: seq<Mailbox>, cur: Mailbox)
    requires Position(mbs, cur.id) < |mbs| && mbs[Position(mbs, cur.id)] == cur
    ensures cur.parent.None? ==> cur.id !in ParentsOf(mbs)
    ensures cur.parent.Some? && cur.parent.value in MailboxIds(mbs) ==>
              cur.id in ParentsOf(mbs) && ParentsOf(mbs)[cur.id] == cur.parent.value
    ensures cur.parent.Some? && cur.parent.value !in MailboxIds(mbs) ==> cur.id !in ParentsOf(mbs)
  {
  }

  lemma NoReturnAfterEnd(p: Parents, x: Id, n: nat, more: nat)
    requires NoReturn(p, x, n) && Up(p, x, n + 1) == None
    ensures NoReturn(p, x, more)
  {
    forall k: nat | 1 <= k <= more
      ensures Up(p, x, k) != Some(x)
    {
      if k > n {
        UpAdd(p, x, n + 1, k - n - 1);
      }
    }
  }

  lemma CyclicWitness(p: Parents, x: Id, k: nat)
    requires k >= 1 && Up(p, x, k) == Some(x)
    ensures !Acyclic(p)
  {
  }

  lemma NoReturnsAcyclic(mbs: seq<Mailbox>)
    requires forall i :: 0 <= i < |mbs| ==> NoReturn(ParentsOf(mbs), mbs[i].id, |mbs|)
    ensures Acyclic(ParentsOf(mbs))
  {
    hide ParentsOf;
    var p := ParentsOf(mbs);
    ParentsFit(mbs);
    forall x: Id, k: nat | k >= 1
      ensures Up(p, x, k) != Some(x)
    {
      if x in p {
        ParentedAreListed(mbs, x);
        assert NoReturn(p, mbs[Position(mbs, x)].id, |mbs|);
      }
      if Up(p, x, k) == Some(x) {
        CycleIsShort(p, x, k);
      }
    }
  }

  lemma ParentedAreListed(mbs: seq<Mailbox>, x: Id)
    requires x in ParentsOf(mbs)
    ensures Position(mbs, x) < |mbs|
  {
  }

  // ----- Paths -----

  /** Names from the root of the list down to mailbox `x`. */
  function SegmentsOf(mbs: seq<Mailbox>, x: Id): seq<string> {
    Path(ParentsOf(mbs), NamesOf(mbs), x)
  }

  function PathString(mbs: seq<Mailbox>, m: Mailbox): string {
    if m.inbox then "INBOX" else Join(SegmentsOf(mbs, m.id), "/")
  }

  lemma {:induction false} SuffixTop(p: Parents, names: Names, x: Id, k: nat)
    requires Up(p, x, k + 1).Some? && Up(p, x, k).Some?
    ensures Suffix(p, names, x, k + 1) == [NameOf(names, Up(p, x, k).value)] + Suffix(p, names, x, k)
    decreases k
  {
    if k > 0 {
      SuffixTop(p, names, p[x], k - 1);
    }
  }

  /** `mailbox_path`: the unbounded walk up ends on every tree the loader accepted. */
  method MailboxPath(mbs: seq<Mailbox>, m: Mailbox) returns (path: string)
    requires UniqueMailboxes(mbs) && Acyclic(ParentsOf(mbs))
    requires exists i :: 0 <= i < |mbs| && mbs[i] == m
    ensures path == PathString(mbs, m)
  {
    hide ParentsOf, NamesOf, Acyclic;
    if m.inbox {
      return "INBOX";
    }
    ghost var p, names, steps := ParentsOf(mbs), NamesOf(mbs), 0;
    NameAt(mbs, m);
    var chain := [m.name];
    var cur := m;
    assert Reversed([m.name]) == [m.name] by { assert [m.name][..0] == []; }
    while cur.parent.Some? && cur.parent.value in MailboxIds(mbs)
      invariant Position(mbs, cur.id) < |mbs| && mbs[Position(mbs, cur.id)] == cur
      invariant Up(p, m.id, steps) == Some(cur.id) && steps <= |p|
      invariant Reversed(chain) == [NameOf(names, cur.id)] + Suffix(p, names, m.id, steps)
      decreases |p| - steps
    {
      ParentStep(mbs, cur);
      UpAdd(p, m.id, steps, 1);
      StepUp(p, cur.id);
      StepsBounded(p, m.id, steps + 1);
      SuffixTop(p, names, m.id, steps);
      cur := mbs[Position(mbs, cur.parent.value)];
      NameAt(mbs, cur);
      assert (chain + [cur.name])[..|chain|] == chain;
      chain := chain + [cur.name];
      steps := steps + 1;
    }
    ParentStep(mbs, cur);
    PathFromTop(p, names, m.id, steps);
    path := Join(Reversed(chain), "/");
  }

  lemma NameAt(mbs: seq<Mailbox>, m: Mailbox)
    requires UniqueMailboxes(mbs) && exists i :: 0 <= i < |mbs| && mbs[i] == m
    ensures Position(mbs, m.id) < |mbs| && mbs[Position(mbs, m.id)] == m
    ensures NameOf(NamesOf(mbs), m.id) == m.name
  {
  }

  lemma StepsBounded(p: Parents, x: Id, k: nat)
    requires Acyclic(p) && Up(p, x, k).Some?
    ensures k <= |p|
  {
    ChainEnds(p, x);
    if k > |p| {
      UpAdd(p, x, |p| + 1, k - |p| - 1);
    }
  }

  lemma PathFromTop(p: Parents, names: Names, x: Id, k: nat)
    requires Acyclic(p) && Up(p, x, k).Some? && Up(p, x, k).value !in p
    ensures Path(p, names, x) == [NameOf(names, Up(p, x, k).value)] + Suffix(p, names, x, k)
  {
    PathSplit(p, names, x, k);
    PathUnfold(p, names, Up(p, x, k).value);
  }

  // ----- RENAME -----

  function Renamed(mbs: seq<Mailbox>, id: Id, leaf: string, parent: Option<Id>): seq<Mailbox> {
    var i := Position(mbs, id);
    if i < |mbs| then mbs[i := mbs[i].(name := leaf, parent := parent)] else mbs
  }

  lemma RenamedPositions(mbs: seq<Mailbox>, id: Id, leaf: string, parent: Option<Id>, x: Id)
    ensures Position(Renamed(mbs, id, leaf, parent), x) == Position(mbs, x)
  {
    var after := Renamed(mbs, id, leaf, parent);
    assert forall j :: 0 <= j < |mbs| ==> after[j].id == mbs[j].id;
    var k, k' := Position(mbs, x), Position(after, x);
  }

  lemma RenamedAt(mbs: seq<Mailbox>, id: Id, leaf: string, parent: Option<Id>, x: Id)
    requires id in MailboxIds(mbs)
    ensures var after := Renamed(mbs, id, leaf, parent);
            && (x in MailboxIds(after) <==> x in MailboxIds(mbs))
            && ParentAt(after, x) == (if x == id then parent else ParentAt(mbs, x))
            && (x in MailboxIds(mbs) ==> NamesOf(after)[x] == if x == id then leaf else NamesOf(mbs)[x])
  {
    RenamedPositions(mbs, id, leaf, parent, x);
  }

  lemma RenamedParents(mbs: seq<Mailbox>, id: Id, leaf: string, parent: Option<Id>)
    requires id in MailboxIds(mbs) && (parent.Some? ==> parent.value in MailboxIds(mbs))
    ensures var p, q := ParentsOf(mbs), ParentsOf(Renamed(mbs, id, leaf, parent));
            q == if parent.Some? then p[id := parent.value] else p - {id}
    ensures var names, names' := NamesOf(mbs), NamesOf(Renamed(mbs, id, leaf, parent));
            NameOf(names', id) == leaf && forall y :: y != id ==> NameOf(names', y) == NameOf(names, y)
  {
    hide ParentAt, Renamed, MailboxIds, ParentsOf, NamesOf;
    var after := Renamed(mbs, id, leaf, parent);
    var p, q := ParentsOf(mbs), ParentsOf(after);
    var r := if parent.Some? then p[id := parent.value] else p - {id};
    forall x
      ensures x in q <==> x in r
      ensures x in q ==> q[x] == r[x]
    {
      RenamedAt(mbs, id, leaf, parent, x);
      ParentsAt(mbs, x);
      ParentsAt(after, x);
      if ParentAt(after, x).Some? {
        RenamedAt(mbs, id, leaf, parent, ParentAt(after, x).value);
      }
    }
    forall y
      ensures NameOf(NamesOf(after), y) == if y == id then leaf else NameOf(NamesOf(mbs), y)
    {
      RenamedAt(mbs, id, leaf, parent, y);
      NamesKeys(mbs);
      NamesKeys(after);
    }
  }

  lemma ParentsAt(mbs: seq<Mailbox>, x: Id)
    ensures x in ParentsOf(mbs) <==>
              x in MailboxIds(mbs) && ParentAt(mbs, x).Some? && ParentAt(mbs, x).value in MailboxIds(mbs)
    ensures x in ParentsOf(mbs) ==> ParentsOf(mbs)[x] == ParentAt(mbs, x).value
  {
  }

  lemma NamesKeys(mbs: seq<Mailbox>)
    ensures NamesOf(mbs).Keys == MailboxIds(mbs)
  {
  }

  /** RENAME keeps the tree acyclic exactly when the new parent is neither the renamed mailbox nor
      one below it; the command does not check this. */
  lemma RenameAcyclicIff(mbs: seq<Mailbox>, id: Id, leaf: string, parent: Option<Id>)
    requires Acyclic(ParentsOf(mbs)) && id in MailboxIds(mbs)
    requires parent.Some? ==> parent.value in MailboxIds(mbs)
    ensures Acyclic(ParentsOf(Renamed(mbs, id, leaf, parent))) <==>
            (parent.Some? ==> !Under(ParentsOf(mbs), parent.value, id))
  {
    hide Acyclic, ParentsOf, NamesOf, Renamed;
    RenamedParents(mbs, id, leaf, parent);
    if parent.Some? {
      ReparentAcyclicIff(ParentsOf(mbs), id, parent.value);
    } else {
      UprootAcyclic(ParentsOf(mbs), id);
    }
  }

  /** RENAME moves a whole subtree: the mailbox gets its parent's path plus the new leaf, everything
      `k` levels below keeps the same last `k` segments under it, everything else keeps its path. */
  lemma RenameRewritesSubtree(mbs: seq<Mailbox>, id: Id, leaf: string, parent: Option<Id>, x: Id)
    requires Acyclic(ParentsOf(mbs)) && id in MailboxIds(mbs)
    requires parent.Some? ==> parent.value in MailboxIds(mbs) && !Under(ParentsOf(mbs), parent.value, id)
    ensures var after := Renamed(mbs, id, leaf, parent);
            && SegmentsOf(after, id) == (if parent.Some? then SegmentsOf(mbs, parent.value) else []) + [leaf]
            && (forall k: nat :: Up(ParentsOf(mbs), x, k) == Some(id) ==>
                  var below := Suffix(ParentsOf(mbs), NamesOf(mbs), x, k);
                  SegmentsOf(mbs, x) == SegmentsOf(mbs, id) + below && SegmentsOf(after, x) == SegmentsOf(after, id) + below)
            && (!Under(ParentsOf(mbs), x, id) ==> SegmentsOf(after, x) == SegmentsOf(mbs, x))
  {
    hide Acyclic, ParentsOf, NamesOf, Renamed, Path;
    var after := Renamed(mbs, id, leaf, parent);
    var p, q, names, names' := ParentsOf(mbs), ParentsOf(after), NamesOf(mbs), NamesOf(after);
    RenameAcyclicIff(mbs, id, leaf, parent);
    RenamedParents(mbs, id, leaf, parent);
    RenameMovesSubtree(p, q, names, names', id, x);
    PathUnfold(q, names', id);
    if parent.Some? {
      RenameMovesSubtree(p, q, names, names', id, parent.value);
    }
  }

  /** The same in path strings: for non-INBOX mailboxes a descendant's path changes by exactly its
      ancestor's. */
  lemma RenamePathStrings(mbs: seq<Mailbox>, id: Id, leaf: string, parent: Option<Id>, x: Id, k: nat)
    requires Acyclic(ParentsOf(mbs)) && id in MailboxIds(mbs)
    requires parent.Some? ==> parent.value in MailboxIds(mbs) && !Under(ParentsOf(mbs), parent.value, id)
    requires k >= 1 && Up(ParentsOf(mbs), x, k) == Some(id)
    ensures var after, below := Renamed(mbs, id, leaf, parent), Join(Suffix(ParentsOf(mbs), NamesOf(mbs), x, k), "/");
            && Join(SegmentsOf(mbs, x), "/") == Join(SegmentsOf(mbs, id), "/") + "/" + below
            && Join(SegmentsOf(after, x), "/") == Join(SegmentsOf(after, id), "/") + "/" + below
  {
    hide Acyclic, ParentsOf, NamesOf, Renamed, Join;
    var after := Renamed(mbs, id, leaf, parent);
    RenameRewritesSubtree(mbs, id, leaf, parent, x);
    SegmentsNonEmpty(mbs, id);
    SegmentsNonEmpty(after, id);
    var below := Suffix(ParentsOf(mbs), NamesOf(mbs), x, k);
    JoinAppend(SegmentsOf(mbs, id), below, "/");
    JoinAppend(SegmentsOf(after, id), below, "/");
  }

  lemma SegmentsNonEmpty(mbs: seq<Mailbox>, x: Id)
    ensures SegmentsOf(mbs, x) != []
  {
  }

  // ----- The RENAME command -----

  function Lower(c: char): char {
    if 'A' <= c <= 'Z' then (c as int + 32) as char else c
  }

  predicate EqIgnoreCase(a: string, b: string) {
    |a| == |b| && forall i :: 0 <= i < |a| ==> Lower(a[i]) == Lower(b[i])
  }

  /** The same letter of the alphabet, in either case. */
  ghost predicate SameLetter(a: char, b: char) {
    exists k: nat :: k < 26 && CaseOf(a, k) && CaseOf(b, k)
  }

  predicate CaseOf(a: char, k: nat) {
    a as int == 65 + k || a as int == 97 + k
  }

  /** Names are compared letter by letter, ASCII case aside; all other characters must be the same. */
  lemma EqMeaning(a: string, b: string)
    ensures EqIgnoreCase(a, b) <==> |a| == |b| && forall i :: 0 <= i < |a| ==> a[i] == b[i] || SameLetter(a[i], b[i])
  {
    hide Lower, SameLetter;
    forall x, y {
      LowerMeaning(x, y);
    }
  }

  lemma LowerMeaning(x: char, y: char)
    ensures Lower(x) == Lower(y) <==> x == y || SameLetter(x, y)
  {
    if Lower(x) == Lower(y) && x != y {
      var k := Lower(x) as int - 97;
      assert CaseOf(x, k) && CaseOf(y, k);
    }
  }

  function TrimSlashes(s: string): string {
    if s != "" && s[|s| - 1] == '/' then TrimSlashes(s[..|s| - 1]) else s
  }

  /** Index of the last slash, or the length when there is none. */
  function LastSlash(s: string): (i: nat)
    ensures i <= |s| && (i < |s| ==> s[i] == '/') && (i == |s| ==> '/' !in s)
    ensures forall j :: i < j < |s| ==> s[j] != '/'
  {
    if s == "" then 0
    else if s[|s| - 1] == '/' then |s| - 1
    else
      var i := LastSlash(s[..|s| - 1]);
      assert s == s[..|s| - 1] + [s[|s| - 1]];
      if i == |s| - 1 then |s| else i
  }

  datatype Split = Split(parent: Option<string>, leaf: string)

  function SplitParentLeaf(path: string): Split {
    var i := LastSlash(path);
    if i < |path| then Split(Some(path[..i]), path[i + 1..]) else Split(None, path)
  }

  /** The first listed mailbox with this path. */
  function FindByPath(mbs: seq<Mailbox>, all: seq<Mailbox>, path: string): (r: Option<Id>)
    ensures r.Some? ==> exists i :: 0 <= i < |mbs| && mbs[i].id == r.value && EqIgnoreCase(PathString(all, mbs[i]), path)
    ensures r.None? ==> forall i :: 0 <= i < |mbs| ==> !EqIgnoreCase(PathString(all, mbs[i]), path)
  {
    if mbs == [] then None
    else if EqIgnoreCase(PathString(all, mbs[0]), path) then Some(mbs[0].id)
    else
      assert mbs == [mbs[0]] + mbs[1..];
      FindByPath(mbs[1..], all, path)
  }

  datatype RenamePlan = NoSuchMailbox | TargetExists | UnknownParent | Plan(id: Id, parent: Option<Id>, leaf: string)

  /** What RENAME decides to do with an account's mailboxes. */
  function PlanRename(mbs: seq<Mailbox>, oldName: string, newName: string): RenamePlan {
    var name := TrimSlashes(newName);
    var target := FindByPath(mbs, mbs, oldName);
    if target.None? then NoSuchMailbox
    else if FindByPath(mbs, mbs, name).Some? then TargetExists
    else
      var split := SplitParentLeaf(name);
      if split.parent.None? then Plan(target.value, None, split.leaf)
      else
        var parent := FindByPath(mbs, mbs, split.parent.value);
        if parent.None? then UnknownParent else Plan(target.value, parent, split.leaf)
  }

  /** The mailbox that answers to a path is the first listed with it. */
  ghost predicate AnsweredBy(mbs: seq<Mailbox>, all: seq<Mailbox>, path: string, id: Id) {
    exists i :: 0 <= i < |mbs| && mbs[i].id == id && EqIgnoreCase(PathString(all, mbs[i]), path)
                && forall j :: 0 <= j < i ==> !EqIgnoreCase(PathString(all, mbs[j]), path)
  }

  ghost predicate Unanswered(mbs: seq<Mailbox>, path: string) {
    forall i :: 0 <= i < |mbs| ==> !EqIgnoreCase(PathString(mbs, mbs[i]), path)
  }

  lemma FindsFirst(mbs: seq<Mailbox>, all: seq<Mailbox>, path: string)
    ensures FindByPath(mbs, all, path).Some? ==> AnsweredBy(mbs, all, path, FindByPath(mbs, all, path).value)
  {
    hide FindByPath, PathString, EqIgnoreCase;
    if FindByPath(mbs, all, path).Some? {
      var i := FirstFound(mbs, all, path);
    }
  }

  lemma {:induction false} FirstFound(mbs: seq<Mailbox>, all: seq<Mailbox>, path: string) returns (i: nat)
    requires FindByPath(mbs, all, path).Some?
    ensures i < |mbs| && mbs[i].id == FindByPath(mbs, all, path).value && EqIgnoreCase(PathString(all, mbs[i]), path)
    ensures forall j :: 0 <= j < i ==> !EqIgnoreCase(PathString(all, mbs[j]), path)
  {
    hide PathString, EqIgnoreCase;
    i := 0;
    if !EqIgnoreCase(PathString(all, mbs[0]), path) {
      var rest := FirstFound(mbs[1..], all, path);
      i := rest + 1;
      assert forall j :: 0 < j < i ==> mbs[j] == mbs[1..][j - 1];
    }
  }

  /** Every slash at the end goes, and nothing else. */
  lemma {:induction false} TrimSlashesMeaning(s: string)
    ensures var r := TrimSlashes(s);
            && |r| <= |s| && s[..|r|] == r && (forall i :: |r| <= i < |s| ==> s[i] == '/')
            && (r != "" ==> r[|r| - 1] != '/')
  {
    if s != "" && s[|s| - 1] == '/' {
      TrimSlashesMeaning(s[..|s| - 1]);
      assert forall i :: 0 <= i < |s| - 1 ==> s[..|s| - 1][i] == s[i];
    }
  }

  /** The plan by which listed mailboxes answer to the names: an unknown old name is refused first, then
      a new name that is taken, then an unknown parent; otherwise the first mailbox with the old name
      goes under the first with the parent's, and is named by what follows the last slash. */
  lemma PlanMeaning(mbs: seq<Mailbox>, oldName: string, newName: string)
    ensures var plan, name := PlanRename(mbs, oldName, newName), TrimSlashes(newName);
            && (plan == NoSuchMailbox <==> Unanswered(mbs, oldName))
            && (plan == TargetExists <==> !Unanswered(mbs, oldName) && !Unanswered(mbs, name))
            && (plan == UnknownParent ==>
                  exists head, leaf :: LastSlashAt(name, head, leaf) && Unanswered(mbs, head))
            && (plan.Plan? ==>
                  && AnsweredBy(mbs, mbs, oldName, plan.id) && '/' !in plan.leaf
                  && (plan.parent.None? ==> name == plan.leaf)
                  && (plan.parent.Some? ==>
                        exists head :: LastSlashAt(name, head, plan.leaf) && AnsweredBy(mbs, mbs, head, plan.parent.value)))
  {
    hide PathString, EqIgnoreCase, TrimSlashes, AnsweredBy;
    var name := TrimSlashes(newName);
    FindsFirst(mbs, mbs, oldName);
    SplitJoins(name);
    LeafIsPlain(name);
    if SplitParentLeaf(name).parent.Some? {
      FindsFirst(mbs, mbs, SplitParentLeaf(name).parent.value);
      assert LastSlashAt(name, SplitParentLeaf(name).parent.value, SplitParentLeaf(name).leaf);
    }
  }

  ghost predicate LastSlashAt(name: string, head: string, leaf: string) {
    name == head + ("/" + leaf) && '/' !in leaf
  }

  lemma LeafIsPlain(name: string)
    ensures '/' !in SplitParentLeaf(name).leaf
  {
    var i := LastSlash(name);
    if i < |name| {
      var leaf := name[i + 1..];
      assert forall j :: 0 <= j < |leaf| ==> leaf[j] == name[i + 1 + j];
    }
  }

  /** Whether the renamed mailbox will be listed under the requested name: it is not the INBOX, which
      is always listed as INBOX, and its new parent is not an INBOX stored under another name. */
  predicate KeepsName(mbs: seq<Mailbox>, plan: RenamePlan)
    requires plan.Plan?
  {
    && !IsInbox(mbs, plan.id)
    && (plan.parent.Some? && IsInbox(mbs, plan.parent.value) ==> EqIgnoreCase(Join(SegmentsOf(mbs, plan.parent.value), "/"), "INBOX"))
  }

  /** The new path of a renamed mailbox that is not the INBOX. */
  lemma NewPath(mbs: seq<Mailbox>, oldName: string, newName: string, plan: RenamePlan)
    requires UniqueMailboxes(mbs) && Acyclic(ParentsOf(mbs))
    requires plan.Plan? && PlanRename(mbs, oldName, newName) == plan && !IsInbox(mbs, plan.id)
    requires plan.parent.Some? ==> !Under(ParentsOf(mbs), plan.parent.value, plan.id)
    ensures var after := Renamed(mbs, plan.id, plan.leaf, plan.parent);
            && PathOf(after, plan.id) == Join(SegmentsOf(after, plan.id), "/")
            && (EqIgnoreCase(PathOf(after, plan.id), TrimSlashes(newName)) <==> KeepsName(mbs, plan))
  {
    hide Acyclic, ParentsOf, NamesOf, UniqueMailboxes, SegmentsOf, Join, PlanRename, FindByPath, Renamed, EqIgnoreCase, Under, PathOf, IsInbox, MailboxIds;
    var name := TrimSlashes(newName);
    PlanFacts(mbs, oldName, newName);
    RenameRewritesSubtree(mbs, plan.id, plan.leaf, plan.parent, plan.id);
    RenamedInbox(mbs, plan.id, plan.leaf, plan.parent);
    JoinOne(plan.leaf, "/");
    if plan.parent.Some? {
      var above, wanted := Join(SegmentsOf(mbs, plan.parent.value), "/"), SplitParentLeaf(name).parent.value;
      SegmentsNonEmpty(mbs, plan.parent.value);
      JoinAppend(SegmentsOf(mbs, plan.parent.value), [plan.leaf], "/");
      EqBelow(above, wanted, plan.leaf);
      if IsInbox(mbs, plan.parent.value) {
        PathOfInbox(mbs, plan.parent.value);
        EqSwap(above, "INBOX", wanted);
      } else {
        PathOfOrdinary(mbs, plan.parent.value);
      }
    } else {
      assert [] + [plan.leaf] == [plan.leaf];
      EqItself(plan.leaf);
    }
  }

  /** No other mailbox comes to answer to the requested name: what is not below keeps its path, and what
      is below has a longer one. */
  lemma OthersDoNotAnswer(mbs: seq<Mailbox>, oldName: string, newName: string, plan: RenamePlan, y: Id)
    requires UniqueMailboxes(mbs) && Acyclic(ParentsOf(mbs))
    requires plan.Plan? && PlanRename(mbs, oldName, newName) == plan && KeepsName(mbs, plan)
    requires plan.parent.Some? ==> !Under(ParentsOf(mbs), plan.parent.value, plan.id)
    requires y in MailboxIds(mbs) && y != plan.id
    ensures !EqIgnoreCase(PathOf(Renamed(mbs, plan.id, plan.leaf, plan.parent), y), TrimSlashes(newName))
  {
    hide Acyclic, ParentsOf, NamesOf, UniqueMailboxes, SegmentsOf, Join, PlanRename, FindByPath, Renamed, PathOf, IsInbox, MailboxIds;
    var name := TrimSlashes(newName);
    var after := Renamed(mbs, plan.id, plan.leaf, plan.parent);
    PlanFacts(mbs, oldName, newName);
    NotTaken(mbs, oldName, newName, y);
    RenamedKeepsInbox(mbs, plan.id, plan.leaf, plan.parent, y);
    RenameRewritesSubtree(mbs, plan.id, plan.leaf, plan.parent, y);
    if IsInbox(mbs, y) {
      PathOfInbox(mbs, y);
      PathOfInbox(after, y);
    } else {
      PathOfOrdinary(mbs, y);
      PathOfOrdinary(after, y);
      if k: nat :| Up(ParentsOf(mbs), y, k) == Some(plan.id) {
        assert k >= 1;
        NewPath(mbs, oldName, newName, plan);
        RenamePathStrings(mbs, plan.id, plan.leaf, plan.parent, y, k);
      }
    }
  }

  /** RENAME answers to the requested name, by the lookup every later command makes, exactly when that
      name survives the INBOX rule. */
  lemma RenameAnswersIff(mbs: seq<Mailbox>, oldName: string, newName: string, plan: RenamePlan)
    requires UniqueMailboxes(mbs) && Acyclic(ParentsOf(mbs))
    requires plan.Plan? && PlanRename(mbs, oldName, newName) == plan
    requires plan.parent.Some? ==> !Under(ParentsOf(mbs), plan.parent.value, plan.id)
    ensures var after := Renamed(mbs, plan.id, plan.leaf, plan.parent);
            FindByPath(after, after, TrimSlashes(newName)) == Some(plan.id) <==> KeepsName(mbs, plan)
  {
    hide Acyclic, ParentsOf, NamesOf, UniqueMailboxes, PathOf, PlanRename, FindByPath, Renamed, EqIgnoreCase, Under, MailboxIds, PathString, KeepsName;
    var name := TrimSlashes(newName);
    var after := Renamed(mbs, plan.id, plan.leaf, plan.parent);
    PlanFacts(mbs, oldName, newName);
    RenamedUnique(mbs, plan.id, plan.leaf, plan.parent);
    RenamedAt(mbs, plan.id, plan.leaf, plan.parent, plan.id);
    var r := FindByPath(after, after, name);
    if r.Some? {
      FoundPath(after, name);
      RenamedAt(mbs, plan.id, plan.leaf, plan.parent, r.value);
    } else {
      NotFoundPath(after, name, plan.id);
    }
    if KeepsName(mbs, plan) {
      KeepsNotInbox(mbs, plan);
      NewPath(mbs, oldName, newName, plan);
      if r.Some? && r.value != plan.id {
        OthersDoNotAnswer(mbs, oldName, newName, plan, r.value);
      }
    } else if IsInbox(mbs, plan.id) {
      NotTaken(mbs, oldName, newName, plan.id);
      RenamedKeepsInbox(mbs, plan.id, plan.leaf, plan.parent, plan.id);
      PathOfInbox(mbs, plan.id);
      PathOfInbox(after, plan.id);
    } else {
      NewPath(mbs, oldName, newName, plan);
    }
  }

  lemma KeepsNotInbox(mbs: seq<Mailbox>, plan: RenamePlan)
    requires plan.Plan? && KeepsName(mbs, plan)
    ensures !IsInbox(mbs, plan.id)
  {
  }

  lemma RenamedUnique(mbs: seq<Mailbox>, id: Id, leaf: string, parent: Option<Id>)
    requires UniqueMailboxes(mbs)
    ensures UniqueMailboxes(Renamed(mbs, id, leaf, parent))
  {
    var after := Renamed(mbs, id, leaf, parent);
    assert forall j :: 0 <= j < |mbs| ==> after[j].id == mbs[j].id;
  }

  /** A planned RENAME found no mailbox under the new name. */
  lemma NotTaken(mbs: seq<Mailbox>, oldName: string, newName: string, y: Id)
    requires PlanRename(mbs, oldName, newName).Plan? && y in MailboxIds(mbs)
    ensures !EqIgnoreCase(PathOf(mbs, y), TrimSlashes(newName))
  {
    hide EqIgnoreCase, PathOf, MailboxIds, SplitParentLeaf;
    NotFoundPath(mbs, TrimSlashes(newName), y);
  }

  lemma NotFoundPath(mbs: seq<Mailbox>, path: string, y: Id)
    requires FindByPath(mbs, mbs, path).None? && y in MailboxIds(mbs)
    ensures !EqIgnoreCase(PathOf(mbs, y), path)
  {
    hide PathString, EqIgnoreCase;
  }

  lemma RenamedKeepsInbox(mbs: seq<Mailbox>, id: Id, leaf: string, parent: Option<Id>, y: Id)
    requires y in MailboxIds(mbs)
    ensures var after := Renamed(mbs, id, leaf, parent);
            y in MailboxIds(after) && (IsInbox(after, y) <==> IsInbox(mbs, y))
  {
    RenamedPositions(mbs, id, leaf, parent, y);
  }

  lemma PathOfInbox(mbs: seq<Mailbox>, id: Id)
    requires id in MailboxIds(mbs) && IsInbox(mbs, id)
    ensures PathOf(mbs, id) == "INBOX"
  {
    hide SegmentsOf;
  }

  lemma EqSwap(a: string, b: string, c: string)
    requires EqIgnoreCase(b, c)
    ensures EqIgnoreCase(a, b) <==> EqIgnoreCase(a, c)
  {
  }

  /** With an inbox stored as "Posteingang", RENAME "a" to "INBOX/x" is accepted, and lists the mailbox
      as "Posteingang/x"; nothing answers to the requested name. */
  lemma RenameUnderInbox(account: Id)
    ensures var mbs := [Mailbox("m1", account, "Posteingang", true, None), Mailbox("m2", account, "a", false, None)];
            var after := Renamed(mbs, "m2", "x", Some("m1"));
            && PlanRename(mbs, "a", "INBOX/x") == Plan("m2", Some("m1"), "x")
            && PathOf(after, "m2") == "Posteingang/x"
            && FindByPath(after, after, "INBOX/x") == None
  {
    var inbox, a, b := Mailbox("m1", account, "Posteingang", true, None), Mailbox("m2", account, "a", false, None), Mailbox("m2", account, "x", false, Some("m1"));
    var mbs := [inbox, a];
    var after := Renamed(mbs, "m2", "x", Some("m1"));
    assert mbs[0].id == "m1" && mbs[1].id == "m2" && "m1"[1] != "m2"[1];
    assert Position(mbs, "m1") == 0 && Position(mbs, "m2") == 1;
    assert after == [inbox, b];
    UnderInboxPlan(mbs, inbox, a);
    UnderInboxSegments(mbs, inbox, a);
    UnderInboxPath(after, inbox, b);
  }

  lemma UnderInboxPlan(mbs: seq<Mailbox>, inbox: Mailbox, a: Mailbox)
    requires mbs == [inbox, a] && inbox.id == "m1" && a.id == "m2" && inbox.inbox
    requires !a.inbox && a.name == "a" && inbox.parent == None && a.parent == None
    ensures PlanRename(mbs, "a", "INBOX/x") == Plan("m2", Some("m1"), "x")
  {
    assert mbs[0].id == "m1" && mbs[1].id == "m2" && "m1"[1] != "m2"[1];
    assert Position(mbs, "m2") == 1;
    assert ParentsOf(mbs) == map[];
    assert SegmentsOf(mbs, "m2") == ["a"];
    assert PathString(mbs, inbox) == "INBOX" && PathString(mbs, a) == "a";
    assert mbs[1..] == [a] && [a][1..] == [];
    var name := "INBOX/x";
    assert TrimSlashes(name) == name;
    assert LastSlash(name) == 5 by {
      assert name[5] == '/';
    }
    assert name[..5] == "INBOX" && name[6..] == "x";
    assert FindByPath(mbs, mbs, "a") == Some("m2");
    assert FindByPath(mbs, mbs, name) == None;
    assert FindByPath(mbs, mbs, "INBOX") == Some("m1");
  }

  lemma UnderInboxSegments(mbs: seq<Mailbox>, inbox: Mailbox, a: Mailbox)
    requires mbs == [inbox, a] && inbox.id == "m1" && a.id == "m2" && inbox.name == "Posteingang"
    requires inbox.parent == None && a.parent == None
    ensures SegmentsOf(Renamed(mbs, "m2", "x", Some("m1")), "m2") == ["Posteingang", "x"]
  {
    hide Renamed;
    assert mbs[0].id == "m1" && mbs[1].id == "m2" && "m1"[1] != "m2"[1];
    assert Position(mbs, "m1") == 0 && Position(mbs, "m2") == 1;
    assert "m1" in MailboxIds(mbs) && "m2" in MailboxIds(mbs);
    assert ParentsOf(mbs) == map[];
    assert forall x: Id, k: nat :: k >= 1 ==> Up(map[], x, k) == None;
    assert !Under(map[], "m1", "m2") by {
      assert Up(map[], "m1", 0) == Some("m1");
    }
    assert SegmentsOf(mbs, "m1") == ["Posteingang"];
    RenameRewritesSubtree(mbs, "m2", "x", Some("m1"), "m2");
  }

  lemma UnderInboxPath(mbs: seq<Mailbox>, inbox: Mailbox, b: Mailbox)
    requires mbs == [inbox, b] && inbox.id == "m1" && b.id == "m2" && inbox.inbox && !b.inbox
    requires SegmentsOf(mbs, "m2") == ["Posteingang", "x"]
    ensures PathOf(mbs, "m2") == "Posteingang/x"
    ensures FindByPath(mbs, mbs, "INBOX/x") == None
  {
    hide SegmentsOf, EqIgnoreCase;
    assert mbs[0].id == "m1" && mbs[1].id == "m2" && "m1"[1] != "m2"[1];
    assert Position(mbs, "m1") == 0 && Position(mbs, "m2") == 1;
    PosteingangX();
    assert mbs[1..] == [b] && [b][1..] == [];
  }

  lemma PosteingangX()
    ensures Join(["Posteingang", "x"], "/") == "Posteingang/x"
    ensures !EqIgnoreCase("INBOX", "INBOX/x") && !EqIgnoreCase("Posteingang/x", "INBOX/x")
  {
    var parts := ["Posteingang", "x"];
    assert parts[..1] == ["Posteingang"] && parts[1] == "x";
    assert Join(parts[..1], "/") == "Posteingang";
    assert "Posteingang" + "/" + "x" == "Posteingang/x";
  }

  lemma PathOfOrdinary(mbs: seq<Mailbox>, id: Id)
    requires id in MailboxIds(mbs) && !IsInbox(mbs, id)
    ensures PathOf(mbs, id) == Join(SegmentsOf(mbs, id), "/")
  {
  }

  lemma EqItself(a: string)
    ensures EqIgnoreCase(a, a)
  {
  }

  predicate IsInbox(mbs: seq<Mailbox>, id: Id) {
    var i := Position(mbs, id);
    i < |mbs| && mbs[i].inbox
  }

  function PathOf(mbs: seq<Mailbox>, id: Id): string {
    var i := Position(mbs, id);
    if i < |mbs| then PathString(mbs, mbs[i]) else ""
  }

  /** What a plan's ids and leaf have to do with the two names. */
  lemma PlanFacts(mbs: seq<Mailbox>, oldName: string, newName: string)
    requires UniqueMailboxes(mbs) && PlanRename(mbs, oldName, newName).Plan?
    ensures var plan, name := PlanRename(mbs, oldName, newName), TrimSlashes(newName);
            && plan.id in MailboxIds(mbs)
            && plan.leaf == SplitParentLeaf(name).leaf
            && (plan.parent.Some? <==> SplitParentLeaf(name).parent.Some?)
            && (plan.parent.None? ==> name == plan.leaf)
            && (plan.parent.Some? ==>
                  && plan.parent.value in MailboxIds(mbs)
                  && EqIgnoreCase(PathOf(mbs, plan.parent.value), SplitParentLeaf(name).parent.value)
                  && name == SplitParentLeaf(name).parent.value + ("/" + plan.leaf))
  {
    hide EqIgnoreCase, FindByPath, PathOf, UniqueMailboxes, MailboxIds, TrimSlashes, SplitParentLeaf;
    var split := SplitParentLeaf(TrimSlashes(newName));
    SplitJoins(TrimSlashes(newName));
    FoundPath(mbs, oldName);
    if split.parent.Some? {
      FoundPath(mbs, split.parent.value);
    }
  }

  lemma SplitJoins(name: string)
    ensures var split := SplitParentLeaf(name);
            name == if split.parent.Some? then split.parent.value + ("/" + split.leaf) else split.leaf
  {
    var i := LastSlash(name);
    if i < |name| {
      assert name == name[..i] + ("/" + name[i + 1..]);
    }
  }

  lemma RenamedInbox(mbs: seq<Mailbox>, id: Id, leaf: string, parent: Option<Id>)
    requires id in MailboxIds(mbs) && !IsInbox(mbs, id)
    ensures var after := Renamed(mbs, id, leaf, parent); PathOf(after, id) == Join(SegmentsOf(after, id), "/")
  {
    RenamedPositions(mbs, id, leaf, parent, id);
  }

  lemma EqExtends(a: string, b: string, c: string)
    ensures EqIgnoreCase(a + c, b + c) <==> EqIgnoreCase(a, b)
  {
    if EqIgnoreCase(a + c, b + c) {
      forall i | 0 <= i < |a|
        ensures Lower(a[i]) == Lower(b[i])
      {
        assert (a + c)[i] == a[i] && (b + c)[i] == b[i];
      }
    }
  }

  lemma EqBelow(a: string, b: string, leaf: string)
    ensures EqIgnoreCase(a + "/" + leaf, b + ("/" + leaf)) <==> EqIgnoreCase(a, b)
  {
    hide EqIgnoreCase;
    EqExtends(a, b, "/" + leaf);
    assert a + "/" + leaf == a + ("/" + leaf);
  }

  lemma FoundPath(mbs: seq<Mailbox>, path: string)
    requires UniqueMailboxes(mbs) && FindByPath(mbs, mbs, path).Some?
    ensures var id := FindByPath(mbs, mbs, path).value;
            id in MailboxIds(mbs) && EqIgnoreCase(PathOf(mbs, id), path)
  {
    hide PathString, EqIgnoreCase;
  }

  /** RENAME "a" to "a/b" is accepted and hangs the mailbox under itself. */
  lemma RenameUnderItself(account: Id)
    ensures var a := Mailbox("m1", account, "a", false, None);
            && PlanRename([a], "a", "a/b") == Plan("m1", Some("m1"), "b")
            && Acyclic(ParentsOf([a]))
            && !Acyclic(ParentsOf(Renamed([a], "m1", "b", Some("m1"))))
  {
    var a := Mailbox("m1", account, "a", false, None);
    var mbs := [a];
    assert Position(mbs, "m1") == 0;
    assert "m1" in MailboxIds(mbs);
    assert ParentsOf(mbs) == map[];
    assert forall x: Id, k: nat :: k >= 1 ==> Up(map[], x, k) == None;
    assert SegmentsOf(mbs, "m1") == ["a"];
    assert PathString(mbs, a) == "a";
    var name := "a/b";
    assert TrimSlashes(name) == name;
    assert LastSlash(name) == 1 by {
      assert name[1] == '/';
    }
    assert name[..1] == "a" && name[2..] == "b";
    assert FindByPath(mbs, mbs, "a") == Some("m1");
    assert FindByPath(mbs, mbs, name) == None;
    assert Up(map[], "m1", 0) == Some("m1");
    RenameAcyclicIff(mbs, "m1", "b", Some("m1"));
  }
}
