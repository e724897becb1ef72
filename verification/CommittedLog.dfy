/** The blocks that runs commit, as in crates/consensus/src/traits/block_store.rs: they never fork, and the order in which
    they are first executed is the same for all validators. */
module CommittedLogs {
  import opened Committees
  import opened HotStuff
  import opened Replicas
  import opened Voting

  // ---- Paths ----

  lemma {:induction false} AnchoredPath(t: Chain, x: BlockId, floor: nat)
    requires t.WellFormed() && t.Anchored(x)
    ensures x in t.blocks && PathStored(t, x, floor)
    decreases t.Rank(x)
  {
    if x != t.genesis {
      AnchoredPath(t, t.blocks[x].parent, floor);
    }
  }

  lemma {:induction false} PathSplit(t: Chain, x: BlockId, a: BlockId, floor: nat)
    requires t.WellFormed() && t.Anchored(x) && t.Descends(x, a) && a in t.blocks && floor <= t.Height(a)
    ensures x in t.blocks && PathStored(t, x, floor) && PathStored(t, a, floor) && PathStored(t, x, t.Height(a))
    ensures PathAbove(t, x, floor) == PathAbove(t, a, floor) + PathAbove(t, x, t.Height(a))
    decreases t.Rank(x)
  {
    DescendsHeight(t, x, a);
    AnchoredPath(t, x, floor);
    AnchoredPath(t, a, floor);
    AnchoredPath(t, x, t.Height(a));
    if x != a {
      PathSplit(t, t.blocks[x].parent, a, floor);
    }
  }

  lemma {:induction false} PathMembersAreAncestors(t: Chain, x: BlockId, floor: nat, y: BlockId)
    requires t.WellFormed() && x in t.blocks && PathStored(t, x, floor) && y in PathAbove(t, x, floor)
    ensures y in t.blocks && t.Descends(x, y) && t.Height(y) > floor
    decreases t.Rank(x)
  {
    if y != x {
      PathMembersAreAncestors(t, t.blocks[x].parent, floor, y);
    }
  }

  lemma {:induction false} AncestorsAreOnPath(t: Chain, x: BlockId, floor: nat, y: BlockId)
    requires t.WellFormed() && t.Anchored(x) && t.Descends(x, y) && y in t.blocks && t.Height(y) > floor
    ensures x in t.blocks && PathStored(t, x, floor) && y in PathAbove(t, x, floor)
    decreases t.Rank(x)
  {
    AnchoredPath(t, x, floor);
    DescendsHeight(t, x, y);
    if y != x {
      AncestorsAreOnPath(t, t.blocks[x].parent, floor, y);
    }
  }

  ghost predicate Distinct(ids: seq<BlockId>) {
    forall i, j :: 0 <= i < j < |ids| ==> ids[i] != ids[j]
  }

  lemma DistinctExtends(ids: seq<BlockId>, x: BlockId)
    requires Distinct(ids) && x !in ids
    ensures Distinct(ids + [x])
  {
  }

  lemma {:induction false} PathIsDistinct(t: Chain, x: BlockId, floor: nat)
    requires t.WellFormed() && t.Anchored(x)
    ensures x in t.blocks && PathStored(t, x, floor) && Distinct(PathAbove(t, x, floor))
    decreases t.Rank(x)
  {
    AnchoredPath(t, x, floor);
    if t.Height(x) <= floor {
      NothingAbove(t, x, floor);
    } else {
      hide Distinct;
      var parent := t.blocks[x].parent;
      PathIsDistinct(t, parent, floor);
      var path := PathAbove(t, parent, floor);
      if x in path {
        PathMembersAreAncestors(t, parent, floor, x);
        DescendsHeight(t, parent, x);
      }
      DistinctExtends(path, x);
    }
  }

  // ---- Orphans ----

  lemma {:induction false} BranchIsNotOrphaned(t: Chain, stored: set<BlockId>, x: BlockId, w: BlockId, y: BlockId)
    requires t.WellFormed() && t.Anchored(x) && w in t.blocks && y in t.blocks && t.Descends(x, w) && t.Descends(x, y)
    ensures !Orphaned(t, stored, w, y)
    decreases t.Rank(y)
  {
    SameHeightOnBranch(t, x, w, y);
    var parent := t.blocks[y].parent;
    if y != t.genesis && parent in t.blocks {
      assert t.Descends(parent, parent) && t.Descends(y, parent);
      DescendsTransitive(t, x, y, parent);
      BranchIsNotOrphaned(t, stored, x, w, parent);
    }
  }

  lemma SameHeightOnBranch(t: Chain, x: BlockId, w: BlockId, y: BlockId)
    requires t.WellFormed() && t.Anchored(x) && w in t.blocks && y in t.blocks && t.Descends(x, w) && t.Descends(x, y)
    ensures t.Height(w) == t.Height(y) ==> w == y
  {
    AnchoredPath(t, x, 0);
    AncestorsComparable(t, x, w, y);
    DescendsHeight(t, x, w);
    DescendsHeight(t, x, y);
    if t.Descends(w, y) {
      DescendsHeight(t, w, y);
    } else {
      DescendsHeight(t, y, w);
    }
  }

  lemma {:induction false} ClearingKeepsBranch(t: Chain, stored: set<BlockId>, locks: seq<BlockId>, x: BlockId, y: BlockId)
    requires t.WellFormed() && t.Anchored(x) && y in t.blocks && t.Descends(x, y) && y in stored
    requires forall i :: 0 <= i < |locks| ==> locks[i] in t.blocks && t.Descends(x, locks[i])
    ensures y in Cleared(t, stored, locks)
  {
    if locks != [] {
      var init, w := locks[..|locks| - 1], locks[|locks| - 1];
      ClearingKeepsBranch(t, stored, init, x, y);
      BranchIsNotOrphaned(t, Cleared(t, stored, init), x, w, y);
    }
  }

  lemma {:induction false} ClearingRemovesOthers(t: Chain, stored: set<BlockId>, locks: seq<BlockId>, i: nat, z: BlockId)
    requires t.WellFormed() && (forall k :: 0 <= k < |locks| ==> locks[k] in t.blocks) && i < |locks|
    requires z in t.blocks && z in Cleared(t, stored, locks) && t.Height(z) == t.Height(locks[i])
    ensures z == locks[i]
  {
    if i < |locks| - 1 {
      ClearingRemovesOthers(t, stored, locks[..|locks| - 1], i, z);
    }
  }

  /** Stored blocks lead from `y` up to `z`. */
  ghost predicate LeadsTo(t: Chain, stored: set<BlockId>, y: BlockId, z: BlockId)
    requires t.WellFormed() && stored <= t.blocks.Keys
    decreases t.Rank(y)
  {
    y in stored && (y == z || (y != t.genesis && LeadsTo(t, stored, t.blocks[y].parent, z)))
  }

  /** Stored blocks lead from `y` to no other block of the height of `w`. */
  ghost predicate NoRival(t: Chain, stored: set<BlockId>, w: BlockId, y: BlockId)
    requires t.WellFormed() && stored <= t.blocks.Keys && w in t.blocks
  {
    forall z :: LeadsTo(t, stored, y, z) && z in t.blocks && t.Height(z) == t.Height(w) ==> z == w
  }

  ghost predicate NoRivals(t: Chain, stored: set<BlockId>, locks: seq<BlockId>, y: BlockId)
    requires t.WellFormed() && stored <= t.blocks.Keys && forall i :: 0 <= i < |locks| ==> locks[i] in t.blocks
  {
    forall i :: 0 <= i < |locks| ==> NoRival(t, stored, locks[i], y)
  }

  lemma {:induction false} OrphanedExactlyWhen(t: Chain, stored: set<BlockId>, w: BlockId, y: BlockId)
    requires t.WellFormed() && stored <= t.blocks.Keys && w in t.blocks && y in stored
    ensures Orphaned(t, stored, w, y) <==> !NoRival(t, stored, w, y)
    decreases t.Rank(y)
  {
    var parent := t.blocks[y].parent;
    assert LeadsTo(t, stored, y, y);
    if y != t.genesis && parent in stored {
      OrphanedExactlyWhen(t, stored, w, parent);
      assert forall z :: LeadsTo(t, stored, y, z) <==> z == y || LeadsTo(t, stored, parent, z);
    } else {
      assert forall z :: LeadsTo(t, stored, y, z) <==> z == y;
    }
  }

  lemma {:induction false} LeadsTransitively(t: Chain, stored: set<BlockId>, x: BlockId, y: BlockId, z: BlockId)
    requires t.WellFormed() && stored <= t.blocks.Keys && LeadsTo(t, stored, x, y) && LeadsTo(t, stored, y, z)
    ensures LeadsTo(t, stored, x, z)
    decreases t.Rank(x)
  {
    if x != y {
      LeadsTransitively(t, stored, t.blocks[x].parent, y, z);
    }
  }

  lemma RivalsInherited(t: Chain, stored: set<BlockId>, locks: seq<BlockId>, x: BlockId, y: BlockId)
    requires t.WellFormed() && stored <= t.blocks.Keys && forall i :: 0 <= i < |locks| ==> locks[i] in t.blocks
    requires NoRivals(t, stored, locks, x) && LeadsTo(t, stored, x, y)
    ensures NoRivals(t, stored, locks, y)
  {
    forall z | LeadsTo(t, stored, y, z) ensures LeadsTo(t, stored, x, z) {
      LeadsTransitively(t, stored, x, y, z);
    }
    forall i | 0 <= i < |locks| ensures NoRival(t, stored, locks[i], y) {
      assert NoRival(t, stored, locks[i], x);
    }
  }

  /** From a block that is kept, the kept blocks lead where the stored ones led. */
  lemma {:induction false} ClearingKeepsPaths(t: Chain, stored: set<BlockId>, locks: seq<BlockId>, y: BlockId, z: BlockId)
    requires t.WellFormed() && stored <= t.blocks.Keys && forall i :: 0 <= i < |locks| ==> locks[i] in t.blocks
    requires y in stored && y in Cleared(t, stored, locks)
    ensures Cleared(t, stored, locks) <= stored
    ensures LeadsTo(t, Cleared(t, stored, locks), y, z) <==> LeadsTo(t, stored, y, z)
    decreases |locks|, t.Rank(y), 1
  {
    hide Cleared, NoRivals;
    ClearedIsStored(t, stored, locks);
    var parent := t.blocks[y].parent;
    if y != z && y != t.genesis && parent in stored {
      assert LeadsTo(t, stored, parent, parent) && LeadsTo(t, stored, y, parent);
      ClearedExactlyWhen(t, stored, locks, y);
      RivalsInherited(t, stored, locks, y, parent);
      ClearedExactlyWhen(t, stored, locks, parent);
      ClearingKeepsPaths(t, stored, locks, parent, z);
    }
  }

  /** What locking keeps: exactly the stored blocks from which stored blocks lead to no rival of a block locked. */
  lemma {:induction false} ClearedExactlyWhen(t: Chain, stored: set<BlockId>, locks: seq<BlockId>, y: BlockId)
    requires t.WellFormed() && stored <= t.blocks.Keys && forall i :: 0 <= i < |locks| ==> locks[i] in t.blocks
    ensures y in Cleared(t, stored, locks) <==> y in stored && NoRivals(t, stored, locks, y)
    decreases |locks|, if y in t.blocks then t.Rank(y) else 0, 0
  {
    ClearedIsStored(t, stored, locks);
    if locks != [] && y in stored {
      hide LeadsTo, Orphaned;
      var init, w := locks[..|locks| - 1], locks[|locks| - 1];
      var before := Cleared(t, stored, init);
      ClearedExactlyWhen(t, stored, init, y);
      ClearedIsStored(t, stored, init);
      assert locks == init + [w];
      if y in before {
        OrphanedExactlyWhen(t, before, w, y);
        forall z ensures LeadsTo(t, before, y, z) <==> LeadsTo(t, stored, y, z) {
          ClearingKeepsPaths(t, stored, init, y, z);
        }
        assert NoRival(t, before, w, y) <==> NoRival(t, stored, w, y);
      }
    }
  }

  /** Locking a branch keeps every stored block of it, and of the heights newly locked nothing else. */
  lemma LockingKeepsExactlyBranch(t: Chain, stored: set<BlockId>, x: BlockId, floor: nat)
    requires t.WellFormed() && t.Anchored(x)
    ensures x in t.blocks && PathStored(t, x, floor)
    ensures var kept := Cleared(t, stored, PathAbove(t, x, floor));
            && kept <= stored
            && (forall y :: y in t.blocks && t.Descends(x, y) && y in stored ==> y in kept)
            && (forall y, z :: y in PathAbove(t, x, floor) && z in kept && z in t.blocks && t.Height(z) == t.Height(y) ==> z == y)
  {
    AnchoredPath(t, x, floor);
    hide PathAbove, PathStored, Cleared, Chain.Anchored;
    var path := PathAbove(t, x, floor);
    ClearedIsStored(t, stored, path);
    forall i | 0 <= i < |path| ensures t.Descends(x, path[i]) {
      PathMembersAreAncestors(t, x, floor, path[i]);
    }
    forall y | y in t.blocks && t.Descends(x, y) && y in stored ensures y in Cleared(t, stored, path) {
      ClearingKeepsBranch(t, stored, path, x, y);
    }
    forall y, z | y in path && z in Cleared(t, stored, path) && z in t.blocks && t.Height(z) == t.Height(y) ensures z == y {
      var i :| 0 <= i < |path| && path[i] == y;
      ClearingRemovesOthers(t, stored, path, i, z);
    }
  }

  // ---- The committed log ----

  /** A commit head is the start of a certified three-chain. */
  lemma CommitHeadIsCommitted(t: Chain, c: Committee, h: History, x: BlockId)
    requires t.WellFormed() && x in t.blocks && CommitHead(t, x) != t.genesis
    requires forall y :: y in t.blocks ==> Certified(t, c, h, t.blocks[y].justify)
    ensures Committed(t, c, h, CommitHead(t, x))
  {
    hide Certified;
    assert ThreeChain(t, c, h, CommitHead(t, x), LockTarget(t, x), t.blocks[x].justify);
  }

  lemma ExecutedByStep(t: Chain, s: State, e: Event, y: BlockId)
    requires Knows(t, s) && e.block in t.blocks && y in Step(t, s, e).executed && y !in s.executed
    ensures var b, floor := CommitHead(t, e.block), t.Height(s.lastExecuted);
            b != t.genesis && PathStored(t, b, floor) && y in PathAbove(t, b, floor)
  {
    hide PathStored, PathAbove, CommitHead, LockTarget, Remaining;
  }

  lemma {:induction false} ExecutedBelowCommitted(t: Chain, c: Committee, h: History, es: seq<Event>, y: BlockId)
    returns (b: BlockId)
    requires Processable(t, es) && y in Run(t, es).executed
    requires forall x :: x in t.blocks ==> Certified(t, c, h, t.blocks[x].justify)
    ensures Committed(t, c, h, b) && b in t.blocks && y in t.blocks && t.Descends(b, y)
  {
    hide Certified, Committed, PathStored, PathAbove, CommitHead, Step;
    var before, x := Run(t, es[..|es| - 1]), es[|es| - 1].block;
    if y in before.executed {
      b := ExecutedBelowCommitted(t, c, h, es[..|es| - 1], y);
    } else {
      b := CommitHead(t, x);
      ExecutedByStep(t, before, es[|es| - 1], y);
      CommitHeadIsCommitted(t, c, h, x);
      PathMembersAreAncestors(t, b, t.Height(before.lastExecuted), y);
    }
  }

  /** No fork: blocks executed by any two validators, in any runs, lie on one branch. */
  lemma ExecutedBlocksNeverFork(t: Chain, c: Committee, h: History, faulty: set<PublicKey>,
                                es1: seq<Event>, es2: seq<Event>, y1: BlockId, y2: BlockId)
    requires ValidRun(t, c, h, faulty) && Processable(t, es1) && Processable(t, es2)
    requires y1 in Run(t, es1).executed && y2 in Run(t, es2).executed
    ensures y1 in t.blocks && y2 in t.blocks && (t.Descends(y1, y2) || t.Descends(y2, y1))
  {
    hide Run;
    var b1 := ExecutedBelowCommitted(t, c, h, es1, y1);
    var b2 := ExecutedBelowCommitted(t, c, h, es2, y2);
    Agreement(t, c, h, faulty, b1, b2);
    if t.Descends(b1, b2) {
      DescendsTransitive(t, b1, b2, y2);
      AncestorsComparable(t, b1, y1, y2);
    } else {
      DescendsTransitive(t, b2, b1, y1);
      AncestorsComparable(t, b2, y1, y2);
    }
  }

  /** The block is genesis or committed. */
  ghost predicate Final(t: Chain, c: Committee, h: History, b: BlockId)
    requires t.WellFormed()
  {
    b == t.genesis || Committed(t, c, h, b)
  }

  lemma FinalIsAnchored(t: Chain, c: Committee, h: History, faulty: set<PublicKey>, b: BlockId)
    requires ValidRun(t, c, h, faulty) && Final(t, c, h, b)
    ensures b in t.blocks && t.Anchored(b)
  {
    if b != t.genesis {
      var b1, b2 :| ThreeChain(t, c, h, b, b1, b2);
      assert Certified(t, c, h, t.blocks[b1].justify);
      assert WellShaped(t, b);
    }
  }

  lemma FinalBlocksCompare(t: Chain, c: Committee, h: History, faulty: set<PublicKey>, b: BlockId, w: BlockId)
    requires ValidRun(t, c, h, faulty) && Final(t, c, h, b) && Final(t, c, h, w)
    ensures b in t.blocks && w in t.blocks && t.Anchored(b) && t.Anchored(w)
    ensures t.Height(b) <= t.Height(w) ==> t.Descends(w, b)
    ensures t.Height(w) <= t.Height(b) ==> t.Descends(b, w)
  {
    FinalIsAnchored(t, c, h, faulty, b);
    FinalIsAnchored(t, c, h, faulty, w);
    hide ValidRun, Committed;
    if b == t.genesis || w == t.genesis {
      DescendsFromGenesis(t, if b == t.genesis then w else b);
    } else {
      Agreement(t, c, h, faulty, b, w);
    }
    if t.Descends(b, w) {
      DescendsHeight(t, b, w);
    } else {
      DescendsHeight(t, w, b);
    }
  }

  /** The log is exactly the branch up to the last executed block. */
  ghost predicate LogIsBranch(t: Chain, s: State)
    requires Knows(t, s)
  {
    PathStored(t, s.lastExecuted, 0) && s.executed == PathAbove(t, s.lastExecuted, 0)
  }

  /** Committing a head on the executed branch keeps the log equal to the branch of the last executed block
      exactly when the head is not below it. */
  lemma LogTracksHead(t: Chain, s: State, x: BlockId)
    requires Knows(t, s) && x in t.blocks && LogIsBranch(t, s) && Completes(t, s, x)
    requires CommitHead(t, x) != t.genesis && t.Anchored(CommitHead(t, x)) && t.Anchored(s.lastExecuted)
    requires t.Descends(CommitHead(t, x), s.lastExecuted) || t.Descends(s.lastExecuted, CommitHead(t, x))
    ensures Knows(t, Updated(t, s, x))
    ensures LogIsBranch(t, Updated(t, s, x)) <==> t.Height(CommitHead(t, x)) >= t.Height(s.lastExecuted)
  {
    hide CommitHead, LockTarget;
    var b, last := CommitHead(t, x), s.lastExecuted;
    UpdatedIsKnown(t, s, x);
    AnchoredPath(t, b, 0);
    if t.Height(b) >= t.Height(last) {
      if t.Descends(last, b) {
        DescendsHeight(t, last, b);
      }
      PathSplit(t, b, last, 0);
    } else {
      if t.Descends(b, last) {
        DescendsHeight(t, b, last);
      }
      PathSplit(t, last, b, 0);
      assert PathAbove(t, last, t.Height(b)) != [];
    }
  }

  /** A head below the last executed block moves the record back, so the next commit that is not below that
      block hands it to the callback a second time. */
  lemma LowerHeadRepeatsExecution(t: Chain, s: State, x: BlockId, y: BlockId)
    requires Knows(t, s) && x in t.blocks && y in t.blocks && LogIsBranch(t, s) && Completes(t, s, x)
    requires CommitHead(t, x) != t.genesis && t.Height(CommitHead(t, x)) < t.Height(s.lastExecuted)
    requires t.Anchored(CommitHead(t, y)) && t.Descends(CommitHead(t, y), s.lastExecuted)
    requires Knows(t, Updated(t, s, x)) && Completes(t, Updated(t, s, x), y)
    ensures multiset(Updated(t, Updated(t, s, x), y).executed)[s.lastExecuted] >= 2
  {
    hide CommitHead, LockTarget, PathStored, PathAbove;
    var last, b, d := s.lastExecuted, CommitHead(t, x), CommitHead(t, y);
    DescendsHeight(t, d, last);
    PathSplit(t, d, last, t.Height(b));
    AncestorsAreOnPath(t, last, 0, last);
    AncestorsAreOnPath(t, last, t.Height(b), last);
    NothingAbove(t, b, t.Height(last));
    OccursTwice(s.executed, PathAbove(t, last, t.Height(b)), PathAbove(t, d, t.Height(last)), last);
    assert s.executed + [] == s.executed;
  }

  lemma NothingAbove(t: Chain, x: BlockId, floor: nat)
    requires t.WellFormed() && x in t.blocks && t.Height(x) <= floor
    ensures PathStored(t, x, floor) && PathAbove(t, x, floor) == []
  {
  }

  lemma OccursTwice(log: seq<BlockId>, a: seq<BlockId>, b: seq<BlockId>, x: BlockId)
    requires x in log && x in a
    ensures multiset(log + (a + b))[x] >= 2
  {
    assert multiset(log + (a + b)) == multiset(log) + multiset(a) + multiset(b);
  }

  /** No processed proposal completed a three-chain below the last executed block. */
  ghost predicate HeadsNeverDrop(t: Chain, es: seq<Event>)
    requires Processable(t, es)
  {
    es == [] ||
    var e := es[|es| - 1];
    && HeadsNeverDrop(t, es[..|es| - 1])
    && (Commits(t, Run(t, es[..|es| - 1]), e) ==> KeepsHead(t, Run(t, es[..|es| - 1]), e.block))
  }

  /** The block completes no three-chain below the last executed block. */
  ghost predicate KeepsHead(t: Chain, s: State, x: BlockId)
    requires Knows(t, s) && x in t.blocks
  {
    CommitHead(t, x) == t.genesis || t.Height(CommitHead(t, x)) >= t.Height(s.lastExecuted)
  }

  lemma LastHead(t: Chain, es: seq<Event>)
    requires Processable(t, es) && es != []
    ensures var init, e := es[..|es| - 1], es[|es| - 1];
            HeadsNeverDrop(t, es) <==>
            HeadsNeverDrop(t, init) && (Commits(t, Run(t, init), e) ==> KeepsHead(t, Run(t, init), e.block))
  {
    hide Commits, KeepsHead, Run;
  }

  // ---- First executions ----

  /** The log without the repetitions: every block where it was executed first. */
  ghost function Firsts(log: seq<BlockId>): seq<BlockId> {
    if log == [] then []
    else
      var init, last := log[..|log| - 1], log[|log| - 1];
      if last in init then Firsts(init) else Firsts(init) + [last]
  }

  lemma {:induction false} FirstsOfOld(log: seq<BlockId>, seen: seq<BlockId>)
    requires forall y :: y in seen ==> y in log
    ensures Firsts(log + seen) == Firsts(log)
    decreases |seen|
  {
    if seen == [] {
      assert log + seen == log;
    } else {
      var init := seen[..|seen| - 1];
      FirstsOfOld(log, init);
      assert (log + seen)[..|log + seen| - 1] == log + init;
      assert seen[|seen| - 1] in log + init;
    }
  }

  lemma {:induction false} FirstsOfNew(log: seq<BlockId>, added: seq<BlockId>)
    requires forall y :: y in added ==> y !in log
    requires Distinct(added)
    ensures Firsts(log + added) == Firsts(log) + added
    decreases |added|
  {
    if added == [] {
      assert log + added == log;
    } else {
      var init, last := added[..|added| - 1], added[|added| - 1];
      FirstsOfNew(log, init);
      assert (log + added)[..|log + added| - 1] == log + init;
      assert last !in log + init;
    }
  }

  lemma FirstsOfMixed(log: seq<BlockId>, repeated: seq<BlockId>, added: seq<BlockId>)
    requires forall y :: y in repeated ==> y in log
    requires forall y :: y in added ==> y !in log
    requires Distinct(added)
    ensures Firsts(log + (repeated + added)) == Firsts(log) + added
    ensures forall y :: y in log + (repeated + added) <==> y in log || y in added
  {
    FirstsOfOld(log, repeated);
    FirstsOfNew(log + repeated, added);
    assert log + (repeated + added) == log + repeated + added;
  }

  /** The blocks first executed are the branch up to `top`, which the last executed block is on. */
  ghost predicate FirstsAreBranch(t: Chain, c: Committee, h: History, s: State, top: BlockId)
    requires t.WellFormed()
  {
    && Final(t, c, h, top) && Final(t, c, h, s.lastExecuted)
    && t.Anchored(top) && top in t.blocks && t.Descends(top, s.lastExecuted)
    && PathStored(t, top, 0)
    && Firsts(s.executed) == PathAbove(t, top, 0)
    && (forall y :: y in s.executed <==> y in PathAbove(t, top, 0))
  }

  lemma RepeatedBranch(t: Chain, top: BlockId, b: BlockId, floor: nat, y: BlockId)
    requires t.WellFormed() && t.Anchored(top) && t.Descends(top, b) && b in t.blocks
    requires PathStored(t, b, floor) && y in PathAbove(t, b, floor)
    ensures top in t.blocks && PathStored(t, top, 0) && y in PathAbove(t, top, 0)
  {
    hide PathStored, PathAbove;
    PathMembersAreAncestors(t, b, floor, y);
    DescendsTransitive(t, top, b, y);
    AncestorsAreOnPath(t, top, 0, y);
  }

  lemma NewBranch(t: Chain, top: BlockId, b: BlockId, y: BlockId)
    requires t.WellFormed() && t.Anchored(top) && t.Anchored(b) && top in t.blocks && b in t.blocks
    requires PathStored(t, b, t.Height(top)) && y in PathAbove(t, b, t.Height(top))
    ensures PathStored(t, top, 0) && y !in PathAbove(t, top, 0)
  {
    hide PathStored, PathAbove;
    AnchoredPath(t, top, 0);
    PathMembersAreAncestors(t, b, t.Height(top), y);
    if y in PathAbove(t, top, 0) {
      PathMembersAreAncestors(t, top, 0, y);
      DescendsHeight(t, top, y);
    }
  }

  /** A head on the branch executed before repeats blocks of it. */
  lemma LowHeadAddsNothing(t: Chain, c: Committee, h: History, s: State, top: BlockId, b: BlockId)
    requires Knows(t, s) && FirstsAreBranch(t, c, h, s, top)
    requires Final(t, c, h, b) && b in t.blocks && t.Descends(top, b) && PathStored(t, b, t.Height(s.lastExecuted))
    ensures FirstsAreBranch(t, c, h, s.(lastExecuted := b, executed := s.executed + PathAbove(t, b, t.Height(s.lastExecuted))), top)
  {
    hide Final, PathStored, PathAbove;
    var segment := PathAbove(t, b, t.Height(s.lastExecuted));
    forall y | y in segment ensures y in s.executed {
      RepeatedBranch(t, top, b, t.Height(s.lastExecuted), y);
    }
    FirstsOfOld(s.executed, segment);
  }

  /** A head above everything executed before adds exactly the new part of the branch. */
  lemma HighHeadExtends(t: Chain, c: Committee, h: History, s: State, top: BlockId, b: BlockId)
    requires Knows(t, s) && FirstsAreBranch(t, c, h, s, top)
    requires Final(t, c, h, b) && t.Anchored(b) && b in t.blocks && t.Descends(b, top)
    ensures PathStored(t, b, t.Height(s.lastExecuted))
    ensures FirstsAreBranch(t, c, h, s.(lastExecuted := b, executed := s.executed + PathAbove(t, b, t.Height(s.lastExecuted))), b)
  {
    hide Final, PathStored, PathAbove, Firsts;
    var floor := t.Height(s.lastExecuted);
    DescendsHeight(t, top, s.lastExecuted);
    assert t.Descends(b, b);
    PathSplit(t, b, top, floor);
    PathSplit(t, b, top, 0);
    PathIsDistinct(t, b, t.Height(top));
    var repeated, added := PathAbove(t, top, floor), PathAbove(t, b, t.Height(top));
    forall y | y in repeated ensures y in s.executed {
      assert t.Descends(top, top);
      RepeatedBranch(t, top, top, floor, y);
    }
    forall y | y in added ensures y !in s.executed {
      NewBranch(t, top, b, y);
    }
    FirstsOfMixed(s.executed, repeated, added);
  }

  lemma StepKeepsFirsts(t: Chain, c: Committee, h: History, faulty: set<PublicKey>, s: State, e: Event, top: BlockId)
    returns (top': BlockId)
    requires ValidRun(t, c, h, faulty) && Knows(t, s) && e.block in t.blocks && FirstsAreBranch(t, c, h, s, top)
    ensures FirstsAreBranch(t, c, h, Step(t, s, e), top')
  {
    hide CommitHead, Committed, FirstsAreBranch, LockTarget, PathStored, PathAbove, Step, Commits, ValidRun;
    var b, s' := CommitHead(t, e.block), Step(t, s, e);
    top' := top;
    StepLog(t, s, e);
    if Commits(t, s, e) && b != t.genesis {
      HeadIsFinal(t, c, h, faulty, e.block);
      TopIsFinal(t, c, h, s, top);
      FinalBlocksCompare(t, c, h, faulty, b, top);
      var moved := s.(lastExecuted := b, executed := s.executed + PathAbove(t, b, t.Height(s.lastExecuted)));
      if t.Height(b) <= t.Height(top) {
        LowHeadAddsNothing(t, c, h, s, top, b);
      } else {
        HighHeadExtends(t, c, h, s, top, b);
        top' := b;
      }
      SameLogSameFirsts(t, c, h, moved, s', top');
    } else {
      SameLogSameFirsts(t, c, h, s, s', top);
    }
  }

  lemma HeadIsFinal(t: Chain, c: Committee, h: History, faulty: set<PublicKey>, x: BlockId)
    requires ValidRun(t, c, h, faulty) && x in t.blocks
    ensures Final(t, c, h, CommitHead(t, x))
  {
    hide CommitHead, Committed;
    if CommitHead(t, x) != t.genesis {
      CommitHeadIsCommitted(t, c, h, x);
    }
  }

  /** What one step does to the log. */
  lemma StepLog(t: Chain, s: State, e: Event)
    requires Knows(t, s) && e.block in t.blocks
    ensures var b, s' := CommitHead(t, e.block), Step(t, s, e);
            if Commits(t, s, e) && b != t.genesis then
              && PathStored(t, b, t.Height(s.lastExecuted))
              && s'.lastExecuted == b && s'.executed == s.executed + PathAbove(t, b, t.Height(s.lastExecuted))
            else
              s'.lastExecuted == s.lastExecuted && s'.executed == s.executed
  {
    hide CommitHead, LockTarget, PathStored, PathAbove, Remaining;
  }

  lemma TopIsFinal(t: Chain, c: Committee, h: History, s: State, top: BlockId)
    requires t.WellFormed() && FirstsAreBranch(t, c, h, s, top)
    ensures Final(t, c, h, top) && Final(t, c, h, s.lastExecuted)
  {
  }

  lemma SameLogSameFirsts(t: Chain, c: Committee, h: History, s: State, s': State, top: BlockId)
    requires t.WellFormed() && FirstsAreBranch(t, c, h, s, top)
    requires s'.lastExecuted == s.lastExecuted && s'.executed == s.executed
    ensures FirstsAreBranch(t, c, h, s', top)
  {
  }

  lemma StartOfFirsts(t: Chain, c: Committee, h: History)
    requires t.WellFormed()
    ensures FirstsAreBranch(t, c, h, Run(t, []), t.genesis)
  {
    assert Run(t, []) == Initial(t);
    assert t.Descends(t.genesis, t.genesis);
  }

  /** In every run, however its three-chains are ordered, the blocks first executed are a branch up to a committed block. */
  lemma {:induction false} FirstExecutionsAreBranch(t: Chain, c: Committee, h: History, faulty: set<PublicKey>, es: seq<Event>)
    returns (top: BlockId)
    requires ValidRun(t, c, h, faulty) && Processable(t, es)
    ensures FirstsAreBranch(t, c, h, Run(t, es), top)
  {
    hide FirstsAreBranch, Step, Run, CertifiedTree, Disciplined;
    if es == [] {
      top := t.genesis;
      StartOfFirsts(t, c, h);
    } else {
      LastEvent(t, es);
      top := FirstExecutionsAreBranch(t, c, h, faulty, es[..|es| - 1]);
      top := StepKeepsFirsts(t, c, h, faulty, Run(t, es[..|es| - 1]), es[|es| - 1], top);
    }
  }

  lemma BranchesArePrefixes(t: Chain, a: BlockId, b: BlockId)
    requires t.WellFormed() && t.Anchored(a) && t.Anchored(b) && a in t.blocks && t.Descends(a, b)
    ensures b in t.blocks && PathStored(t, a, 0) && PathStored(t, b, 0) && PathAbove(t, b, 0) <= PathAbove(t, a, 0)
  {
    DescendsHeight(t, a, b);
    PathSplit(t, a, b, 0);
  }

  /** The orders in which any two validators first executed their blocks are prefixes of one another, in all runs. */
  lemma FirstExecutionsArePrefixes(t: Chain, c: Committee, h: History, faulty: set<PublicKey>, es1: seq<Event>, es2: seq<Event>)
    requires ValidRun(t, c, h, faulty) && Processable(t, es1) && Processable(t, es2)
    ensures var first1, first2 := Firsts(Run(t, es1).executed), Firsts(Run(t, es2).executed);
            first1 <= first2 || first2 <= first1
  {
    hide ValidRun, Run, PathStored, PathAbove, Final, Firsts;
    var top1 := FirstExecutionsAreBranch(t, c, h, faulty, es1);
    var top2 := FirstExecutionsAreBranch(t, c, h, faulty, es2);
    FinalBlocksCompare(t, c, h, faulty, top1, top2);
    if t.Height(top1) <= t.Height(top2) {
      BranchesArePrefixes(t, top2, top1);
    } else {
      BranchesArePrefixes(t, top1, top2);
    }
  }

  // ---- When the log repeats nothing ----

  /** The log is the branch of the last executed block after every event. */
  ghost predicate AlwaysBranch(t: Chain, es: seq<Event>)
    requires Processable(t, es)
  {
    LogIsBranch(t, Run(t, es)) && (es == [] || AlwaysBranch(t, es[..|es| - 1]))
  }

  lemma LastBranch(t: Chain, es: seq<Event>)
    requires Processable(t, es) && es != []
    ensures AlwaysBranch(t, es) <==> LogIsBranch(t, Run(t, es)) && AlwaysBranch(t, es[..|es| - 1])
  {
    hide Run, LogIsBranch;
  }

  lemma StartIsBranch(t: Chain)
    requires t.WellFormed()
    ensures AlwaysBranch(t, []) && HeadsNeverDrop(t, [])
  {
    assert Run(t, []) == Initial(t);
  }

  /** In a valid run no block that an update needs is missing. */
  lemma ValidRunCompletes(t: Chain, c: Committee, h: History, faulty: set<PublicKey>, s: State, x: BlockId)
    requires ValidRun(t, c, h, faulty) && Knows(t, s) && x in t.blocks
    ensures Completes(t, s, x)
  {
    hide CommitHead, PathStored, Disciplined;
    var target, b := LockTarget(t, x), CommitHead(t, x);
    assert Certified(t, c, h, t.blocks[t.blocks[x].justify].justify);
    assert WellShaped(t, target);
    AnchoredPath(t, target, t.Height(s.locked));
    HeadIsFinal(t, c, h, faulty, x);
    FinalIsAnchored(t, c, h, faulty, b);
    AnchoredPath(t, b, t.Height(s.lastExecuted));
  }

  lemma StepKeepsBranchExactlyWhen(t: Chain, c: Committee, h: History, faulty: set<PublicKey>, s: State, e: Event)
    requires ValidRun(t, c, h, faulty) && Knows(t, s) && e.block in t.blocks
    requires LogIsBranch(t, s) && Final(t, c, h, s.lastExecuted)
    ensures Knows(t, Step(t, s, e))
    ensures LogIsBranch(t, Step(t, s, e)) <==> (Commits(t, s, e) ==> KeepsHead(t, s, e.block))
  {
    hide CommitHead, Committed, Completes, Updated, PathStored, PathAbove, ValidRun, LockTarget, Remaining, Step;
    StepIsKnown(t, s, e);
    StepLog(t, s, e);
    if Commits(t, s, e) && CommitHead(t, e.block) != t.genesis {
      HeadIsFinal(t, c, h, faulty, e.block);
      FinalBlocksCompare(t, c, h, faulty, CommitHead(t, e.block), s.lastExecuted);
      LogTracksHead(t, s, e.block);
      UpdatedLog(t, s, e.block);
    }
  }

  lemma UpdatedLog(t: Chain, s: State, x: BlockId)
    requires Knows(t, s) && x in t.blocks && Completes(t, s, x) && CommitHead(t, x) != t.genesis
    ensures var b, s' := CommitHead(t, x), Updated(t, s, x);
            && Knows(t, s') && PathStored(t, b, t.Height(s.lastExecuted))
            && s'.lastExecuted == b && s'.executed == s.executed + PathAbove(t, b, t.Height(s.lastExecuted))
  {
    hide CommitHead, LockTarget, PathStored, PathAbove;
    UpdatedIsKnown(t, s, x);
  }

  /** The log stays the branch of the last executed block throughout a run exactly when no processed proposal
      completes a three-chain that starts below the last executed block. */
  lemma {:induction false} LogStaysBranchExactlyWhen(
    t: Chain, c: Committee, h: History, faulty: set<PublicKey>, es: seq<Event>)
    requires ValidRun(t, c, h, faulty) && Processable(t, es)
    ensures AlwaysBranch(t, es) <==> HeadsNeverDrop(t, es)
  {
    hide Commits, KeepsHead, LogIsBranch, Final, Step, Run, HeadsNeverDrop, CertifiedTree, Disciplined, AlwaysBranch;
    hide FirstsAreBranch;
    if es == [] {
      StartIsBranch(t);
    } else {
      var init := es[..|es| - 1];
      LastEvent(t, es);
      LastHead(t, es);
      LastBranch(t, es);
      LogStaysBranchExactlyWhen(t, c, h, faulty, init);
      if AlwaysBranch(t, init) {
        var top := FirstExecutionsAreBranch(t, c, h, faulty, init);
        TopIsFinal(t, c, h, Run(t, init), top);
        AlwaysBranchEnds(t, init);
        StepKeepsBranchExactlyWhen(t, c, h, faulty, Run(t, init), es[|es| - 1]);
      }
    }
  }

  lemma AlwaysBranchEnds(t: Chain, es: seq<Event>)
    requires Processable(t, es) && AlwaysBranch(t, es)
    ensures LogIsBranch(t, Run(t, es))
  {
  }

  /** The committed logs themselves are prefixes of one another in runs without lower heads. */
  lemma LogsArePrefixes(t: Chain, c: Committee, h: History, faulty: set<PublicKey>, es1: seq<Event>, es2: seq<Event>)
    requires ValidRun(t, c, h, faulty)
    requires Processable(t, es1) && HeadsNeverDrop(t, es1)
    requires Processable(t, es2) && HeadsNeverDrop(t, es2)
    ensures Run(t, es1).executed <= Run(t, es2).executed || Run(t, es2).executed <= Run(t, es1).executed
  {
    hide ValidRun, Run, PathStored, PathAbove, Final, HeadsNeverDrop, FirstsAreBranch;
    LogStaysBranchExactlyWhen(t, c, h, faulty, es1);
    LogStaysBranchExactlyWhen(t, c, h, faulty, es2);
    AlwaysBranchEnds(t, es1);
    AlwaysBranchEnds(t, es2);
    var top1 := FirstExecutionsAreBranch(t, c, h, faulty, es1);
    var top2 := FirstExecutionsAreBranch(t, c, h, faulty, es2);
    TopIsFinal(t, c, h, Run(t, es1), top1);
    TopIsFinal(t, c, h, Run(t, es2), top2);
    var l1, l2 := Run(t, es1).lastExecuted, Run(t, es2).lastExecuted;
    FinalBlocksCompare(t, c, h, faulty, l1, l2);
    if t.Height(l1) <= t.Height(l2) {
      BranchesArePrefixes(t, l2, l1);
    } else {
      BranchesArePrefixes(t, l1, l2);
    }
  }

  // ---- The whole committee ----

  /** Every key outside `faulty` votes as its own run of the code does, for safe blocks above its last vote sent. */
  ghost predicate SystemRun(t: Chain, c: Committee, h: History, faulty: set<PublicKey>, runs: map<PublicKey, seq<Event>>) {
    && t.WellFormed()
    && TotalPower(c) > 0
    && Weight(c, faulty) <= MaxFailures(c)
    && CertifiedTree(t, c, h)
    && (forall k :: k in h && k !in faulty ==> k in runs && VotesByTheRules(t, h[k], runs[k]))
  }

  ghost predicate VotesByTheRules(t: Chain, ballots: seq<Ballot>, es: seq<Event>) {
    && Processable(t, es) && ballots == Cast(t, es)
    && Known(t, ballots) && Safe(t, ballots) && VotesAboveLastSent(t, es)
  }

  lemma SystemRunIsValid(t: Chain, c: Committee, h: History, faulty: set<PublicKey>, runs: map<PublicKey, seq<Event>>)
    requires SystemRun(t, c, h, faulty, runs)
    ensures ValidRun(t, c, h, faulty)
  {
    hide Run, Certified, Cast, Safe, VotesAboveLastSent, Disciplined;
    forall k | k in h && k !in faulty ensures Disciplined(t, c, h, h[k]) {
      assert VotesByTheRules(t, h[k], runs[k]);
      RunIsDisciplinedExactlyWhen(t, c, h, runs[k]);
    }
  }

  /** Validators that run this code follow the voting rules, so their committed blocks never conflict. */
  lemma SystemRunsAgree(t: Chain, c: Committee, h: History, faulty: set<PublicKey>, runs: map<PublicKey, seq<Event>>,
                        k1: PublicKey, k2: PublicKey, y1: BlockId, y2: BlockId)
    requires SystemRun(t, c, h, faulty, runs)
    requires k1 in runs && Processable(t, runs[k1]) && y1 in Run(t, runs[k1]).executed
    requires k2 in runs && Processable(t, runs[k2]) && y2 in Run(t, runs[k2]).executed
    ensures y1 in t.blocks && y2 in t.blocks && (t.Descends(y1, y2) || t.Descends(y2, y1))
  {
    hide Run, ValidRun, SystemRun;
    SystemRunIsValid(t, c, h, faulty, runs);
    ExecutedBlocksNeverFork(t, c, h, faulty, runs[k1], runs[k2], y1, y2);
  }
}
