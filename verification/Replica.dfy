/** One validator's consensus bookkeeping: lock and commit updates, the safeNode check and voting, as in
    crates/consensus (traits/block_store.rs, hotstuff/on_receive_local_proposal.rs and
    hotstuff/on_ready_to_vote_on_local_block.rs) and Block::is_safe of crates/storage. */
module Replicas {
  import opened Wrappers
  import opened Committees
  import opened HotStuff

  /** The bookkeeping records of one epoch, and the blocks handed to the commit callback, in order. `lastVoted` is the
      record that decides about voting, `lastSent` the height of the last vote sent. */
  datatype State = State(
    locked: BlockId,
    lastExecuted: BlockId,
    lastVoted: nat,
    lastSent: nat,
    highPc: BlockId,
    highestSeen: BlockId,
    executed: seq<BlockId>)

  function Initial(t: Chain): State {
    State(t.genesis, t.genesis, 0, 0, t.genesis, t.genesis, [])
  }

  ghost predicate Knows(t: Chain, s: State) {
    && t.WellFormed()
    && s.locked in t.blocks && s.lastExecuted in t.blocks && s.highPc in t.blocks && s.highestSeen in t.blocks
  }

  /** Walking up from `x` to a height meets no missing parent. */
  ghost predicate PathStored(t: Chain, x: BlockId, floor: nat)
    requires t.WellFormed() && x in t.blocks
    decreases t.Rank(x)
  {
    t.Height(x) <= floor || (t.blocks[x].parent in t.blocks && PathStored(t, t.blocks[x].parent, floor))
  }

  /** The blocks of x's parent chain above a height, oldest first. */
  function PathAbove(t: Chain, x: BlockId, floor: nat): (path: seq<BlockId>)
    requires t.WellFormed() && x in t.blocks && PathStored(t, x, floor)
    ensures forall i :: 0 <= i < |path| ==> path[i] in t.blocks
    decreases t.Rank(x)
  {
    if t.Height(x) <= floor then [] else PathAbove(t, t.blocks[x].parent, floor) + [x]
  }

  /** The head of the direct three-chain that processing `x` completes, or genesis when there is none. */
  function CommitHead(t: Chain, x: BlockId): (b: BlockId)
    requires t.WellFormed() && x in t.blocks
    ensures b in t.blocks
  {
    var justified := t.blocks[x].justify;
    var locked := t.blocks[justified].justify;
    var b := t.blocks[locked].justify;
    if locked != t.genesis && t.blocks[justified].parent == locked && t.blocks[locked].parent == b then b else t.genesis
  }

  /** Processing `x` finds every block it looks up: those between the old and the new lock, and those to execute. */
  ghost predicate Completes(t: Chain, s: State, x: BlockId)
    requires Knows(t, s) && x in t.blocks
  {
    var target, b := LockTarget(t, x), CommitHead(t, x);
    && (t.Height(target) > t.Height(s.locked) ==> PathStored(t, target, t.Height(s.locked)))
    && (b != t.genesis ==> PathStored(t, b, t.Height(s.lastExecuted)))
  }

  /** The state after the block's certificate has updated the high certificate, the lock and the committed chain. */
  ghost function Updated(t: Chain, s: State, x: BlockId): State
    requires Knows(t, s) && x in t.blocks && Completes(t, s, x)
  {
    var target := LockTarget(t, x);
    var b := CommitHead(t, x);
    s.(highestSeen := if t.Height(s.highestSeen) < t.Height(x) then x else s.highestSeen,
       highPc := if t.Height(s.highPc) >= t.Height(t.blocks[x].justify) then s.highPc else t.blocks[x].justify,
       locked := if t.Height(target) > t.Height(s.locked) then target else s.locked,
       executed := if b == t.genesis then s.executed else s.executed + PathAbove(t, b, t.Height(s.lastExecuted)),
       lastExecuted := if b == t.genesis then s.lastExecuted else b)
  }

  // ---- Locking removes orphans ----

  /** Locking `w` removes `y`: another block of its height, or a stored descendant of one. */
  predicate Orphaned(t: Chain, stored: set<BlockId>, w: BlockId, y: BlockId)
    requires t.WellFormed() && w in t.blocks
    decreases t.Rank(y)
  {
    && y in stored && y in t.blocks
    && ((y != w && t.Height(y) == t.Height(w)) || (y != t.genesis && Orphaned(t, stored, w, t.blocks[y].parent)))
  }

  /** The blocks still stored after the given ones are locked, one after the other. */
  function Cleared(t: Chain, stored: set<BlockId>, locked: seq<BlockId>): set<BlockId>
    requires t.WellFormed() && forall i :: 0 <= i < |locked| ==> locked[i] in t.blocks
  {
    if locked == [] then stored
    else
      var before, w := Cleared(t, stored, locked[..|locked| - 1]), locked[|locked| - 1];
      set y | y in before && !Orphaned(t, before, w, y)
  }

  /** The blocks that processing `x` locks, oldest first. */
  ghost function NewlyLocked(t: Chain, s: State, x: BlockId): (path: seq<BlockId>)
    requires Knows(t, s) && x in t.blocks && Completes(t, s, x)
    ensures forall i :: 0 <= i < |path| ==> path[i] in t.blocks
  {
    var target := LockTarget(t, x);
    if t.Height(target) > t.Height(s.locked) then PathAbove(t, target, t.Height(s.locked)) else []
  }

  // ---- Processing a proposal ----

  /** How evaluating a block's commands ends: with a reason not to vote, with another state root than the block's, or in
      agreement. The last two come after the parent's state has been looked up. */
  datatype Evaluation = Declined | RootDiffers | Agreed

  /** A proposal as it reaches the validator: its block and timeout certificate height; the blocks stored, itself and its
      dummy blocks included, and those pending; the outcome of evaluating its commands; and whether the next leader is
      evicted. */
  datatype Event = Event(
    block: BlockId,
    timeout: Option<nat>,
    stored: set<BlockId>,
    pending: set<BlockId>,
    evaluation: Evaluation,
    skipLeader: bool)

  /** The blocks still stored when the vote is decided. */
  ghost function Remaining(t: Chain, s: State, e: Event): set<BlockId>
    requires Knows(t, s) && e.block in t.blocks && Completes(t, s, e.block)
  {
    Cleared(t, e.stored, NewlyLocked(t, s, e.block))
  }

  /** The block is above the last vote and none of its commands gives a reason not to vote. */
  predicate Considers(t: Chain, s: State, e: Event)
    requires e.block in t.blocks
  {
    t.Height(e.block) > s.lastVoted && !e.evaluation.Declined?
  }

  /** The transaction that processes the proposal commits: no block it looks up is missing. */
  ghost predicate Commits(t: Chain, s: State, e: Event)
    requires Knows(t, s) && e.block in t.blocks
  {
    && Completes(t, s, e.block)
    && t.blocks[e.block].justify in Remaining(t, s, e)
    && (Considers(t, s, e) ==> t.blocks[e.block].parent in Remaining(t, s, e))
  }

  ghost predicate Votes(t: Chain, s: State, e: Event)
    requires Knows(t, s) && e.block in t.blocks
  {
    Commits(t, s, e) && Considers(t, s, e) && e.evaluation.Agreed?
  }

  ghost function Step(t: Chain, s: State, e: Event): State
    requires Knows(t, s) && e.block in t.blocks
  {
    if !Commits(t, s, e) then s
    else
      var s' := Updated(t, s, e.block);
      if !Votes(t, s, e) then s'
      else if e.skipLeader then s'.(lastSent := t.Height(e.block))
      else s'.(lastSent := t.Height(e.block), lastVoted := t.Height(e.block))
  }

  lemma {:induction false} ClearedIsStored(t: Chain, stored: set<BlockId>, locked: seq<BlockId>)
    requires t.WellFormed() && forall i :: 0 <= i < |locked| ==> locked[i] in t.blocks
    ensures Cleared(t, stored, locked) <= stored
  {
    if locked != [] {
      ClearedIsStored(t, stored, locked[..|locked| - 1]);
    }
  }

  /** A proposal whose parent is not stored gets no vote, and considering one leaves no trace in the records. */
  lemma MissingParentRollsBack(t: Chain, s: State, e: Event)
    requires Knows(t, s) && e.block in t.blocks && t.blocks[e.block].parent !in e.stored
    ensures !Votes(t, s, e)
    ensures Considers(t, s, e) ==> Step(t, s, e) == s
  {
    hide Cleared, NewlyLocked, Completes, Updated;
    if Completes(t, s, e.block) {
      ClearedIsStored(t, e.stored, NewlyLocked(t, s, e.block));
    }
  }

  lemma StepIsKnown(t: Chain, s: State, e: Event)
    requires Knows(t, s) && e.block in t.blocks
    ensures Knows(t, Step(t, s, e))
  {
    hide Completes, Updated, Remaining;
    if Commits(t, s, e) {
      UpdatedIsKnown(t, s, e.block);
    }
  }

  /** The validator's records, updated in place. */
  class Replica {
    var locked: BlockId
    var lastExecuted: BlockId
    var lastVoted: nat
    var lastSent: nat
    var highPc: BlockId
    var highestSeen: BlockId
    var executed: seq<BlockId>

    function Records(): State
      reads this
    {
      State(locked, lastExecuted, lastVoted, lastSent, highPc, highestSeen, executed)
    }

    constructor (t: Chain)
      ensures Records() == Initial(t)
    {
      locked, lastExecuted, highPc, highestSeen := t.genesis, t.genesis, t.genesis, t.genesis;
      lastVoted, lastSent, executed := 0, 0, [];
    }

    /** Locks the blocks between the old lock and the new one, oldest first, each time removing the orphans; false when a
        parent is missing. */
    method OnLockedBlockRecurse(t: Chain, floor: nat, x: BlockId, stored: set<BlockId>)
      returns (ok: bool, kept: set<BlockId>)
      requires t.WellFormed() && x in t.blocks
      ensures ok <==> PathStored(t, x, floor)
      ensures ok ==> kept == Cleared(t, stored, PathAbove(t, x, floor))
      decreases t.Rank(x)
    {
      if t.Height(x) <= floor {
        return true, stored;
      }
      if t.blocks[x].parent !in t.blocks {
        return false, stored;
      }
      ok, kept := OnLockedBlockRecurse(t, floor, t.blocks[x].parent, stored);
      if ok {
        ghost var path := PathAbove(t, x, floor);
        assert path[..|path| - 1] == PathAbove(t, t.blocks[x].parent, floor);
        kept := set y | y in kept && !Orphaned(t, kept, x, y);
      }
    }

    /** Runs the commit callback for the block and every ancestor above the given height, oldest first; false when a
        parent is missing. */
    method OnCommitBlockRecurse(t: Chain, floor: nat, x: BlockId) returns (ok: bool)
      requires t.WellFormed() && x in t.blocks
      modifies this`executed
      ensures ok <==> PathStored(t, x, floor)
      ensures ok ==> executed == old(executed) + PathAbove(t, x, floor)
      decreases t.Rank(x)
    {
      if t.Height(x) <= floor {
        return true;
      }
      if t.blocks[x].parent !in t.blocks {
        return false;
      }
      ok := OnCommitBlockRecurse(t, floor, t.blocks[x].parent);
      if ok {
        executed := executed + [x];
      }
    }

    method UpdateNodes(t: Chain, x: BlockId, stored: set<BlockId>) returns (ok: bool, kept: set<BlockId>)
      requires Knows(t, Records()) && x in t.blocks && x != t.genesis
      modifies this
      ensures ok <==> Completes(t, old(Records()), x)
      ensures ok ==> Records() == Updated(t, old(Records()), x)
      ensures ok ==> kept == Cleared(t, stored, NewlyLocked(t, old(Records()), x))
    {
      hide PathStored, PathAbove, Orphaned;
      kept := stored;
      if t.Height(highestSeen) < t.Height(x) {
        highestSeen := x;
      }
      var justified := t.blocks[x].justify;
      if t.Height(highPc) < t.Height(justified) {
        highPc := justified;
      }
      var newLocked := t.blocks[justified].justify;
      if newLocked == t.genesis {
        return true, kept;
      }
      if t.Height(newLocked) > t.Height(locked) {
        ok, kept := OnLockedBlockRecurse(t, t.Height(locked), newLocked, stored);
        if !ok {
          return;
        }
        locked := newLocked;
      }
      var commitNode := t.blocks[newLocked].justify;
      if t.blocks[justified].parent == newLocked && t.blocks[newLocked].parent == commitNode {
        if commitNode == t.genesis {
          return true, kept;
        }
        ok := OnCommitBlockRecurse(t, t.Height(lastExecuted), commitNode);
        if !ok {
          return;
        }
        lastExecuted := commitNode;
      }
      return true, kept;
    }

    /** Processes a validated proposal in one transaction, which is rolled back when a block it needs is missing, and
        votes. A vote past an evicted leader is sent but not recorded as the last vote. */
    method ProcessBlock(t: Chain, e: Event) returns (voted: bool)
      requires Knows(t, Records()) && e.block in t.blocks && e.block != t.genesis
      modifies this
      ensures Knows(t, Records())
      ensures Records() == Step(t, old(Records()), e)
      ensures voted == Votes(t, old(Records()), e)
    {
      hide Completes, Updated, Cleared, NewlyLocked;
      var saved, block := Records(), t.blocks[e.block];
      var ok, kept := UpdateNodes(t, e.block, e.stored);
      voted := false;
      if ok {
        UpdatedIsKnown(t, saved, e.block);
        var considers := block.height > lastVoted && !e.evaluation.Declined?;
        ok := block.justify in kept && (considers ==> block.parent in kept);
        voted := ok && considers && e.evaluation.Agreed?;
      }
      if !ok {
        locked, lastExecuted, highPc, highestSeen := saved.locked, saved.lastExecuted, saved.highPc, saved.highestSeen;
        lastVoted, lastSent, executed := saved.lastVoted, saved.lastSent, saved.executed;
      } else if voted {
        lastSent := block.height;
        if !e.skipLeader {
          lastVoted := block.height;
        }
      }
    }
  }

  lemma UpdatedIsKnown(t: Chain, s: State, x: BlockId)
    requires Knows(t, s) && x in t.blocks && Completes(t, s, x)
    ensures var s' := Updated(t, s, x); Knows(t, s') && s'.lastVoted == s.lastVoted && s'.lastSent == s.lastSent
  {
    hide PathStored, PathAbove;
  }

  // ---- The safeNode check ----

  /** Following the pending-chain index upwards from `x` meets `a`. The index holds stored blocks only. */
  ghost predicate PendingReaches(t: Chain, pending: set<BlockId>, x: BlockId, a: BlockId)
    requires t.WellFormed() && pending <= t.blocks.Keys
    decreases t.Rank(x)
  {
    x in pending && x != t.genesis && (t.blocks[x].parent == a || PendingReaches(t, pending, t.blocks[x].parent, a))
  }

  method IsPendingAncestor(t: Chain, pending: set<BlockId>, descendant: BlockId, ancestor: BlockId) returns (r: bool)
    requires t.WellFormed() && pending <= t.blocks.Keys
    ensures r <==> PendingReaches(t, pending, descendant, ancestor)
  {
    var x := descendant;
    while x in pending
      invariant PendingReaches(t, pending, descendant, ancestor) <==> PendingReaches(t, pending, x, ancestor)
      decreases t.Rank(x)
    {
      var parent := t.blocks[x].parent;
      if x != t.genesis && parent == ancestor {
        return true;
      }
      if parent == x {
        break;
      }
      x := parent;
    }
    return false;
  }

  /** All blocks strictly between `x` and its ancestor `a` are in the set. */
  ghost predicate BranchIn(t: Chain, blocks: set<BlockId>, x: BlockId, a: BlockId)
    requires t.WellFormed()
  {
    forall y :: t.Descends(x, y) && t.Descends(y, a) && y != x && y != a ==> y in blocks
  }

  /** How the code decides that `x` extends `a`: `stored` are the blocks on disk, `pending` those not yet committed. */
  ghost predicate ExtendsByIndex(t: Chain, stored: set<BlockId>, pending: set<BlockId>, x: BlockId, a: BlockId)
    requires t.WellFormed() && x in t.blocks && pending <= t.blocks.Keys
  {
    x != a && (t.blocks[x].parent == a || (t.blocks[x].parent in stored && PendingReaches(t, pending, t.blocks[x].parent, a)))
  }

  /** Block::extends_pending: yes only for proper descendants, and for all whose branch is stored and pending. */
  method ExtendsPending(t: Chain, stored: set<BlockId>, pending: set<BlockId>, x: BlockId, ancestor: BlockId) returns (r: bool)
    requires t.WellFormed() && x in t.blocks && x != t.genesis && pending <= t.blocks.Keys
    ensures r <==> ExtendsByIndex(t, stored, pending, x, ancestor)
    ensures r ==> x != ancestor && t.Descends(x, ancestor)
    ensures x != ancestor && t.Descends(x, ancestor) && BranchIn(t, stored * pending, x, ancestor) ==> r
  {
    ExtendsByIndexMeans(t, stored, pending, x, ancestor);
    hide BranchIn, PendingReaches;
    var parent := t.blocks[x].parent;
    if x == ancestor {
      return false;
    }
    if parent == ancestor {
      return true;
    }
    if parent !in stored {
      return false;
    }
    r := IsPendingAncestor(t, pending, parent, ancestor);
  }

  lemma ExtendsByIndexMeans(t: Chain, stored: set<BlockId>, pending: set<BlockId>, x: BlockId, a: BlockId)
    requires t.WellFormed() && x in t.blocks && x != t.genesis && pending <= t.blocks.Keys
    ensures ExtendsByIndex(t, stored, pending, x, a) ==> x != a && t.Descends(x, a)
    ensures x != a && t.Descends(x, a) && BranchIn(t, stored * pending, x, a) ==> ExtendsByIndex(t, stored, pending, x, a)
  {
    var parent := t.blocks[x].parent;
    if ExtendsByIndex(t, stored, pending, x, a) && parent != a {
      PendingReachesIsSound(t, pending, parent, a);
    }
    if x != a && parent != a && t.Descends(x, a) && BranchIn(t, stored * pending, x, a) {
      ParentIsProper(t, x);
      assert t.Descends(parent, parent) && t.Descends(x, parent) && t.Descends(parent, a);
      PendingReachesIsComplete(t, pending, x, parent, a);
    }
  }

  lemma {:induction false} PendingReachesIsSound(t: Chain, pending: set<BlockId>, x: BlockId, a: BlockId)
    requires t.WellFormed() && pending <= t.blocks.Keys && PendingReaches(t, pending, x, a)
    ensures t.Descends(x, a)
    decreases t.Rank(x)
  {
    var p := t.blocks[x].parent;
    if p != a {
      PendingReachesIsSound(t, pending, p, a);
    } else {
      assert t.Descends(p, a);
    }
  }

  lemma ParentIsProper(t: Chain, x: BlockId)
    requires t.WellFormed() && x in t.blocks && x != t.genesis
    ensures t.blocks[x].parent != x && t.Rank(t.blocks[x].parent) < t.Rank(x)
  {
  }

  lemma {:induction false} DescendsRank(t: Chain, x: BlockId, a: BlockId)
    requires t.WellFormed() && t.Descends(x, a)
    ensures x == a || t.Rank(a) < t.Rank(x)
    decreases t.Rank(x)
  {
    if x != a {
      DescendsRank(t, t.blocks[x].parent, a);
    }
  }

  lemma {:induction false} PendingReachesIsComplete(t: Chain, pending: set<BlockId>, tip: BlockId, x: BlockId, a: BlockId)
    requires t.WellFormed() && pending <= t.blocks.Keys && t.Descends(tip, x) && x != tip
    requires t.Descends(x, a) && x != a
    requires forall y :: t.Descends(tip, y) && t.Descends(y, a) && y != tip && y != a ==> y in pending
    ensures PendingReaches(t, pending, x, a)
    decreases t.Rank(x)
  {
    var p := t.blocks[x].parent;
    assert x in pending;
    if p != a {
      DescendsRank(t, tip, x);
      assert t.Descends(p, p) && t.Descends(x, p);
      DescendsTransitive(t, tip, x, p);
      PendingReachesIsComplete(t, pending, tip, p, a);
    }
  }

  /** How the code decides that a proposal is safe for the lock. */
  ghost predicate SafeByIndex(t: Chain, stored: set<BlockId>, pending: set<BlockId>, locked: BlockId, x: BlockId)
    requires t.WellFormed() && x in t.blocks && locked in t.blocks && pending <= t.blocks.Keys
  {
    t.Height(t.blocks[x].justify) > t.Height(locked) || ExtendsByIndex(t, stored, pending, x, locked)
  }

  /** Block::is_safe: accepts only blocks that satisfy safeNode for the lock, and all of them while the blocks
      between the proposal and the lock are stored and pending. */
  method IsSafe(t: Chain, stored: set<BlockId>, pending: set<BlockId>, locked: BlockId, x: BlockId) returns (r: bool)
    requires t.WellFormed() && x in t.blocks && x != t.genesis && locked in t.blocks && pending <= t.blocks.Keys
    ensures r <==> SafeByIndex(t, stored, pending, locked, x)
    ensures r ==> SafeNode(t, x, locked)
    ensures SafeNode(t, x, locked) && BranchIn(t, stored * pending, x, locked) ==> r
  {
    hide BranchIn;
    if t.Height(t.blocks[x].justify) > t.Height(locked) {
      return true;
    }
    r := ExtendsPending(t, stored, pending, x, locked);
  }
}
