/** Agreement of the chained HotStuff protocol of crates/consensus: over any vote history in which the keys
    that break the voting rules hold no more power than the fault bound, committed blocks never conflict. */
module HotStuff {
  import opened Wrappers
  import opened Committees

  /** What a block header says about the chain: its parent, the block its certificate justifies, its height. */
  datatype Block = Block(parent: BlockId, justify: BlockId, height: nat)

  /** The blocks that validators of one epoch have stored, by id. An id is a collision-free hash over the block, its
      parent's id included, so parents are older than their children. A parent need not be stored. */
  datatype Chain = Chain(blocks: map<BlockId, Block>, genesis: BlockId, age: map<BlockId, nat>) {

    /** Validation lets a block pass only if the block it justifies is stored and lower. */
    ghost predicate WellFormed() {
      && genesis in blocks
      && blocks[genesis] == Block(genesis, genesis, 0)
      && blocks.Keys <= age.Keys
      && (forall x {:trigger blocks[x].justify} :: x in blocks && x != genesis ==>
            blocks[x].justify in blocks && blocks[blocks[x].justify].height < blocks[x].height)
      && (forall x {:trigger blocks[x].parent} :: x in blocks && x != genesis && blocks[x].parent in blocks ==>
            age[blocks[x].parent] < age[x])
    }

    function Height(x: BlockId): nat
      requires x in blocks
    {
      blocks[x].height
    }

    /** Falls along parents, for termination. */
    function Rank(x: BlockId): nat
      requires blocks.Keys <= age.Keys
    {
      if x in blocks then age[x] + 1 else 0
    }

    /** `x` is `a` or has `a` on its parent chain. */
    predicate Descends(x: BlockId, a: BlockId)
      requires WellFormed()
      decreases Rank(x)
    {
      x == a || (x in blocks && x != genesis && Descends(blocks[x].parent, a))
    }

    /** The parent chain of `x` is stored down to genesis, with falling heights. */
    predicate Anchored(x: BlockId)
      requires WellFormed()
      decreases Rank(x)
    {
      x == genesis ||
      (x in blocks && blocks[x].parent in blocks && Height(blocks[x].parent) < Height(x) && Anchored(blocks[x].parent))
    }
  }

  // ---- The parent order ----

  lemma {:induction false} DescendsHeight(t: Chain, x: BlockId, a: BlockId)
    requires t.WellFormed() && t.Anchored(x) && t.Descends(x, a)
    ensures x in t.blocks && a in t.blocks && t.Anchored(a) && t.Height(a) <= t.Height(x)
    ensures t.Height(a) == t.Height(x) ==> a == x
    decreases t.Rank(x)
  {
    if x != a {
      DescendsHeight(t, t.blocks[x].parent, a);
    }
  }

  lemma {:induction false} DescendsTransitive(t: Chain, x: BlockId, y: BlockId, z: BlockId)
    requires t.WellFormed() && t.Descends(x, y) && t.Descends(y, z)
    ensures t.Descends(x, z)
    decreases t.Rank(x)
  {
    if x != y {
      DescendsTransitive(t, t.blocks[x].parent, y, z);
    }
  }

  lemma {:induction false} DescendsFromGenesis(t: Chain, x: BlockId)
    requires t.WellFormed() && t.Anchored(x)
    ensures t.Descends(x, t.genesis)
    decreases t.Rank(x)
  {
    if x != t.genesis {
      DescendsFromGenesis(t, t.blocks[x].parent);
    }
  }

  /** Two ancestors of one block lie on one branch. */
  lemma {:induction false} AncestorsComparable(t: Chain, x: BlockId, a: BlockId, b: BlockId)
    requires t.WellFormed() && t.Descends(x, a) && t.Descends(x, b)
    ensures t.Descends(a, b) || t.Descends(b, a)
    decreases t.Rank(x)
  {
    if x != a && x != b {
      AncestorsComparable(t, t.blocks[x].parent, a, b);
    }
  }

  // ---- Votes ----

  /** One cast vote: the block, and the voter's locked block when the block was validated. */
  datatype Ballot = Ballot(block: BlockId, locked: BlockId)

  /** The ballots of every key of the committee, each in casting order. */
  type History = map<PublicKey, seq<Ballot>>

  ghost function Voters(h: History, x: BlockId): set<PublicKey> {
    set k | k in h && exists i :: 0 <= i < |h[k]| && h[k][i].block == x
  }

  /** A certificate for the block exists: it is the genesis block, or a quorum voted for it. */
  ghost predicate Certified(t: Chain, c: Committee, h: History, x: BlockId) {
    x == t.genesis || IsQuorum(c, Voters(h, x))
  }

  /** The safeNode predicate: the certificate is newer than the lock, or the block extends the locked block. */
  predicate SafeNode(t: Chain, x: BlockId, locked: BlockId)
    requires t.WellFormed() && x in t.blocks && t.blocks[x].justify in t.blocks && locked in t.blocks
  {
    t.Height(t.blocks[x].justify) > t.Height(locked) || (x != locked && t.Descends(x, locked))
  }

  /** The block that processing `x` locks at least up to: the one justified by the block that `x` justifies. */
  function LockTarget(t: Chain, x: BlockId): BlockId
    requires t.WellFormed() && x in t.blocks
  {
    t.blocks[t.blocks[x].justify].justify
  }

  /** The shape agreement relies on: the block's parent chain is stored with falling heights, the block descends from the
      block it justifies, and when that block is its direct parent it is exactly one higher. */
  ghost predicate WellShaped(t: Chain, x: BlockId)
    requires t.WellFormed() && x in t.blocks
  {
    && t.Anchored(x)
    && t.Descends(x, t.blocks[x].justify)
    && (x != t.genesis && t.blocks[x].parent == t.blocks[x].justify ==>
          t.Height(x) == t.Height(t.blocks[x].parent) + 1)
  }

  /** One key's ballots follow the voting rules: heights strictly increase, each lock is certified and at
      least as high as every earlier ballot's lock target, and each ballot was safe for its lock. */
  ghost predicate Disciplined(t: Chain, c: Committee, h: History, ballots: seq<Ballot>)
    requires t.WellFormed()
  {
    && (forall i :: 0 <= i < |ballots| ==>
          && ballots[i].block in t.blocks && ballots[i].block != t.genesis && ballots[i].locked in t.blocks
          && Certified(t, c, h, ballots[i].locked)
          && SafeNode(t, ballots[i].block, ballots[i].locked))
    && (forall i, j :: 0 <= i < j < |ballots| ==>
          && t.Height(ballots[i].block) < t.Height(ballots[j].block)
          && t.Height(LockTarget(t, ballots[i].block)) <= t.Height(ballots[j].locked))
  }

  /** Every block carries a certificate, and every block that gets one itself has the shape. */
  ghost predicate CertifiedTree(t: Chain, c: Committee, h: History)
    requires t.WellFormed()
  {
    && (forall x :: x in t.blocks ==> Certified(t, c, h, t.blocks[x].justify))
    && (forall x :: x in t.blocks && Certified(t, c, h, x) ==> WellShaped(t, x))
  }

  /** A run of the protocol in one epoch: every block carries a certificate, and all keys outside `faulty`,
      which weighs no more than the fault bound, follow the voting rules. */
  ghost predicate ValidRun(t: Chain, c: Committee, h: History, faulty: set<PublicKey>) {
    && t.WellFormed()
    && TotalPower(c) > 0
    && Weight(c, faulty) <= MaxFailures(c)
    && CertifiedTree(t, c, h)
    && (forall k :: k in h && k !in faulty ==> Disciplined(t, c, h, h[k]))
  }

  /** `b`, `b1` and `b2` form the direct three-chain that commits `b`, and `b2` is certified. */
  ghost predicate ThreeChain(t: Chain, c: Committee, h: History, b: BlockId, b1: BlockId, b2: BlockId)
    requires t.WellFormed()
  {
    && b2 in t.blocks && b2 != t.genesis && t.blocks[b2].parent == b1 && t.blocks[b2].justify == b1
    && b1 in t.blocks && b1 != t.genesis && t.blocks[b1].parent == b && t.blocks[b1].justify == b
    && Certified(t, c, h, b2)
  }

  /** A block is committed when some certified three-chain starts at it. */
  ghost predicate Committed(t: Chain, c: Committee, h: History, b: BlockId)
    requires t.WellFormed()
  {
    exists b1, b2 :: ThreeChain(t, c, h, b, b1, b2)
  }

  /** Two certified blocks of one height are one block. */
  lemma CertifiedHeightsUnique(t: Chain, c: Committee, h: History, faulty: set<PublicKey>, x: BlockId, y: BlockId)
    requires ValidRun(t, c, h, faulty)
    requires x in t.blocks && y in t.blocks && Certified(t, c, h, x) && Certified(t, c, h, y)
    requires t.Height(x) == t.Height(y)
    ensures x == y
  {
    if x != t.genesis && y != t.genesis {
      var k := QuorumsShareHonestSigner(c, Voters(h, x), Voters(h, y), faulty);
      var i :| 0 <= i < |h[k]| && h[k][i].block == x;
      var j :| 0 <= j < |h[k]| && h[k][j].block == y;
      assert i == j by {
        assert !(i < j) && !(j < i);
      }
    }
  }

  /** Every certified block at or above a committed block descends from it. */
  lemma {:induction false} CertifiedDescendsFromCommitted(
    t: Chain, c: Committee, h: History, faulty: set<PublicKey>, b: BlockId, b1: BlockId, b2: BlockId, w: BlockId)
    requires ValidRun(t, c, h, faulty) && ThreeChain(t, c, h, b, b1, b2)
    requires w in t.blocks && Certified(t, c, h, w) && t.Height(w) >= t.Height(b)
    ensures t.Descends(w, b)
    decreases t.Height(w)
  {
    assert WellShaped(t, b1) && WellShaped(t, b2);
    if t.Height(w) <= t.Height(b2) {
      var x := if t.Height(w) == t.Height(b) then b else if t.Height(w) == t.Height(b1) then b1 else b2;
      CertifiedHeightsUnique(t, c, h, faulty, w, x);
    } else {
      var locked := VoterLock(t, c, h, faulty, b2, w);
      if t.Height(t.blocks[w].justify) > t.Height(locked) {
        var j := t.blocks[w].justify;
        CertifiedDescendsFromCommitted(t, c, h, faulty, b, b1, b2, j);
        assert WellShaped(t, w);
        DescendsTransitive(t, w, j, b);
      } else {
        DescendsHeight(t, w, locked);
        CertifiedDescendsFromCommitted(t, c, h, faulty, b, b1, b2, locked);
        DescendsTransitive(t, w, locked, b);
      }
    }
  }

  /** Some rule-following voter of two certified blocks held, when voting for the higher one, a certified lock
      at least as high as the lower one's lock target, for which the higher one was safe. */
  lemma VoterLock(t: Chain, c: Committee, h: History, faulty: set<PublicKey>, low: BlockId, high: BlockId)
    returns (locked: BlockId)
    requires ValidRun(t, c, h, faulty)
    requires low in t.blocks && high in t.blocks && low != t.genesis
    requires Certified(t, c, h, low) && Certified(t, c, h, high) && t.Height(low) < t.Height(high)
    ensures locked in t.blocks && Certified(t, c, h, locked) && SafeNode(t, high, locked)
    ensures t.Height(locked) >= t.Height(LockTarget(t, low))
  {
    var k := QuorumsShareHonestSigner(c, Voters(h, low), Voters(h, high), faulty);
    var i :| 0 <= i < |h[k]| && h[k][i].block == low;
    var j :| 0 <= j < |h[k]| && h[k][j].block == high;
    assert i < j by {
      assert !(j < i);
    }
    locked := h[k][j].locked;
  }

  /** Agreement: any two committed blocks lie on one branch. */
  lemma Agreement(t: Chain, c: Committee, h: History, faulty: set<PublicKey>, b: BlockId, w: BlockId)
    requires ValidRun(t, c, h, faulty)
    requires Committed(t, c, h, b) && Committed(t, c, h, w)
    ensures b in t.blocks && w in t.blocks && (t.Descends(b, w) || t.Descends(w, b))
  {
    var b1, b2 :| ThreeChain(t, c, h, b, b1, b2);
    var w1, w2 :| ThreeChain(t, c, h, w, w1, w2);
    assert Certified(t, c, h, t.blocks[b1].justify) && Certified(t, c, h, t.blocks[w1].justify);
    if t.Height(b) <= t.Height(w) {
      CertifiedDescendsFromCommitted(t, c, h, faulty, b, b1, b2, w);
    } else {
      CertifiedDescendsFromCommitted(t, c, h, faulty, w, w1, w2, b);
    }
  }
}
