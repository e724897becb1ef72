/** Validation of local proposals and the dummy blocks that fill skipped views, as in
    crates/consensus/src/hotstuff (on_receive_local_proposal.rs, common.rs) and
    crates/consensus/src/validations/common.rs; and what validation guarantees about votes. */
module Proposals {
  import opened Wrappers
  import opened Committees
  import opened HotStuff
  import opened Replicas
  import opened Voting
  import Certificates
  import CommittedLogs

  /** How a dummy block's id follows from its parent, height and certificate. */
  type DummyNaming = (BlockId, nat, BlockId) -> BlockId

  /** Ids are collision-free: an id that names a dummy block names no other block. */
  ghost predicate NamesDummies(t: Chain, name: DummyNaming) {
    forall p, h, j {:trigger name(p, h, j)} ::
      name(p, h, j) in t.blocks ==> name(p, h, j) != t.genesis && t.blocks[name(p, h, j)] == Block(p, j, h)
  }

  /** The ids of `n` dummy blocks on top of a parent, each on the previous one, one height apart. */
  ghost function DummyChain(name: DummyNaming, parent: BlockId, height: nat, justify: BlockId, n: nat): (ids: seq<BlockId>)
    ensures |ids| == n
  {
    if n == 0 then []
    else
      var ids := DummyChain(name, parent, height, justify, n - 1);
      ids + [name(if n == 1 then parent else ids[n - 2], height + n, justify)]
  }

  /** Builds the dummy blocks between two heights, stopping early at the expected parent. */
  method CalculateDummyBlocks(name: DummyNaming, from: nat, end: nat, parent: BlockId, justify: BlockId, expected: BlockId)
    returns (ids: seq<BlockId>)
    ensures ids == DummyChain(name, parent, from, justify, |ids|)
    ensures from >= end ==> ids == []
    ensures from < end ==> |ids| <= end - from - 1
    ensures forall i :: 0 <= i < |ids| - 1 ==> ids[i] != expected
    ensures from < end && |ids| < end - from - 1 ==> ids != [] && ids[|ids| - 1] == expected
  {
    ids := [];
    if from >= end {
      return;
    }
    var current, last := from + 1, parent;
    while current != end
      invariant from < current <= end && |ids| == current - from - 1
      invariant ids == DummyChain(name, parent, from, justify, |ids|)
      invariant last == if ids == [] then parent else ids[|ids| - 1]
      invariant forall i :: 0 <= i < |ids| ==> ids[i] != expected
      decreases end - current
    {
      var id := name(last, current, justify);
      ids := ids + [id];
      last := id;
      if id == expected {
        return;
      }
      current := current + 1;
    }
  }

  datatype Rejection =
    | HeightIsZero
    | InvalidBlockHeight
    | JustifyBlockNotFound
    | ParentNotFound
    | JustifyBlockInvalid
    | NotHigherThanJustify
    | DoesNotExtendJustify
    | NotSafeBlock

  datatype Verdict = Rejected(reason: Rejection) | Valid(dummies: seq<BlockId>)

  /** A proposed block's certified height is one above the higher of its two certificates. */
  function CertificateHeight(justifyHeight: nat, timeout: Option<nat>): nat {
    if timeout.Some? && timeout.value > justifyHeight then timeout.value else justifyHeight
  }

  ghost predicate HeightsAgree(t: Chain, x: BlockId, justifyHeight: nat, timeout: Option<nat>)
    requires x in t.blocks
  {
    t.Height(x) == CertificateHeight(justifyHeight, timeout) + 1
  }

  /** The proposal skips views above the highest block seen. */
  ghost predicate SkipsViews(t: Chain, s: State, x: BlockId, timeout: Option<nat>)
    requires Knows(t, s) && x in t.blocks
  {
    timeout.Some? && t.Height(s.highestSeen) + 1 < t.Height(x)
  }

  /** All dummy blocks between the highest block seen and the proposal. */
  ghost function AllDummies(t: Chain, s: State, name: DummyNaming, x: BlockId): seq<BlockId>
    requires Knows(t, s) && x in t.blocks && t.Height(s.highestSeen) < t.Height(x)
  {
    DummyChain(name, s.highestSeen, t.Height(s.highestSeen), t.blocks[x].justify, t.Height(x) - t.Height(s.highestSeen) - 1)
  }

  /** The ids up to and including the first occurrence of one of them. */
  ghost function UpTo(ids: seq<BlockId>, id: BlockId): (r: seq<BlockId>)
    requires id in ids
    ensures r != [] && r <= ids && r[|r| - 1] == id && id !in r[..|r| - 1]
  {
    if ids[0] == id then [id]
    else
      assert ids == [ids[0]] + ids[1..];
      [ids[0]] + UpTo(ids[1..], id)
  }

  /** The verdict on a proposal that carries a proposal certificate of the stated height and perhaps a timeout certificate,
      given the validator's records and stored blocks. */
  ghost function VerdictOf(t: Chain, s: State, stored: set<BlockId>, pending: set<BlockId>, name: DummyNaming,
                           x: BlockId, justifyHeight: nat, timeout: Option<nat>): Verdict
    requires Knows(t, s) && x in t.blocks && x != t.genesis && pending <= t.blocks.Keys
  {
    if !HeightsAgree(t, x, justifyHeight, timeout) then Rejected(InvalidBlockHeight)
    else if t.blocks[x].justify !in stored then Rejected(JustifyBlockNotFound)
    else if t.Height(t.blocks[x].justify) != justifyHeight then Rejected(JustifyBlockInvalid)
    else if SkipsViews(t, s, x, timeout) then
      if t.blocks[x].parent in AllDummies(t, s, name, x) then Valid(UpTo(AllDummies(t, s, name, x), t.blocks[x].parent))
      else Rejected(DoesNotExtendJustify)
    else if s.highPc == t.genesis || SafeByIndex(t, stored, pending, s.locked, x) then Valid([])
    else Rejected(NotSafeBlock)
  }

  lemma {:induction false} ShorterDummyChain(name: DummyNaming, parent: BlockId, height: nat, justify: BlockId, m: nat, n: nat)
    requires m <= n
    ensures DummyChain(name, parent, height, justify, m) <= DummyChain(name, parent, height, justify, n)
  {
    if m < n {
      ShorterDummyChain(name, parent, height, justify, m, n - 1);
    }
  }

  lemma EndsAtExpected(ids: seq<BlockId>, all: seq<BlockId>, expected: BlockId)
    requires ids <= all && ids != []
    requires forall i :: 0 <= i < |ids| - 1 ==> ids[i] != expected
    requires |ids| < |all| ==> ids[|ids| - 1] == expected
    ensures expected in all <==> ids[|ids| - 1] == expected
    ensures expected in all ==> UpTo(all, expected) == ids
  {
    if ids[|ids| - 1] == expected {
      assert all[|ids| - 1] == expected;
      var up := UpTo(all, expected);
      assert forall i :: 0 <= i < |up| - 1 ==> up[..|up| - 1][i] == all[i] && all[i] != expected;
      assert forall i :: 0 <= i < |ids| - 1 ==> all[i] != expected;
      assert |up| == |ids|;
    } else {
      assert ids == all;
    }
  }

  /** The branch for proposals with a timeout certificate; no verdict when there are no views to fill. */
  method ValidateTimeout(t: Chain, s: State, name: DummyNaming, x: BlockId) returns (v: Option<Verdict>)
    requires Knows(t, s) && x in t.blocks
    ensures v.Some? <==> t.Height(s.highestSeen) + 1 < t.Height(x)
    ensures v.Some? ==>
              var all, parent := AllDummies(t, s, name, x), t.blocks[x].parent;
              v.value == if parent in all then Valid(UpTo(all, parent)) else Rejected(DoesNotExtendJustify)
  {
    hide DummyChain;
    var block, seen := t.blocks[x], t.Height(s.highestSeen);
    var dummies := CalculateDummyBlocks(name, seen, block.height, s.highestSeen, block.justify, block.parent);
    if dummies == [] {
      return None;
    }
    ShorterDummyChain(name, s.highestSeen, seen, block.justify, |dummies|, block.height - seen - 1);
    EndsAtExpected(dummies, AllDummies(t, s, name, x), block.parent);
    if block.parent != dummies[|dummies| - 1] {
      return Some(Rejected(DoesNotExtendJustify));
    }
    return Some(Valid(dummies));
  }

  /** Validates a proposal, check by check. */
  method ValidateProposal(t: Chain, s: State, stored: set<BlockId>, pending: set<BlockId>, name: DummyNaming,
                          x: BlockId, justifyHeight: nat, timeout: Option<nat>)
    returns (v: Verdict)
    requires Knows(t, s) && x in t.blocks && x != t.genesis && pending <= t.blocks.Keys
    ensures v == VerdictOf(t, s, stored, pending, name, x, justifyHeight, timeout)
    ensures v.Valid? && v.dummies == [] ==> s.highPc == t.genesis || SafeNode(t, x, s.locked)
    ensures v.Valid? && v.dummies != [] ==> BuiltOnDummies(t, s, name, x, v.dummies) && timeout.Some?
    ensures v == Rejected(NotSafeBlock) ==>
              s.highPc != t.genesis && !(SafeNode(t, x, s.locked) && BranchIn(t, stored * pending, x, s.locked))
  {
    hide AllDummies, UpTo, SafeByIndex, BuiltOnDummies, BranchIn, SafeNode;
    VerdictMeans(t, s, stored, pending, name, x, justifyHeight, timeout);
    var block := t.blocks[x];
    if block.height == 0 {
      return Rejected(HeightIsZero);
    }
    if block.height != CertificateHeight(justifyHeight, timeout) + 1 {
      return Rejected(InvalidBlockHeight);
    }
    if block.justify !in stored {
      return Rejected(JustifyBlockNotFound);
    }
    if block.justify == block.parent && block.parent !in stored {
      return Rejected(ParentNotFound);
    }
    if t.Height(block.justify) != justifyHeight {
      return Rejected(JustifyBlockInvalid);
    }
    if block.height < t.Height(block.justify) {
      return Rejected(NotHigherThanJustify);
    }
    if timeout.Some? {
      var verdict := ValidateTimeout(t, s, name, x);
      if verdict.Some? {
        return verdict.value;
      }
    }
    if s.highPc != t.genesis {
      var safe := IsSafe(t, stored, pending, s.locked, x);
      if !safe {
        return Rejected(NotSafeBlock);
      }
    }
    return Valid([]);
  }

  /** The proposal's parent is the last of a chain of dummy blocks on the highest block seen, all of them below it. */
  ghost predicate BuiltOnDummies(t: Chain, s: State, name: DummyNaming, x: BlockId, dummies: seq<BlockId>)
    requires Knows(t, s) && x in t.blocks
  {
    && dummies != []
    && dummies == DummyChain(name, s.highestSeen, t.Height(s.highestSeen), t.blocks[x].justify, |dummies|)
    && t.blocks[x].parent == dummies[|dummies| - 1]
    && t.Height(x) > t.Height(s.highestSeen) + |dummies|
  }

  lemma VerdictMeans(t: Chain, s: State, stored: set<BlockId>, pending: set<BlockId>, name: DummyNaming,
                     x: BlockId, justifyHeight: nat, timeout: Option<nat>)
    requires Knows(t, s) && x in t.blocks && x != t.genesis && pending <= t.blocks.Keys
    ensures var v := VerdictOf(t, s, stored, pending, name, x, justifyHeight, timeout);
            && (v.Valid? && v.dummies == [] ==> s.highPc == t.genesis || SafeNode(t, x, s.locked))
            && (v.Valid? && v.dummies != [] ==> BuiltOnDummies(t, s, name, x, v.dummies) && timeout.Some?)
            && (v == Rejected(NotSafeBlock) ==>
                  s.highPc != t.genesis && !(SafeNode(t, x, s.locked) && BranchIn(t, stored * pending, x, s.locked)))
  {
    hide DummyChain, BranchIn, PendingReaches;
    ExtendsByIndexMeans(t, stored, pending, x, s.locked);
    if SkipsViews(t, s, x, timeout) && t.blocks[x].parent in AllDummies(t, s, name, x) {
      PrefixIsDummyChain(t, s, name, x, UpTo(AllDummies(t, s, name, x), t.blocks[x].parent));
    }
  }

  lemma PrefixIsDummyChain(t: Chain, s: State, name: DummyNaming, x: BlockId, dummies: seq<BlockId>)
    requires Knows(t, s) && x in t.blocks && t.Height(s.highestSeen) < t.Height(x) && dummies <= AllDummies(t, s, name, x)
    ensures dummies == DummyChain(name, s.highestSeen, t.Height(s.highestSeen), t.blocks[x].justify, |dummies|)
  {
    hide DummyChain;
    ShorterDummyChain(name, s.highestSeen, t.Height(s.highestSeen), t.blocks[x].justify, |dummies|, |AllDummies(t, s, name, x)|);
  }

  // ---- What each verdict means ----

  /** The height is above both certificates, and by one above one of them. */
  ghost predicate FollowsCertificates(height: nat, justifyHeight: nat, timeout: Option<nat>) {
    && height > justifyHeight && (timeout.Some? ==> height > timeout.value)
    && (height == justifyHeight + 1 || timeout == Some(height - 1))
  }

  /** `n` dummy blocks fit below the proposal, and its parent is the last of them and none of the others. */
  ghost predicate FillsGap(t: Chain, s: State, name: DummyNaming, x: BlockId, n: nat)
    requires Knows(t, s) && x in t.blocks
  {
    var ids := DummyChain(name, s.highestSeen, t.Height(s.highestSeen), t.blocks[x].justify, n);
    0 < n < t.Height(x) - t.Height(s.highestSeen) && ids[n - 1] == t.blocks[x].parent && t.blocks[x].parent !in ids[..n - 1]
  }

  lemma GapIsFilledExactlyWhen(t: Chain, s: State, name: DummyNaming, x: BlockId)
    requires Knows(t, s) && x in t.blocks && t.Height(s.highestSeen) < t.Height(x)
    ensures var all, parent := AllDummies(t, s, name, x), t.blocks[x].parent;
            if parent in all then
              var dummies := UpTo(all, parent);
              && FillsGap(t, s, name, x, |dummies|)
              && dummies == DummyChain(name, s.highestSeen, t.Height(s.highestSeen), t.blocks[x].justify, |dummies|)
            else
              forall n :: !FillsGap(t, s, name, x, n)
  {
    hide DummyChain, UpTo;
    var all, parent := AllDummies(t, s, name, x), t.blocks[x].parent;
    if parent in all {
      PrefixIsDummyChain(t, s, name, x, UpTo(all, parent));
    } else {
      forall n ensures !FillsGap(t, s, name, x, n) {
        if FillsGap(t, s, name, x, n) {
          ShorterDummyChain(name, s.highestSeen, t.Height(s.highestSeen), t.blocks[x].justify, n, |all|);
        }
      }
    }
  }

  /** Exactly when each verdict is given, in terms of the heights, the stored blocks and the dummy blocks; no other verdict
      is ever given. */
  lemma VerdictExactlyWhen(t: Chain, s: State, stored: set<BlockId>, pending: set<BlockId>, name: DummyNaming,
                           x: BlockId, justifyHeight: nat, timeout: Option<nat>)
    requires Knows(t, s) && x in t.blocks && x != t.genesis && pending <= t.blocks.Keys
    ensures var v, justify := VerdictOf(t, s, stored, pending, name, x, justifyHeight, timeout), t.blocks[x].justify;
            var follows := FollowsCertificates(t.Height(x), justifyHeight, timeout);
            var found := follows && justify in stored;
            var matches := found && t.Height(justify) == justifyHeight;
            var skips := matches && timeout.Some? && t.Height(x) > t.Height(s.highestSeen) + 1;
            var checked := matches && !skips && s.highPc != t.genesis;
            && (v == Rejected(InvalidBlockHeight) <==> !follows)
            && (v == Rejected(JustifyBlockNotFound) <==> follows && justify !in stored)
            && (v == Rejected(JustifyBlockInvalid) <==> found && t.Height(justify) != justifyHeight)
            && (v == Rejected(DoesNotExtendJustify) <==> skips && forall n :: !FillsGap(t, s, name, x, n))
            && (v == Rejected(NotSafeBlock) <==> checked && !SafeByIndex(t, stored, pending, s.locked, x))
            && (v == Valid([]) <==> matches && !skips && (s.highPc == t.genesis || SafeByIndex(t, stored, pending, s.locked, x)))
            && (v.Valid? && v.dummies != [] <==> skips && exists n :: FillsGap(t, s, name, x, n))
            && (v.Valid? && v.dummies != [] ==>
                  && FillsGap(t, s, name, x, |v.dummies|)
                  && v.dummies == DummyChain(name, s.highestSeen, t.Height(s.highestSeen), justify, |v.dummies|))
  {
    hide AllDummies, UpTo, SafeByIndex, FillsGap, DummyChain;
    if t.Height(x) > t.Height(s.highestSeen) {
      GapIsFilledExactlyWhen(t, s, name, x);
    }
  }

  // ---- The shape of a proposal without dummy blocks ----

  /** The parent, if it is stored, is anchored and lower, descends from the justified block, and is that block only if no
      timeout certificate raises the height. */
  ghost predicate StandsOnJustified(t: Chain, x: BlockId, timeout: Option<nat>)
    requires t.WellFormed() && x in t.blocks
  {
    var parent, justify := t.blocks[x].parent, t.blocks[x].justify;
    parent in t.blocks ==>
      && t.Height(parent) < t.Height(x) && t.Anchored(parent)
      && t.Descends(parent, justify)
      && (parent == justify ==> timeout.None? || timeout.value <= t.Height(justify))
  }

  /** A proposal whose heights agree has the shape agreement needs exactly when its parent is stored and it stands on
      the block it justifies. Validation checks none of this: it looks the parent up only when that is the justified block.
      Voting looks up every parent. */
  lemma ShapeExactlyWhen(t: Chain, x: BlockId, timeout: Option<nat>)
    requires t.WellFormed() && x in t.blocks && x != t.genesis
    requires HeightsAgree(t, x, t.Height(t.blocks[x].justify), timeout)
    ensures WellShaped(t, x) <==> t.blocks[x].parent in t.blocks && StandsOnJustified(t, x, timeout)
  {
  }

  /** In every run the lock is below the high certificate, once there is one, and not above the highest block seen. */
  ghost predicate LockIsLow(t: Chain, s: State)
    requires Knows(t, s)
  {
    && (s.locked != t.genesis ==> t.Height(s.locked) < t.Height(s.highPc))
    && t.Height(s.locked) <= t.Height(s.highestSeen)
  }

  lemma StepKeepsLockLow(t: Chain, s: State, e: Event)
    requires Knows(t, s) && e.block in t.blocks && LockIsLow(t, s)
    ensures Knows(t, Step(t, s, e)) && LockIsLow(t, Step(t, s, e))
  {
    hide CommitHead, PathAbove, PathStored, Remaining;
    StepIsKnown(t, s, e);
  }

  lemma {:induction false} LockIsBelowHighCertificate(t: Chain, es: seq<Event>)
    requires Processable(t, es)
    ensures LockIsLow(t, Run(t, es))
  {
    if es != [] {
      hide Step, LockIsLow, Run;
      LastEvent(t, es);
      LockIsBelowHighCertificate(t, es[..|es| - 1]);
      StepKeepsLockLow(t, Run(t, es[..|es| - 1]), es[|es| - 1]);
    }
  }

  /** Where the safeNode check is skipped because no certificate has been seen, the proposal is safe exactly when it
      justifies a later block or descends from genesis. */
  lemma SkippedCheckIsSafeExactlyWhen(t: Chain, es: seq<Event>, x: BlockId)
    requires Processable(t, es) && x in t.blocks && x != t.genesis && Run(t, es).highPc == t.genesis
    ensures SafeNode(t, x, Run(t, es).locked) <==> t.blocks[x].justify != t.genesis || t.Descends(x, t.genesis)
  {
    hide Run;
    LockIsBelowHighCertificate(t, es);
    if t.blocks[x].justify != t.genesis {
      HeightIsPositive(t, t.blocks[x].justify);
    }
  }

  // ---- Proposals on dummy blocks ----

  lemma {:induction false} DummyBlocks(t: Chain, name: DummyNaming, base: BlockId, justify: BlockId, n: nat, i: nat)
    requires t.WellFormed() && NamesDummies(t, name) && base in t.blocks && i < n
    requires var ids := DummyChain(name, base, t.Height(base), justify, n); forall k :: 0 <= k < n ==> ids[k] in t.blocks
    ensures var ids := DummyChain(name, base, t.Height(base), justify, n);
            && ids[i] != t.genesis
            && t.blocks[ids[i]] == Block(if i == 0 then base else ids[i - 1], justify, t.Height(base) + i + 1)
  {
    var ids := DummyChain(name, base, t.Height(base), justify, n);
    var shorter := DummyChain(name, base, t.Height(base), justify, n - 1);
    ShorterDummyChain(name, base, t.Height(base), justify, n - 1, n);
    if i < n - 1 {
      forall k | 0 <= k < n - 1 ensures shorter[k] in t.blocks {
        assert shorter[k] == ids[k];
      }
      DummyBlocks(t, name, base, justify, n - 1, i);
      assert shorter[i] == ids[i] && (i > 0 ==> shorter[i - 1] == ids[i - 1]);
    } else {
      assert i > 0 ==> shorter[i - 1] == ids[i - 1];
      assert ids[i] == name(if i == 0 then base else ids[i - 1], t.Height(base) + n, justify);
    }
  }

  /** The i-th dummy block is stored, on top of the previous one. */
  ghost predicate DummyStored(t: Chain, base: BlockId, justify: BlockId, ids: seq<BlockId>, i: nat)
    requires base in t.blocks && i < |ids|
  {
    && ids[i] in t.blocks && ids[i] != t.genesis
    && t.blocks[ids[i]] == Block(if i == 0 then base else ids[i - 1], justify, t.Height(base) + i + 1)
  }

  ghost predicate DummiesStored(t: Chain, base: BlockId, justify: BlockId, ids: seq<BlockId>)
    requires base in t.blocks
  {
    forall i :: 0 <= i < |ids| ==> DummyStored(t, base, justify, ids, i)
  }

  lemma {:induction false} DescendsThroughDummies(t: Chain, base: BlockId, justify: BlockId, ids: seq<BlockId>, i: nat, a: BlockId)
    requires t.WellFormed() && base in t.blocks && DummiesStored(t, base, justify, ids) && i < |ids| && a !in ids
    ensures t.Descends(ids[i], a) <==> t.Descends(base, a)
  {
    assert DummyStored(t, base, justify, ids, i);
    var parent := t.blocks[ids[i]].parent;
    assert ids[i] in ids;
    assert t.Descends(ids[i], a) <==> t.Descends(parent, a);
    if i > 0 {
      DescendsThroughDummies(t, base, justify, ids, i - 1, a);
    }
  }

  lemma {:induction false} AnchoredThroughDummies(t: Chain, base: BlockId, justify: BlockId, ids: seq<BlockId>, i: nat)
    requires t.WellFormed() && base in t.blocks && DummiesStored(t, base, justify, ids) && i < |ids|
    ensures t.Anchored(ids[i]) <==> t.Anchored(base)
  {
    assert DummyStored(t, base, justify, ids, i);
    var parent := t.blocks[ids[i]].parent;
    if i > 0 {
      assert DummyStored(t, base, justify, ids, i - 1);
      AnchoredThroughDummies(t, base, justify, ids, i - 1);
    }
    assert t.Anchored(ids[i]) <==> t.Anchored(parent);
  }

  lemma BuiltDummiesAreStored(t: Chain, s: State, name: DummyNaming, x: BlockId, dummies: seq<BlockId>)
    requires Knows(t, s) && NamesDummies(t, name) && x in t.blocks && BuiltOnDummies(t, s, name, x, dummies)
    requires forall i :: 0 <= i < |dummies| ==> dummies[i] in t.blocks
    ensures DummiesStored(t, s.highestSeen, t.blocks[x].justify, dummies)
  {
    hide DummyChain, NamesDummies;
    var base, j := s.highestSeen, t.blocks[x].justify;
    forall i | 0 <= i < |dummies| ensures DummyStored(t, base, j, dummies, i) {
      DummyBlocks(t, name, base, j, |dummies|, i);
    }
  }

  lemma DummiesAreHigher(t: Chain, base: BlockId, justify: BlockId, ids: seq<BlockId>, a: BlockId)
    requires t.WellFormed() && base in t.blocks && DummiesStored(t, base, justify, ids) && a in t.blocks
    requires t.Height(a) <= t.Height(base) || a == justify
    ensures a !in ids
  {
    forall i | 0 <= i < |ids| ensures ids[i] != a {
      assert DummyStored(t, base, justify, ids, i);
    }
  }

  lemma SafeThroughDummies(t: Chain, base: BlockId, ids: seq<BlockId>, x: BlockId, locked: BlockId)
    requires t.WellFormed() && base in t.blocks && x in t.blocks && x != t.genesis && locked in t.blocks && ids != []
    requires DummiesStored(t, base, t.blocks[x].justify, ids) && t.blocks[x].parent == ids[|ids| - 1]
    requires t.Height(locked) <= t.Height(base) < t.Height(x)
    ensures SafeNode(t, x, locked) <==> t.Height(t.blocks[x].justify) > t.Height(locked) || t.Descends(base, locked)
  {
    hide DummiesStored;
    DummiesAreHigher(t, base, t.blocks[x].justify, ids, locked);
    DescendsThroughDummies(t, base, t.blocks[x].justify, ids, |ids| - 1, locked);
  }

  lemma ShapeThroughDummies(t: Chain, base: BlockId, ids: seq<BlockId>, x: BlockId)
    requires t.WellFormed() && base in t.blocks && x in t.blocks && x != t.genesis && ids != []
    requires DummiesStored(t, base, t.blocks[x].justify, ids) && t.blocks[x].parent == ids[|ids| - 1]
    requires t.Height(x) > t.Height(base) + |ids|
    ensures WellShaped(t, x) <==> t.Anchored(base) && t.Descends(base, t.blocks[x].justify)
  {
    hide Chain.Descends, Chain.Anchored, WellShaped;
    var j, last := t.blocks[x].justify, |ids| - 1;
    assert DummyStored(t, base, j, ids, last);
    DummiesAreHigher(t, base, j, ids, j);
    DescendsThroughDummies(t, base, j, ids, last, j);
    AnchoredThroughDummies(t, base, j, ids, last);
    ShapeByParent(t, x);
  }

  lemma ShapeByParent(t: Chain, x: BlockId)
    requires t.WellFormed() && x in t.blocks && x != t.genesis && t.blocks[x].parent in t.blocks
    requires t.Height(t.blocks[x].parent) < t.Height(x) && t.blocks[x].parent != t.blocks[x].justify
    ensures WellShaped(t, x) <==> t.Anchored(t.blocks[x].parent) && t.Descends(t.blocks[x].parent, t.blocks[x].justify)
  {
  }

  /** A proposal accepted on dummy blocks, which validation does not check further, is safe for the lock exactly when its
      certificate is newer than the lock or the highest block seen descends from the locked block; and it has the shape
      agreement needs exactly when the highest block seen is anchored and descends from the block it justifies. */
  lemma TimeoutProposalIsSafeExactlyWhen(t: Chain, es: seq<Event>, name: DummyNaming, x: BlockId, dummies: seq<BlockId>)
    requires Processable(t, es) && NamesDummies(t, name) && x in t.blocks && x != t.genesis
    requires BuiltOnDummies(t, Run(t, es), name, x, dummies) && forall i :: 0 <= i < |dummies| ==> dummies[i] in t.blocks
    ensures var s := Run(t, es);
            && (SafeNode(t, x, s.locked) <==>
                  t.Height(t.blocks[x].justify) > t.Height(s.locked) || t.Descends(s.highestSeen, s.locked))
            && (WellShaped(t, x) <==> t.Anchored(s.highestSeen) && t.Descends(s.highestSeen, t.blocks[x].justify))
  {
    hide Run, NamesDummies, DummiesStored, SafeNode, WellShaped, DummyChain;
    var s := Run(t, es);
    LockIsBelowHighCertificate(t, es);
    BuiltDummiesAreStored(t, s, name, x, dummies);
    SafeThroughDummies(t, s.highestSeen, dummies, x, s.locked);
    ShapeThroughDummies(t, s.highestSeen, dummies, x);
  }

  // ---- From validation to agreement ----

  /** What validation leaves open. Without dummy blocks: the proposal stands on the block it justifies. With dummy blocks:
      the highest block seen is anchored, descends from the justified block, and is on the locked branch or the
      certificate is newer than the lock. */
  ghost predicate OnItsBranch(t: Chain, s: State, x: BlockId, timeout: Option<nat>, dummies: seq<BlockId>)
    requires Knows(t, s) && x in t.blocks
  {
    var justify := t.blocks[x].justify;
    if dummies == [] then StandsOnJustified(t, x, timeout)
    else
      && t.Anchored(s.highestSeen) && t.Descends(s.highestSeen, justify)
      && (t.Height(justify) > t.Height(s.locked) || t.Descends(s.highestSeen, s.locked))
  }

  /** The verdict on an arriving proposal. A certificate that names another height than its block has is never valid. */
  ghost function VerdictOn(t: Chain, name: DummyNaming, s: State, e: Event): Verdict
    requires Knows(t, s) && e.block in t.blocks && e.block != t.genesis && e.pending <= t.blocks.Keys
  {
    VerdictOf(t, s, e.stored, e.pending, name, e.block, t.Height(t.blocks[e.block].justify), e.timeout)
  }

  /** The proposal passes validation. */
  ghost predicate Passes(t: Chain, name: DummyNaming, s: State, e: Event)
    requires Knows(t, s) && e.block in t.blocks && e.block != t.genesis
  {
    e.pending <= t.blocks.Keys && VerdictOn(t, name, s, e).Valid?
  }

  /** The proposal passes validation, which stores the dummy blocks it built, and is on its branch. */
  ghost predicate Validated(t: Chain, name: DummyNaming, s: State, e: Event)
    requires Knows(t, s) && e.block in t.blocks && e.block != t.genesis
  {
    && Passes(t, name, s, e)
    && var dummies := VerdictOn(t, name, s, e).dummies;
    && (forall i :: 0 <= i < |dummies| ==> dummies[i] in t.blocks)
    && OnItsBranch(t, s, e.block, e.timeout, dummies)
  }

  /** A proposal that passes validation is safe for the lock and has the shape agreement needs exactly when its parent is
      stored and it is on its branch. */
  lemma PassingIsSoundExactlyWhen(t: Chain, name: DummyNaming, es: seq<Event>, e: Event)
    requires Processable(t, es) && NamesDummies(t, name) && e.block in t.blocks && e.block != t.genesis
    requires Passes(t, name, Run(t, es), e)
    requires var dummies := VerdictOn(t, name, Run(t, es), e).dummies; forall i :: 0 <= i < |dummies| ==> dummies[i] in t.blocks
    ensures SafeNode(t, e.block, Run(t, es).locked) && WellShaped(t, e.block) <==>
            && t.blocks[e.block].parent in t.blocks
            && OnItsBranch(t, Run(t, es), e.block, e.timeout, VerdictOn(t, name, Run(t, es), e).dummies)
  {
    hide NamesDummies, Run, SafeNode, SafeByIndex, UpTo, AllDummies, BuiltOnDummies, BranchIn, StandsOnJustified, WellShaped;
    var s, x, height := Run(t, es), e.block, t.Height(t.blocks[e.block].justify);
    VerdictMeans(t, s, e.stored, e.pending, name, x, height, e.timeout);
    var v := VerdictOn(t, name, s, e);
    if v.dummies == [] {
      ShapeExactlyWhen(t, x, e.timeout);
      if s.highPc == t.genesis && WellShaped(t, x) {
        SkippedCheckIsSafeExactlyWhen(t, es, x);
        WellShapedDescends(t, x);
      }
    } else {
      TimeoutProposalIsSafeExactlyWhen(t, es, name, x, v.dummies);
    }
  }

  lemma WellShapedDescends(t: Chain, x: BlockId)
    requires t.WellFormed() && x in t.blocks && WellShaped(t, x)
    ensures t.Descends(x, t.genesis)
  {
    DescendsFromGenesis(t, x);
  }

  /** Every vote of the run was for a validated proposal. */
  ghost predicate VotesAreValidated(t: Chain, name: DummyNaming, es: seq<Event>)
    requires Processable(t, es)
    decreases |es|
  {
    es == [] ||
    var before := Run(t, es[..|es| - 1]);
    var e := es[|es| - 1];
    && VotesAreValidated(t, name, es[..|es| - 1])
    && (Votes(t, before, e) ==> Validated(t, name, before, e))
  }

  lemma LastValidated(t: Chain, name: DummyNaming, es: seq<Event>)
    requires Processable(t, es) && es != []
    ensures var init, e := es[..|es| - 1], es[|es| - 1];
            VotesAreValidated(t, name, es) <==>
            VotesAreValidated(t, name, init) && (Votes(t, Run(t, init), e) ==> Validated(t, name, Run(t, init), e))
  {
    hide Votes, Validated, Run;
  }

  ghost predicate SafeAndShaped(t: Chain, ballots: seq<Ballot>)
    requires t.WellFormed()
  {
    && Known(t, ballots) && Safe(t, ballots)
    && (forall i :: 0 <= i < |ballots| ==> WellShaped(t, ballots[i].block))
  }

  lemma SafeExtends(t: Chain, ballots: seq<Ballot>, b: Ballot)
    requires t.WellFormed() && SafeAndShaped(t, ballots)
    requires b.block in t.blocks && b.block != t.genesis && b.locked in t.blocks
    requires SafeNode(t, b.block, b.locked) && WellShaped(t, b.block)
    ensures SafeAndShaped(t, ballots + [b])
  {
    hide SafeNode, WellShaped;
    var all := ballots + [b];
    assert forall i :: 0 <= i < |ballots| ==> all[i] == ballots[i];
  }

  /** In every run, votes for validated proposals are safe, and for blocks of the right shape. */
  lemma {:induction false} ValidatedVotesAreSafe(t: Chain, name: DummyNaming, es: seq<Event>)
    requires Processable(t, es) && NamesDummies(t, name) && VotesAreValidated(t, name, es)
    ensures SafeAndShaped(t, Cast(t, es))
  {
    if es != [] {
      hide NamesDummies, SafeAndShaped, WellShaped, SafeNode, Step, Votes, Run, Cast, VotesAreValidated, OnItsBranch, VerdictOf;
      var init, e := es[..|es| - 1], es[|es| - 1];
      LastEvent(t, es);
      LastValidated(t, name, es);
      ValidatedVotesAreSafe(t, name, init);
      if Votes(t, Run(t, init), e) {
        if t.blocks[e.block].parent !in t.blocks {
          MissingParentRollsBack(t, Run(t, init), e);
        }
        PassingIsSoundExactlyWhen(t, name, init, e);
        SafeExtends(t, Cast(t, init), Ballot(e.block, Run(t, init).locked));
      }
    }
  }

  /** A certificate that passes the signature check certifies its block, when valid signatures are only made by voting. */
  lemma CheckedCertificateCertifies(t: Chain, c: Committee, h: History, qc: Certificates.Certificate, verify: Certificates.Verifier)
    requires Certificates.Sound(qc, c, verify)
    requires forall k :: Certificates.HasSigned(verify, k, qc.blockId, qc.decision) ==> k in Voters(h, qc.blockId)
    ensures Certified(t, c, h, qc.blockId)
  {
    forall k | k in Certificates.Signers(qc.signatures) ensures k in Voters(h, qc.blockId) {
      var i :| 0 <= i < |qc.signatures| && qc.signatures[i].publicKey == k;
      assert Certificates.Fault(qc, c, verify, i) == Certificates.Passed;
      assert Certificates.HasSigned(verify, k, qc.blockId, qc.decision);
    }
    WeightMonotone(c, Certificates.Signers(qc.signatures), Voters(h, qc.blockId));
  }

  /** Every block but genesis carries a certificate for the block it justifies, and the check passed it. */
  ghost predicate CertificatesPass(t: Chain, c: Committee, certificates: map<BlockId, Certificates.Certificate>,
                                   verify: Certificates.Verifier)
  {
    forall x :: x in t.blocks && x != t.genesis ==>
      && x in certificates
      && if certificates[x].justifiesZero then t.blocks[x].justify == t.genesis
         else t.blocks[x].justify == certificates[x].blockId && Certificates.Sound(certificates[x], c, verify)
  }

  /** Valid signatures are made by voting only. */
  ghost predicate SignedByVoting(h: History, verify: Certificates.Verifier) {
    forall k, id, d :: Certificates.HasSigned(verify, k, id, d) ==> k in Voters(h, id)
  }

  lemma JustifiedBlockIsCertified(t: Chain, c: Committee, h: History, certificates: map<BlockId, Certificates.Certificate>,
                                  verify: Certificates.Verifier, x: BlockId)
    requires t.WellFormed() && CertificatesPass(t, c, certificates, verify) && SignedByVoting(h, verify) && x in t.blocks
    ensures Certified(t, c, h, t.blocks[x].justify)
  {
    if x != t.genesis && !certificates[x].justifiesZero {
      CheckedCertificateCertifies(t, c, h, certificates[x], verify);
    }
  }

  /** A committee in which every key outside `faulty` votes as its own run of the code does, for validated proposals above
      its last vote sent, and every block carries a certificate that passes the signature check. */
  ghost predicate ValidatedSystem(t: Chain, c: Committee, h: History, faulty: set<PublicKey>, name: DummyNaming,
                                  certificates: map<BlockId, Certificates.Certificate>, verify: Certificates.Verifier,
                                  runs: map<PublicKey, seq<Event>>)
  {
    && t.WellFormed() && NamesDummies(t, name)
    && TotalPower(c) > 0
    && Weight(c, faulty) <= MaxFailures(c)
    && CertificatesPass(t, c, certificates, verify) && SignedByVoting(h, verify)
    && (forall k :: k in h && k !in faulty ==> k in runs && FollowsRun(t, name, h[k], runs[k]))
  }

  ghost predicate FollowsRun(t: Chain, name: DummyNaming, ballots: seq<Ballot>, es: seq<Event>) {
    && Processable(t, es) && ballots == Cast(t, es)
    && VotesAreValidated(t, name, es) && VotesAboveLastSent(t, es)
  }

  lemma CertifiedBlockIsWellShaped(t: Chain, c: Committee, h: History, faulty: set<PublicKey>, name: DummyNaming,
                                   certificates: map<BlockId, Certificates.Certificate>, verify: Certificates.Verifier,
                                   runs: map<PublicKey, seq<Event>>, x: BlockId)
    requires ValidatedSystem(t, c, h, faulty, name, certificates, verify, runs) && x in t.blocks && Certified(t, c, h, x)
    ensures WellShaped(t, x)
  {
    hide NamesDummies, VotesAreValidated, VotesAboveLastSent, Cast, CertificatesPass, SignedByVoting;
    if x == t.genesis {
      assert t.Descends(x, x);
    } else {
      hide WellShaped, Safe, Known;
      var k := QuorumsShareHonestSigner(c, Voters(h, x), Voters(h, x), faulty);
      assert FollowsRun(t, name, h[k], runs[k]);
      ValidatedVotesAreSafe(t, name, runs[k]);
      var i :| 0 <= i < |h[k]| && h[k][i].block == x;
    }
  }

  lemma ValidatedSystemIsSystemRun(t: Chain, c: Committee, h: History, faulty: set<PublicKey>, name: DummyNaming,
                                   certificates: map<BlockId, Certificates.Certificate>, verify: Certificates.Verifier,
                                   runs: map<PublicKey, seq<Event>>)
    requires ValidatedSystem(t, c, h, faulty, name, certificates, verify, runs)
    ensures CommittedLogs.SystemRun(t, c, h, faulty, runs)
  {
    hide NamesDummies, WellShaped, VotesAreValidated, VotesAboveLastSent, Cast, Run, Certified, Safe, Known;
    hide CertificatesPass, SignedByVoting;
    forall x | x in t.blocks ensures Certified(t, c, h, t.blocks[x].justify) {
      JustifiedBlockIsCertified(t, c, h, certificates, verify, x);
    }
    forall x | x in t.blocks && Certified(t, c, h, x) ensures WellShaped(t, x) {
      CertifiedBlockIsWellShaped(t, c, h, faulty, name, certificates, verify, runs, x);
    }
    forall k | k in h && k !in faulty ensures CommittedLogs.VotesByTheRules(t, h[k], runs[k]) {
      assert FollowsRun(t, name, h[k], runs[k]);
      ValidatedVotesAreSafe(t, name, runs[k]);
    }
  }

  /** End to end: validators that vote for validated proposals, each above their last vote sent, never hand conflicting
      blocks to the commit callback, and first execute blocks in one order, as long as the faulty keys hold no more power
      than the fault bound. */
  lemma ValidatedSystemAgrees(t: Chain, c: Committee, h: History, faulty: set<PublicKey>, name: DummyNaming,
                              certificates: map<BlockId, Certificates.Certificate>, verify: Certificates.Verifier,
                              runs: map<PublicKey, seq<Event>>, k1: PublicKey, k2: PublicKey)
    requires ValidatedSystem(t, c, h, faulty, name, certificates, verify, runs)
    requires k1 in runs && Processable(t, runs[k1]) && k2 in runs && Processable(t, runs[k2])
    ensures forall y1, y2 :: y1 in Run(t, runs[k1]).executed && y2 in Run(t, runs[k2]).executed ==>
              t.Descends(y1, y2) || t.Descends(y2, y1)
    ensures var first1, first2 := CommittedLogs.Firsts(Run(t, runs[k1]).executed), CommittedLogs.Firsts(Run(t, runs[k2]).executed);
            first1 <= first2 || first2 <= first1
  {
    hide ValidatedSystem, Run, CommittedLogs.Firsts;
    ValidatedSystemIsSystemRun(t, c, h, faulty, name, certificates, verify, runs);
    CommittedLogs.SystemRunIsValid(t, c, h, faulty, runs);
    forall y1, y2 | y1 in Run(t, runs[k1]).executed && y2 in Run(t, runs[k2]).executed
      ensures t.Descends(y1, y2) || t.Descends(y2, y1)
    {
      CommittedLogs.ExecutedBlocksNeverFork(t, c, h, faulty, runs[k1], runs[k2], y1, y2);
    }
    CommittedLogs.FirstExecutionsArePrefixes(t, c, h, faulty, runs[k1], runs[k2]);
  }
}
