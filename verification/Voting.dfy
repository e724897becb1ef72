/** Runs of one validator over the proposals it receives, the votes it sends, and exactly when those follow the voting
    rules, as in crates/consensus/src/hotstuff (on_receive_local_proposal.rs, on_ready_to_vote_on_local_block.rs). */
module Voting {
  import opened Committees
  import opened HotStuff
  import opened Replicas

  // ---- Runs ----

  /** Proposals for a validator, which stores blocks of the tree only. */
  ghost predicate Processable(t: Chain, es: seq<Event>) {
    && t.WellFormed()
    && forall i :: 0 <= i < |es| ==> es[i].block in t.blocks && es[i].block != t.genesis && es[i].stored <= t.blocks.Keys
  }

  ghost function Run(t: Chain, es: seq<Event>): (s: State)
    requires Processable(t, es)
    ensures Knows(t, s)
  {
    if es == [] then Initial(t)
    else
      StepIsKnown(t, Run(t, es[..|es| - 1]), es[|es| - 1]);
      Step(t, Run(t, es[..|es| - 1]), es[|es| - 1])
  }

  /** The votes a run sends, each with the lock its block was validated against. */
  ghost function Cast(t: Chain, es: seq<Event>): seq<Ballot>
    requires Processable(t, es)
  {
    if es == [] then []
    else
      var before := Run(t, es[..|es| - 1]);
      var e := es[|es| - 1];
      Cast(t, es[..|es| - 1]) + if Votes(t, before, e) then [Ballot(e.block, before.locked)] else []
  }

  // ---- When a run follows the voting rules ----

  ghost predicate Known(t: Chain, ballots: seq<Ballot>) {
    forall i :: 0 <= i < |ballots| ==>
      ballots[i].block in t.blocks && ballots[i].block != t.genesis && ballots[i].locked in t.blocks
  }

  ghost predicate Rising(t: Chain, ballots: seq<Ballot>)
    requires Known(t, ballots)
  {
    forall i, j :: 0 <= i < j < |ballots| ==> t.Height(ballots[i].block) < t.Height(ballots[j].block)
  }

  ghost predicate Safe(t: Chain, ballots: seq<Ballot>)
    requires t.WellFormed() && Known(t, ballots)
  {
    forall i :: 0 <= i < |ballots| ==> SafeNode(t, ballots[i].block, ballots[i].locked)
  }

  /** Every vote is for a block above the last vote sent, a record the validator keeps. */
  ghost predicate VotesAboveLastSent(t: Chain, es: seq<Event>)
    requires Processable(t, es)
    decreases |es|
  {
    es == [] ||
    var before := Run(t, es[..|es| - 1]);
    var e := es[|es| - 1];
    && VotesAboveLastSent(t, es[..|es| - 1])
    && (Votes(t, before, e) ==> t.Height(e.block) > before.lastSent)
  }

  lemma {:induction false} CastIsKnown(t: Chain, es: seq<Event>)
    requires Processable(t, es)
    ensures Known(t, Cast(t, es))
  {
    hide Votes, Step;
    if es != [] {
      CastIsKnown(t, es[..|es| - 1]);
    }
  }

  /** The last-sent record is the height of the last vote. */
  lemma {:induction false} LastSentIsLastBallot(t: Chain, es: seq<Event>)
    requires Processable(t, es)
    ensures Known(t, Cast(t, es))
    ensures var ballots := Cast(t, es);
            Run(t, es).lastSent == if ballots == [] then 0 else t.Height(ballots[|ballots| - 1].block)
  {
    CastIsKnown(t, es);
    if es != [] {
      hide Completes, Updated, Remaining;
      var before, e := Run(t, es[..|es| - 1]), es[|es| - 1];
      LastSentIsLastBallot(t, es[..|es| - 1]);
      if Commits(t, before, e) {
        UpdatedIsKnown(t, before, e.block);
      }
    }
  }

  lemma RisingExtends(t: Chain, ballots: seq<Ballot>, b: Ballot)
    requires Known(t, ballots) && b.block in t.blocks && b.block != t.genesis && b.locked in t.blocks
    ensures Known(t, ballots + [b])
    ensures Rising(t, ballots + [b]) <==>
            Rising(t, ballots) && (ballots == [] || t.Height(ballots[|ballots| - 1].block) < t.Height(b.block))
  {
    var all := ballots + [b];
    assert forall i :: 0 <= i < |ballots| ==> all[i] == ballots[i];
    assert all[|ballots|] == b;
  }

  lemma HeightIsPositive(t: Chain, x: BlockId)
    requires t.WellFormed() && x in t.blocks && x != t.genesis
    ensures t.Height(x) > 0
  {
  }

  lemma LastEvent(t: Chain, es: seq<Event>)
    requires Processable(t, es) && es != []
    ensures var init, e := es[..|es| - 1], es[|es| - 1];
            var votes, before := Votes(t, Run(t, init), e), Run(t, init);
            && Run(t, es) == Step(t, before, e)
            && Cast(t, es) == (if votes then Cast(t, init) + [Ballot(e.block, before.locked)] else Cast(t, init))
            && (VotesAboveLastSent(t, es) <==>
                  VotesAboveLastSent(t, init) && (votes ==> t.Height(e.block) > before.lastSent))
  {
    hide Votes, Step;
  }

  /** The heights of a run's votes rise exactly when every vote is above the last vote sent. */
  lemma {:induction false} BallotsRiseExactlyWhen(t: Chain, es: seq<Event>)
    requires Processable(t, es)
    ensures Known(t, Cast(t, es))
    ensures Rising(t, Cast(t, es)) <==> VotesAboveLastSent(t, es)
  {
    CastIsKnown(t, es);
    if es != [] {
      hide Votes, Step, Rising, Run, Cast, VotesAboveLastSent;
      var init, e := es[..|es| - 1], es[|es| - 1];
      LastEvent(t, es);
      BallotsRiseExactlyWhen(t, init);
      LastSentIsLastBallot(t, init);
      HeightIsPositive(t, e.block);
      if Votes(t, Run(t, init), e) {
        RisingExtends(t, Cast(t, init), Ballot(e.block, Run(t, init).locked));
      }
    }
  }

  // ---- What makes a vote ----

  /** Every block is found that processing the proposal up to a vote looks up. */
  ghost predicate FindsAll(t: Chain, s: State, e: Event)
    requires Knows(t, s) && e.block in t.blocks
  {
    && Completes(t, s, e.block)
    && t.blocks[e.block].justify in Remaining(t, s, e)
    && t.blocks[e.block].parent in Remaining(t, s, e)
  }

  /** The proposal deserves a vote: its evaluation agrees, it is above the last vote, and no block is missing. */
  ghost predicate Deserves(t: Chain, s: State, e: Event)
    requires Knows(t, s) && e.block in t.blocks
  {
    e.evaluation == Agreed && t.Height(e.block) > s.lastVoted && FindsAll(t, s, e)
  }

  /** A proposal adds one vote, with the lock of the moment, exactly when it deserves it. Without a vote the two vote
      records stay as they are; with one, the last sent height is the block's, and so is the last voted one unless the next
      leader is evicted. */
  lemma VotesExactlyWhenDeserved(t: Chain, es: seq<Event>)
    requires Processable(t, es) && es != []
    ensures var init, e := es[..|es| - 1], es[|es| - 1];
            var before, after := Run(t, init), Run(t, es);
            if Deserves(t, before, e) then
              && Cast(t, es) == Cast(t, init) + [Ballot(e.block, before.locked)]
              && after.lastSent == t.Height(e.block)
              && after.lastVoted == (if e.skipLeader then before.lastVoted else t.Height(e.block))
            else
              && Cast(t, es) == Cast(t, init)
              && after.lastSent == before.lastSent && after.lastVoted == before.lastVoted
  {
    hide Completes, Updated, Remaining, Run, Cast, VotesAboveLastSent;
    var before, e := Run(t, es[..|es| - 1]), es[|es| - 1];
    LastEvent(t, es);
    if Commits(t, before, e) {
      UpdatedIsKnown(t, before, e.block);
    }
  }

  /** The k-th proposal of the run deserved a vote when it was processed. */
  ghost predicate DeservedAt(t: Chain, es: seq<Event>, k: nat)
    requires Processable(t, es) && k < |es|
  {
    Deserves(t, Run(t, es[..k]), es[k])
  }

  /** The vote the k-th proposal gets if it deserves it. */
  ghost function BallotAt(t: Chain, es: seq<Event>, k: nat): Ballot
    requires Processable(t, es) && k < |es|
  {
    Ballot(es[k].block, Run(t, es[..k]).locked)
  }

  /** The sources are, in order, the positions of all proposals that deserved a vote, and the votes are theirs. */
  ghost predicate SourcesOf(t: Chain, es: seq<Event>, ballots: seq<Ballot>, sources: seq<nat>)
    requires Processable(t, es)
  {
    && |sources| == |ballots|
    && (forall i, j :: 0 <= i < j < |sources| ==> sources[i] < sources[j])
    && (forall i :: 0 <= i < |sources| ==> sources[i] < |es| && ballots[i] == BallotAt(t, es, sources[i]))
    && (forall k :: 0 <= k < |es| ==> (k in sources <==> DeservedAt(t, es, k)))
  }

  lemma PrefixDeserves(t: Chain, es: seq<Event>, k: nat)
    requires Processable(t, es) && k < |es| - 1
    ensures var init := es[..|es| - 1];
            (DeservedAt(t, init, k) <==> DeservedAt(t, es, k)) && BallotAt(t, init, k) == BallotAt(t, es, k)
  {
    hide Run, Deserves;
    assert es[..|es| - 1][..k] == es[..k];
  }

  lemma SourcesKeep(t: Chain, es: seq<Event>, ballots: seq<Ballot>, sources: seq<nat>)
    requires Processable(t, es) && es != [] && SourcesOf(t, es[..|es| - 1], ballots, sources)
    ensures forall i :: 0 <= i < |sources| ==> sources[i] < |es| - 1 && ballots[i] == BallotAt(t, es, sources[i])
    ensures forall k :: 0 <= k < |es| - 1 ==> (k in sources <==> DeservedAt(t, es, k))
  {
    hide DeservedAt, BallotAt;
    forall k | 0 <= k < |es| - 1 ensures k in sources <==> DeservedAt(t, es, k) {
      PrefixDeserves(t, es, k);
    }
    forall i | 0 <= i < |sources| ensures sources[i] < |es| - 1 && ballots[i] == BallotAt(t, es, sources[i]) {
      PrefixDeserves(t, es, sources[i]);
    }
  }

  lemma SourcesExtend(t: Chain, es: seq<Event>, sources: seq<nat>) returns (all: seq<nat>)
    requires Processable(t, es) && es != [] && SourcesOf(t, es[..|es| - 1], Cast(t, es[..|es| - 1]), sources)
    ensures SourcesOf(t, es, Cast(t, es), all)
  {
    hide Run, Cast, Deserves;
    var n := |es| - 1;
    SourcesKeep(t, es, Cast(t, es[..n]), sources);
    VotesExactlyWhenDeserved(t, es);
    assert DeservedAt(t, es, n) <==> Deserves(t, Run(t, es[..n]), es[n]);
    assert DeservedAt(t, es, n) ==> Cast(t, es) == Cast(t, es[..n]) + [BallotAt(t, es, n)];
    hide DeservedAt, BallotAt, Processable;
    all := if DeservedAt(t, es, n) then sources + [n] else sources;
  }

  /** The votes of every run are, in order, one for each proposal that deserved it when it was processed. */
  lemma {:induction false} BallotsAreDeserved(t: Chain, es: seq<Event>) returns (sources: seq<nat>)
    requires Processable(t, es)
    ensures SourcesOf(t, es, Cast(t, es), sources)
  {
    if es == [] {
      sources := [];
    } else {
      hide Run, Cast, SourcesOf;
      sources := BallotsAreDeserved(t, es[..|es| - 1]);
      sources := SourcesExtend(t, es, sources);
    }
  }

  // ---- What makes the records ----

  /** Processing the proposal is not rolled back. The parent only matters to a block above the last vote that no command
      declines. */
  ghost predicate TakesEffect(t: Chain, s: State, e: Event)
    requires Knows(t, s) && e.block in t.blocks
  {
    && Completes(t, s, e.block)
    && t.blocks[e.block].justify in Remaining(t, s, e)
    && (e.evaluation == Declined || t.Height(e.block) <= s.lastVoted || t.blocks[e.block].parent in Remaining(t, s, e))
  }

  ghost predicate TookEffect(t: Chain, es: seq<Event>, k: nat)
    requires Processable(t, es) && k < |es|
  {
    TakesEffect(t, Run(t, es[..k]), es[k])
  }

  /** The record is the highest of what the proposals that took effect offered it, or genesis if none did. */
  ghost predicate IsHighest(t: Chain, es: seq<Event>, offer: BlockId -> BlockId, record: BlockId)
    requires Processable(t, es)
  {
    && record in t.blocks
    && (record == t.genesis || exists k :: 0 <= k < |es| && TookEffect(t, es, k) && offer(es[k].block) == record)
    && (forall k :: 0 <= k < |es| && TookEffect(t, es, k) ==>
          offer(es[k].block) in t.blocks && t.Height(offer(es[k].block)) <= t.Height(record))
  }

  lemma PrefixTookEffect(t: Chain, es: seq<Event>, k: nat)
    requires Processable(t, es) && k < |es| - 1
    ensures TookEffect(t, es[..|es| - 1], k) <==> TookEffect(t, es, k)
  {
    hide Run, TakesEffect;
    assert es[..|es| - 1][..k] == es[..k];
  }

  lemma HighestExtends(t: Chain, es: seq<Event>, offer: BlockId -> BlockId, record: BlockId, record': BlockId)
    requires Processable(t, es) && es != [] && IsHighest(t, es[..|es| - 1], offer, record)
    requires var offered := offer(es[|es| - 1].block);
             if TookEffect(t, es, |es| - 1)
             then offered in t.blocks && record' == if t.Height(offered) > t.Height(record) then offered else record
             else record' == record
    ensures IsHighest(t, es, offer, record')
  {
    hide TookEffect;
    var n := |es| - 1;
    forall k | 0 <= k < n ensures TookEffect(t, es[..n], k) <==> TookEffect(t, es, k) {
      PrefixTookEffect(t, es, k);
    }
    if record' == record && record != t.genesis {
      var k :| 0 <= k < n && TookEffect(t, es[..n], k) && offer(es[..n][k].block) == record;
      assert TookEffect(t, es, k) && offer(es[k].block) == record;
    }
  }

  ghost function Justified(t: Chain): BlockId -> BlockId {
    x => if x in t.blocks then t.blocks[x].justify else x
  }

  ghost function LockTargets(t: Chain): BlockId -> BlockId
    requires t.WellFormed()
  {
    x => if t.WellFormed() && x in t.blocks then LockTarget(t, x) else x
  }

  /** A proposal without effect leaves all records as they were; one with effect raises the highest block seen, the high
      certificate and the lock. */
  lemma EffectOnRecords(t: Chain, s: State, e: Event)
    requires Knows(t, s) && e.block in t.blocks
    ensures var s', target, justified := Step(t, s, e), LockTarget(t, e.block), t.blocks[e.block].justify;
            if TakesEffect(t, s, e) then
              && justified in t.blocks && target in t.blocks
              && s'.highestSeen == (if t.Height(e.block) > t.Height(s.highestSeen) then e.block else s.highestSeen)
              && s'.highPc == (if t.Height(justified) > t.Height(s.highPc) then justified else s.highPc)
              && s'.locked == (if t.Height(target) > t.Height(s.locked) then target else s.locked)
            else s' == s
  {
    hide Completes, Remaining, CommitHead, PathAbove;
  }

  ghost predicate RecordsAreHighest(t: Chain, es: seq<Event>)
    requires Processable(t, es)
  {
    var s := Run(t, es);
    && IsHighest(t, es, x => x, s.highestSeen)
    && IsHighest(t, es, Justified(t), s.highPc)
    && IsHighest(t, es, LockTargets(t), s.locked)
  }

  /** In every run the highest block seen, the high certificate and the lock are the highest that the proposals which took
      effect offered. */
  lemma {:induction false} RunRecordsTheHighest(t: Chain, es: seq<Event>)
    requires Processable(t, es)
    ensures RecordsAreHighest(t, es)
  {
    if es != [] {
      hide Run, IsHighest, TakesEffect, Step, LockTarget, Cast, VotesAboveLastSent;
      var init, e := es[..|es| - 1], es[|es| - 1];
      var s, s' := Run(t, init), Run(t, es);
      RunRecordsTheHighest(t, init);
      LastEvent(t, es);
      EffectOnRecords(t, s, e);
      assert TookEffect(t, es, |es| - 1) <==> TakesEffect(t, s, e);
      HighestExtends(t, es, x => x, s.highestSeen, s'.highestSeen);
      HighestExtends(t, es, Justified(t), s.highPc, s'.highPc);
      HighestExtends(t, es, LockTargets(t), s.locked, s'.locked);
    }
  }

  /** Recorded votes rise: without evicted leaders the code keeps to the condition by itself. */
  lemma {:induction false} RecordedVotesRise(t: Chain, es: seq<Event>)
    requires Processable(t, es) && forall i :: 0 <= i < |es| ==> !es[i].skipLeader
    ensures VotesAboveLastSent(t, es) && Run(t, es).lastSent <= Run(t, es).lastVoted
  {
    if es != [] {
      hide Completes, Updated, Remaining;
      var before, e := Run(t, es[..|es| - 1]), es[|es| - 1];
      RecordedVotesRise(t, es[..|es| - 1]);
      if Commits(t, before, e) {
        UpdatedIsKnown(t, before, e.block);
      }
    }
  }

  /** In every run, the lock is certified and covers the lock targets of all votes. */
  ghost predicate LockCovers(t: Chain, c: Committee, h: History, s: State, ballots: seq<Ballot>)
    requires Knows(t, s) && Known(t, ballots)
  {
    && Certified(t, c, h, s.locked)
    && (forall i :: 0 <= i < |ballots| ==>
          && Certified(t, c, h, ballots[i].locked)
          && t.Height(LockTarget(t, ballots[i].block)) <= t.Height(s.locked))
    && (forall i, j :: 0 <= i < j < |ballots| ==>
          t.Height(LockTarget(t, ballots[i].block)) <= t.Height(ballots[j].locked))
  }

  lemma LockRises(t: Chain, c: Committee, h: History, s: State, e: Event)
    requires Knows(t, s) && e.block in t.blocks && Certified(t, c, h, s.locked)
    requires forall x :: x in t.blocks ==> Certified(t, c, h, t.blocks[x].justify)
    ensures Knows(t, Step(t, s, e)) && Certified(t, c, h, Step(t, s, e).locked)
    ensures t.Height(s.locked) <= t.Height(Step(t, s, e).locked)
    ensures Votes(t, s, e) ==> t.Height(LockTarget(t, e.block)) <= t.Height(Step(t, s, e).locked)
  {
    hide Certified, PathStored, PathAbove, CommitHead, Remaining;
    StepIsKnown(t, s, e);
  }

  lemma CoverExtends(t: Chain, c: Committee, h: History, s: State, ballots: seq<Ballot>, b: Ballot, s': State)
    requires Knows(t, s) && Knows(t, s') && Known(t, ballots) && LockCovers(t, c, h, s, ballots)
    requires b.block in t.blocks && b.block != t.genesis && b.locked == s.locked
    requires Certified(t, c, h, s'.locked) && t.Height(s.locked) <= t.Height(s'.locked)
    requires t.Height(LockTarget(t, b.block)) <= t.Height(s'.locked)
    ensures Known(t, ballots + [b]) && LockCovers(t, c, h, s', ballots + [b])
  {
    hide Certified, LockTarget;
    var all := ballots + [b];
    assert forall i :: 0 <= i < |ballots| ==> all[i] == ballots[i];
    assert all[|ballots|] == b;
  }

  lemma StepCovers(t: Chain, c: Committee, h: History, s: State, ballots: seq<Ballot>, e: Event)
    requires Knows(t, s) && Known(t, ballots) && LockCovers(t, c, h, s, ballots) && e.block in t.blocks && e.block != t.genesis
    requires forall x :: x in t.blocks ==> Certified(t, c, h, t.blocks[x].justify)
    ensures var ballots' := if Votes(t, s, e) then ballots + [Ballot(e.block, s.locked)] else ballots;
            Knows(t, Step(t, s, e)) && Known(t, ballots') && LockCovers(t, c, h, Step(t, s, e), ballots')
  {
    hide Certified, Step, Votes, Known, LockTarget;
    LockRises(t, c, h, s, e);
    if Votes(t, s, e) {
      CoverExtends(t, c, h, s, ballots, Ballot(e.block, s.locked), Step(t, s, e));
    }
  }

  lemma {:induction false} LockAlwaysCovers(t: Chain, c: Committee, h: History, es: seq<Event>)
    requires Processable(t, es)
    requires forall x :: x in t.blocks ==> Certified(t, c, h, t.blocks[x].justify)
    ensures Known(t, Cast(t, es)) && LockCovers(t, c, h, Run(t, es), Cast(t, es))
  {
    CastIsKnown(t, es);
    if es != [] {
      hide Certified, Step, Votes, Known, LockCovers, Run, Cast;
      LastEvent(t, es);
      LockAlwaysCovers(t, c, h, es[..|es| - 1]);
      StepCovers(t, c, h, Run(t, es[..|es| - 1]), Cast(t, es[..|es| - 1]), es[|es| - 1]);
    }
  }

  lemma DisciplineSplits(t: Chain, c: Committee, h: History, s: State, ballots: seq<Ballot>)
    requires Knows(t, s) && Known(t, ballots) && LockCovers(t, c, h, s, ballots)
    ensures Disciplined(t, c, h, ballots) <==> Rising(t, ballots) && Safe(t, ballots)
  {
    hide Certified, LockTarget, SafeNode;
  }

  /** A run's votes follow the voting rules exactly when each was for a block safe for the lock of the moment and above
      the last vote sent. */
  lemma RunIsDisciplinedExactlyWhen(t: Chain, c: Committee, h: History, es: seq<Event>)
    requires Processable(t, es)
    requires forall x :: x in t.blocks ==> Certified(t, c, h, t.blocks[x].justify)
    ensures Known(t, Cast(t, es))
    ensures Disciplined(t, c, h, Cast(t, es)) <==> Safe(t, Cast(t, es)) && VotesAboveLastSent(t, es)
  {
    hide Certified, Disciplined, Safe, VotesAboveLastSent, Cast, Run, Rising;
    LockAlwaysCovers(t, c, h, es);
    DisciplineSplits(t, c, h, Run(t, es), Cast(t, es));
    BallotsRiseExactlyWhen(t, es);
  }
}
