/** What the vote collector of crates/consensus/src/hotstuff/vote_collector/collector.rs returns over any sequence of
    calls: a quorum is returned by the call that completes it, whatever else arrives in between. */
module VoteHistories {
  import opened Wrappers
  import opened Committees
  import opened Certificates

  /** The store after the calls, from a given one. */
  ghost function StoreAfter(start: VoteStore, calls: seq<Call>, c: Committee): VoteStore {
    if calls == [] then start else Collected(StoreAfter(start, calls[..|calls| - 1], c), calls[|calls| - 1], c).0
  }

  /** What the last call returns. */
  ghost function Returned(start: VoteStore, calls: seq<Call>, c: Committee): Option<Decision> {
    if calls == [] then None else Collected(StoreAfter(start, calls[..|calls| - 1], c), calls[|calls| - 1], c).1
  }

  /** The validator has left the view and the one after it. */
  predicate Leaves(call: Call, view: (nat, nat)) {
    call.epoch > view.0 || (call.epoch == view.0 && call.height > view.1 + 1)
  }

  function KeyOf(call: Call): PublicKey {
    call.vote.signature.publicKey
  }

  predicate VotesIn(call: Call, view: (nat, nat)) {
    call.vote.epoch == view.0 && call.vote.height == view.1
  }

  predicate VotesOn(call: Call, view: (nat, nat), id: BlockId) {
    VotesIn(call, view) && call.vote.blockId == id
  }

  /** The k-th call is its signer's first vote for the block of the view. */
  ghost predicate IsFirst(calls: seq<Call>, view: (nat, nat), id: BlockId, k: nat)
    requires k < |calls|
  {
    && VotesOn(calls[k], view, id)
    && forall j :: 0 <= j < k && VotesOn(calls[j], view, id) ==> SenderOf(calls[j].vote) != SenderOf(calls[k].vote)
  }

  /** The keys whose first vote for the block of the view has the decision. */
  ghost function FirstVoters(calls: seq<Call>, view: (nat, nat), id: BlockId, d: Decision): set<PublicKey> {
    set k | 0 <= k < |calls| && IsFirst(calls, view, id, k) && calls[k].vote.decision == d :: KeyOf(calls[k])
  }

  /** The votes are exactly the first votes of their senders for the block of the view. */
  ghost predicate HoldsFirsts(votes: SenderVotes, calls: seq<Call>, view: (nat, nat), id: BlockId) {
    && (forall s :: s in votes ==>
          exists k :: 0 <= k < |calls| && IsFirst(calls, view, id, k) && SenderOf(calls[k].vote) == s && votes[s] == calls[k].vote)
    && (forall k :: 0 <= k < |calls| && IsFirst(calls, view, id, k) ==> SenderOf(calls[k].vote) in votes)
  }

  /** The validator was never more than one height past the view. */
  ghost predicate StaysNear(calls: seq<Call>, view: (nat, nat)) {
    forall k :: 0 <= k < |calls| ==> !Leaves(calls[k], view)
  }

  /** No votes of the view were held at the start, and nothing since made the collector give up those of the view: it was
      not left, and no vote of it returned. */
  ghost predicate KeepsView(start: VoteStore, calls: seq<Call>, view: (nat, nat), c: Committee) {
    && view !in start
    && StaysNear(calls, view)
    && (forall k :: 0 <= k < |calls| && VotesIn(calls[k], view) ==> Returned(start, calls[..k + 1], c).None?)
  }

  lemma RetainedExactlyWhen(store: VoteStore, call: Call, view: (nat, nat), id: BlockId)
    ensures view in Retained(store, call.epoch, call.height) <==> view in store && !Leaves(call, view)
    ensures VotesFor(Retained(store, call.epoch, call.height), view, id) ==
            if Leaves(call, view) then map[] else VotesFor(store, view, id)
  {
  }

  lemma FiledElsewhere(store: VoteStore, v: Vote, view: (nat, nat), id: BlockId)
    ensures VotesFor(Filed(store, SenderOf(v), v), view, id) ==
            if view == (v.epoch, v.height) && id == v.blockId then VotesFor(store, view, id)[SenderOf(v) := v]
            else VotesFor(store, view, id)
  {
  }

  /** What one call does to the votes held for a block of a view it does not leave. */
  lemma CallFiles(store: VoteStore, call: Call, c: Committee, view: (nat, nat), id: BlockId)
    requires !Leaves(call, view) && !(VotesIn(call, view) && Collected(store, call, c).1.Some?)
    ensures var votes := VotesFor(store, view, id);
            VotesFor(Collected(store, call, c).0, view, id) ==
            if VotesOn(call, view, id) && SenderOf(call.vote) !in votes then votes[SenderOf(call.vote) := call.vote] else votes
  {
    hide Retained, Filed, Outcome;
    RetainedExactlyWhen(store, call, view, id);
    RetainedExactlyWhen(store, call, (call.vote.epoch, call.vote.height), call.vote.blockId);
    FiledElsewhere(Retained(store, call.epoch, call.height), call.vote, view, id);
  }

  lemma {:induction false} FirstExists(calls: seq<Call>, view: (nat, nat), id: BlockId, j: nat) returns (k: nat)
    requires j < |calls| && VotesOn(calls[j], view, id)
    ensures k <= j && IsFirst(calls, view, id, k) && SenderOf(calls[k].vote) == SenderOf(calls[j].vote)
    decreases j
  {
    k := j;
    if !IsFirst(calls, view, id, j) {
      var i :| 0 <= i < j && VotesOn(calls[i], view, id) && SenderOf(calls[i].vote) == SenderOf(calls[j].vote);
      k := FirstExists(calls, view, id, i);
    }
  }

  lemma FirstInPrefix(calls: seq<Call>, view: (nat, nat), id: BlockId, n: nat, k: nat)
    requires k < n <= |calls|
    ensures IsFirst(calls[..n], view, id, k) <==> IsFirst(calls, view, id, k)
  {
    assert forall j :: 0 <= j <= k ==> calls[..n][j] == calls[j];
  }

  /** The last call is its signer's first exactly when the signer has no vote among the firsts before. */
  lemma LastIsFirst(votes: SenderVotes, calls: seq<Call>, view: (nat, nat), id: BlockId)
    requires calls != [] && HoldsFirsts(votes, calls[..|calls| - 1], view, id)
    ensures var n := |calls| - 1;
            IsFirst(calls, view, id, n) <==> VotesOn(calls[n], view, id) && SenderOf(calls[n].vote) !in votes
  {
    var n := |calls| - 1;
    var init, s := calls[..n], SenderOf(calls[n].vote);
    if s in votes {
      var k :| 0 <= k < n && IsFirst(init, view, id, k) && SenderOf(init[k].vote) == s;
      assert VotesOn(calls[k], view, id) && SenderOf(calls[k].vote) == s;
    } else if VotesOn(calls[n], view, id) && !IsFirst(calls, view, id, n) {
      var j :| 0 <= j < n && VotesOn(calls[j], view, id) && SenderOf(calls[j].vote) == s;
      assert init[j] == calls[j];
      var k := FirstExists(init, view, id, j);
    }
  }

  lemma FirstsExtend(votes: SenderVotes, calls: seq<Call>, view: (nat, nat), id: BlockId)
    requires calls != [] && HoldsFirsts(votes, calls[..|calls| - 1], view, id)
    ensures var call := calls[|calls| - 1];
            var adds := VotesOn(call, view, id) && SenderOf(call.vote) !in votes;
            HoldsFirsts(if adds then votes[SenderOf(call.vote) := call.vote] else votes, calls, view, id)
  {
    var n := |calls| - 1;
    LastIsFirst(votes, calls, view, id);
    forall k | 0 <= k < n ensures calls[..n][k] == calls[k] && (IsFirst(calls[..n], view, id, k) <==> IsFirst(calls, view, id, k)) {
      FirstInPrefix(calls, view, id, n, k);
    }
    hide IsFirst, VotesOn;
    forall s | s in votes
      ensures exists k :: 0 <= k < n && IsFirst(calls, view, id, k) && SenderOf(calls[k].vote) == s && votes[s] == calls[k].vote
    {
      var k :| && 0 <= k < n && IsFirst(calls[..n], view, id, k)
               && SenderOf(calls[..n][k].vote) == s && votes[s] == calls[..n][k].vote;
      assert IsFirst(calls, view, id, k) && SenderOf(calls[k].vote) == s && votes[s] == calls[k].vote;
    }
  }

  lemma LastCall(start: VoteStore, calls: seq<Call>, c: Committee)
    requires calls != []
    ensures (StoreAfter(start, calls, c), Returned(start, calls, c)) ==
            Collected(StoreAfter(start, calls[..|calls| - 1], c), calls[|calls| - 1], c)
  {
    hide Collected;
  }

  lemma KeepsViewSplits(start: VoteStore, calls: seq<Call>, view: (nat, nat), c: Committee)
    requires calls != []
    ensures var n := |calls| - 1;
            KeepsView(start, calls, view, c) <==>
            && KeepsView(start, calls[..n], view, c) && !Leaves(calls[n], view)
            && (VotesIn(calls[n], view) ==> Returned(start, calls, c).None?)
  {
    hide Returned;
    var n := |calls| - 1;
    assert calls[..n + 1] == calls;
    assert forall k :: 0 <= k < n ==> calls[..n][..k + 1] == calls[..k + 1] && calls[..n][k] == calls[k];
    if KeepsView(start, calls, view, c) {
      forall k | 0 <= k < n && VotesIn(calls[..n][k], view) ensures Returned(start, calls[..n][..k + 1], c).None? {
        assert VotesIn(calls[k], view);
      }
    } else if KeepsView(start, calls[..n], view, c) && !Leaves(calls[n], view) {
      forall k | 0 <= k < n && VotesIn(calls[k], view) ensures Returned(start, calls[..k + 1], c).None? {
        assert VotesIn(calls[..n][k], view);
      }
    }
  }

  /** While the view is kept, the collector holds the first vote of every signer for each of its blocks. */
  lemma {:induction false} CollectorHoldsFirsts(start: VoteStore, calls: seq<Call>, view: (nat, nat), id: BlockId, c: Committee)
    requires KeepsView(start, calls, view, c)
    ensures HoldsFirsts(VotesFor(StoreAfter(start, calls, c), view, id), calls, view, id)
  {
    if calls != [] {
      hide Collected, VotesFor, StoreAfter, Returned, HoldsFirsts, KeepsView;
      var init, call := calls[..|calls| - 1], calls[|calls| - 1];
      KeepsViewSplits(start, calls, view, c);
      CollectorHoldsFirsts(start, init, view, id, c);
      LastCall(start, calls, c);
      CallFiles(StoreAfter(start, init, c), call, c, view, id);
      FirstsExtend(VotesFor(StoreAfter(start, init, c), view, id), calls, view, id);
    }
  }

  lemma FirstsDecide(votes: SenderVotes, calls: seq<Call>, view: (nat, nat), id: BlockId, d: Decision)
    requires HoldsFirsts(votes, calls, view, id)
    ensures DecidedBy(votes, d) == FirstVoters(calls, view, id, d)
  {
    forall key | key in DecidedBy(votes, d) ensures key in FirstVoters(calls, view, id, d) {
      var s := SenderHash(key);
      assert s in votes && votes[s].decision == d;
      var k :| 0 <= k < |calls| && IsFirst(calls, view, id, k) && SenderOf(calls[k].vote) == s && votes[s] == calls[k].vote;
    }
    forall key | key in FirstVoters(calls, view, id, d) ensures key in DecidedBy(votes, d) {
      var k :| 0 <= k < |calls| && IsFirst(calls, view, id, k) && calls[k].vote.decision == d && KeyOf(calls[k]) == key;
      FirstIsHeld(votes, calls, view, id, k);
      assert SenderHash(key) in votes && votes[SenderHash(key)].decision == d;
    }
  }

  lemma FirstIsHeld(votes: SenderVotes, calls: seq<Call>, view: (nat, nat), id: BlockId, k: nat)
    requires HoldsFirsts(votes, calls, view, id) && k < |calls| && IsFirst(calls, view, id, k)
    ensures SenderOf(calls[k].vote) in votes && votes[SenderOf(calls[k].vote)] == calls[k].vote
  {
    var s := SenderOf(calls[k].vote);
    var j :| 0 <= j < |calls| && IsFirst(calls, view, id, j) && SenderOf(calls[j].vote) == s && votes[s] == calls[j].vote;
    assert j == k;
  }

  // ---- Which call returns a quorum ----

  /** A vote for a block of a kept view returns exactly the decision whose first voters form a quorum, if it is its signer's
      first. */
  lemma LastCallReturns(start: VoteStore, calls: seq<Call>, view: (nat, nat), id: BlockId, c: Committee, d: Decision)
    requires TotalPower(c) > 0 && calls != [] && KeepsView(start, calls[..|calls| - 1], view, c)
    requires !Leaves(calls[|calls| - 1], view) && VotesOn(calls[|calls| - 1], view, id)
    ensures Returned(start, calls, c) == Some(d) <==>
            IsFirst(calls, view, id, |calls| - 1) && IsQuorum(c, FirstVoters(calls, view, id, d))
  {
    hide StoreAfter, Returned, HoldsFirsts, KeepsView, IsFirst, IsQuorum, VotesFor, Filed, Retained, FirstVoters, DecidedBy;
    var init, call := calls[..|calls| - 1], calls[|calls| - 1];
    var store := StoreAfter(start, init, c);
    var votes := VotesFor(store, view, id);
    CollectorHoldsFirsts(start, init, view, id, c);
    LastIsFirst(votes, calls, view, id);
    FirstsExtend(votes, calls, view, id);
    LastCall(start, calls, c);
    RetainedExactlyWhen(store, call, view, id);
    FiledElsewhere(Retained(store, call.epoch, call.height), call.vote, view, id);
    if SenderOf(call.vote) !in votes {
      var after := votes[SenderOf(call.vote) := call.vote];
      FirstsDecide(after, calls, view, id, Accept);
      FirstsDecide(after, calls, view, id, Reject);
      AtMostOneDecision(after, c);
    }
  }

  /** The keys that voted for the block of the view. */
  ghost function VotersOf(calls: seq<Call>, view: (nat, nat), id: BlockId): set<PublicKey> {
    set k | 0 <= k < |calls| && VotesOn(calls[k], view, id) :: KeyOf(calls[k])
  }

  /** The keys that voted for two blocks of the view. */
  ghost function Equivocators(calls: seq<Call>, view: (nat, nat)): set<PublicKey> {
    set k | 0 <= k < |calls| && VotesIn(calls[k], view) && VotedOtherwise(calls, view, k) :: KeyOf(calls[k])
  }

  ghost predicate VotedOtherwise(calls: seq<Call>, view: (nat, nat), k: nat)
    requires k < |calls|
  {
    exists j :: && 0 <= j < |calls| && VotesIn(calls[j], view) && calls[j].vote.blockId != calls[k].vote.blockId
                && KeyOf(calls[j]) == KeyOf(calls[k])
  }

  lemma TwoBlocksEquivocate(calls: seq<Call>, view: (nat, nat), x: BlockId, y: BlockId)
    requires x != y
    ensures VotersOf(calls, view, x) * VotersOf(calls, view, y) <= Equivocators(calls, view)
  {
    forall key | key in VotersOf(calls, view, x) && key in VotersOf(calls, view, y) ensures key in Equivocators(calls, view) {
      var i :| 0 <= i < |calls| && VotesOn(calls[i], view, x) && KeyOf(calls[i]) == key;
      var j :| 0 <= j < |calls| && VotesOn(calls[j], view, y) && KeyOf(calls[j]) == key;
      assert VotedOtherwise(calls, view, i);
    }
  }

  lemma VotersGrow(calls: seq<Call>, view: (nat, nat), id: BlockId, n: nat)
    requires n <= |calls|
    ensures VotersOf(calls[..n], view, id) <= VotersOf(calls, view, id)
  {
    forall key | key in VotersOf(calls[..n], view, id) ensures key in VotersOf(calls, view, id) {
      var k :| 0 <= k < n && VotesOn(calls[..n][k], view, id) && KeyOf(calls[..n][k]) == key;
      assert calls[k] == calls[..n][k];
    }
  }

  ghost predicate HeldByVoters(votes: SenderVotes, calls: seq<Call>, view: (nat, nat), id: BlockId) {
    forall s :: s in votes ==> s.key in VotersOf(calls, view, id)
  }

  lemma CallHolds(store: VoteStore, call: Call, c: Committee, view: (nat, nat), id: BlockId, s: SenderHash)
    requires s in VotesFor(Collected(store, call, c).0, view, id)
    ensures s in VotesFor(store, view, id) || (VotesOn(call, view, id) && s == SenderOf(call.vote))
  {
    hide Retained, Filed, Outcome;
    RetainedExactlyWhen(store, call, view, id);
    FiledElsewhere(Retained(store, call.epoch, call.height), call.vote, view, id);
  }

  /** From any store without votes of the view, the collector holds only votes that arrived. */
  lemma {:induction false} HeldVotesArrived(start: VoteStore, calls: seq<Call>, view: (nat, nat), id: BlockId, c: Committee)
    requires view !in start
    ensures HeldByVoters(VotesFor(StoreAfter(start, calls, c), view, id), calls, view, id)
  {
    if calls != [] {
      hide Collected, VotesFor, StoreAfter, VotersOf;
      var n := |calls| - 1;
      HeldVotesArrived(start, calls[..n], view, id, c);
      LastCall(start, calls, c);
      VotersGrow(calls, view, id, n);
      forall s | s in VotesFor(StoreAfter(start, calls, c), view, id) ensures s.key in VotersOf(calls, view, id) {
        CallHolds(StoreAfter(start, calls[..n], c), calls[n], c, view, id, s);
        if s == SenderOf(calls[n].vote) && VotesOn(calls[n], view, id) {
          VoterIsListed(calls, view, id, n);
        }
      }
    }
  }

  lemma VoterIsListed(calls: seq<Call>, view: (nat, nat), id: BlockId, k: nat)
    requires k < |calls| && VotesOn(calls[k], view, id)
    ensures KeyOf(calls[k]) in VotersOf(calls, view, id)
  {
  }

  /** Whatever is returned, the keys that voted for its block form a quorum. */
  lemma ReturnedMeansQuorum(start: VoteStore, calls: seq<Call>, view: (nat, nat), id: BlockId, c: Committee)
    requires view !in start && calls != [] && VotesOn(calls[|calls| - 1], view, id) && Returned(start, calls, c).Some?
    ensures IsQuorum(c, VotersOf(calls, view, id))
  {
    hide StoreAfter, Returned, Filed, Retained, VotersOf, VotesFor;
    var n := |calls| - 1;
    var store, call := StoreAfter(start, calls[..n], c), calls[n];
    LastCall(start, calls, c);
    HeldVotesArrived(start, calls[..n], view, id, c);
    VotersGrow(calls, view, id, n);
    VoterIsListed(calls, view, id, n);
    RetainedExactlyWhen(store, call, view, id);
    var before := Retained(store, call.epoch, call.height);
    FiledElsewhere(before, call.vote, view, id);
    var votes := VotesFor(Filed(before, SenderOf(call.vote), call.vote), view, id);
    var d := Outcome(votes, c).value;
    assert DecidedBy(votes, d) <= VotersOf(calls, view, id);
    QuorumStays(c, DecidedBy(votes, d), VotersOf(calls, view, id));
  }

  lemma FirstVotersVoted(calls: seq<Call>, view: (nat, nat), id: BlockId, d: Decision)
    ensures FirstVoters(calls, view, id, d) <= VotersOf(calls, view, id)
  {
  }

  /** While few keys vote for two blocks of a view, at most one of its blocks has a quorum of voters. */
  lemma OneQuorumPerView(calls: seq<Call>, view: (nat, nat), x: BlockId, y: BlockId, c: Committee)
    requires TotalPower(c) > 0 && Weight(c, Equivocators(calls, view)) <= MaxFailures(c)
    requires IsQuorum(c, VotersOf(calls, view, x)) && IsQuorum(c, VotersOf(calls, view, y))
    ensures x == y
  {
    hide VotersOf, Equivocators, IsQuorum;
    QuorumIntersection(c, VotersOf(calls, view, x), VotersOf(calls, view, y));
    if x != y {
      TwoBlocksEquivocate(calls, view, x, y);
      WeightMonotone(c, VotersOf(calls, view, x) * VotersOf(calls, view, y), Equivocators(calls, view));
    }
  }

  lemma QuorumGrows(calls: seq<Call>, view: (nat, nat), id: BlockId, n: nat, c: Committee)
    requires n <= |calls| && IsQuorum(c, VotersOf(calls[..n], view, id))
    ensures IsQuorum(c, VotersOf(calls, view, id))
  {
    hide VotersOf;
    VotersGrow(calls, view, id, n);
    QuorumStays(c, VotersOf(calls[..n], view, id), VotersOf(calls, view, id));
  }

  /** No call before the n-th voted for a block of the view and returned. */
  ghost predicate NothingReturned(start: VoteStore, calls: seq<Call>, view: (nat, nat), n: nat, c: Committee)
    requires n <= |calls|
  {
    forall k :: 0 <= k < n && VotesIn(calls[k], view) ==> Returned(start, calls[..k + 1], c).None?
  }

  /** The keys whose first vote for the block has some one decision form a quorum. */
  ghost predicate HasQuorum(calls: seq<Call>, view: (nat, nat), id: BlockId, c: Committee) {
    IsQuorum(c, FirstVoters(calls, view, id, Accept)) || IsQuorum(c, FirstVoters(calls, view, id, Reject))
  }

  /** The block had no quorum after any of the first `n` calls. */
  ghost predicate NoQuorumYet(calls: seq<Call>, view: (nat, nat), id: BlockId, n: nat, c: Committee)
    requires n <= |calls|
  {
    forall k :: 0 <= k <= n ==> !HasQuorum(calls[..k], view, id, c)
  }

  lemma NoQuorumBefore(calls: seq<Call>, view: (nat, nat), id: BlockId, n: nat, c: Committee)
    requires n <= |calls| && NoQuorumYet(calls, view, id, n, c)
    ensures !HasQuorum(calls[..n], view, id, c) && (n > 0 ==> NoQuorumYet(calls, view, id, n - 1, c))
  {
    hide HasQuorum;
  }

  lemma NothingReturnedKeeps(start: VoteStore, calls: seq<Call>, view: (nat, nat), n: nat, c: Committee)
    requires view !in start && n <= |calls| && NothingReturned(start, calls, view, n, c) && StaysNear(calls, view)
    ensures KeepsView(start, calls[..n], view, c)
  {
    hide Returned;
    forall k | 0 <= k < n ensures calls[..n][k] == calls[k] && calls[..n][..k + 1] == calls[..k + 1] {
    }
    forall k | 0 <= k < n && VotesIn(calls[..n][k], view) ensures Returned(start, calls[..n][..k + 1], c).None? {
      assert VotesIn(calls[k], view);
    }
  }

  lemma NothingReturnedExtends(start: VoteStore, calls: seq<Call>, view: (nat, nat), n: nat, c: Committee)
    requires n < |calls| && NothingReturned(start, calls, view, n, c)
    requires VotesIn(calls[n], view) ==> Returned(start, calls[..n + 1], c).None?
    ensures NothingReturned(start, calls, view, n + 1, c)
  {
    hide Returned;
  }

  lemma NextReturnsNothing(start: VoteStore, calls: seq<Call>, view: (nat, nat), id: BlockId, n: nat, c: Committee)
    requires view !in start && TotalPower(c) > 0 && Weight(c, Equivocators(calls, view)) <= MaxFailures(c) && n < |calls|
    requires StaysNear(calls, view) && NothingReturned(start, calls, view, n, c)
    requires IsQuorum(c, VotersOf(calls, view, id)) && !HasQuorum(calls[..n + 1], view, id, c)
    ensures VotesIn(calls[n], view) ==> Returned(start, calls[..n + 1], c).None?
  {
    hide Returned, VotersOf, Equivocators, IsQuorum, HasQuorum, KeepsView, IsFirst, FirstVoters;
    NothingReturnedKeeps(start, calls, view, n, c);
    hide NothingReturned;
    var prefix, other := calls[..n + 1], calls[n].vote.blockId;
    assert prefix[n] == calls[n] && prefix[..n] == calls[..n];
    if VotesIn(calls[n], view) && Returned(start, prefix, c).Some? {
      ReturnedMeansQuorum(start, prefix, view, other, c);
      QuorumGrows(calls, view, other, n + 1, c);
      OneQuorumPerView(calls, view, id, other, c);
      LastCallReturns(start, prefix, view, id, c, Returned(start, prefix, c).value);
      QuorumIsOne(prefix, view, id, c, Returned(start, prefix, c).value);
    }
  }

  /** Until some block of the view has a quorum of first votes, no vote of the view returns; with few equivocators and a
      block that has a quorum of voters in the end, only that block can have one. */
  lemma {:induction false} NoneReturnsEarly(start: VoteStore, calls: seq<Call>, view: (nat, nat), id: BlockId, n: nat, c: Committee)
    requires view !in start && TotalPower(c) > 0 && Weight(c, Equivocators(calls, view)) <= MaxFailures(c) && n <= |calls|
    requires StaysNear(calls, view)
    requires IsQuorum(c, VotersOf(calls, view, id)) && NoQuorumYet(calls, view, id, n, c)
    ensures NothingReturned(start, calls, view, n, c)
    decreases n
  {
    if n > 0 {
      hide Returned, VotersOf, Equivocators, IsQuorum, HasQuorum, NothingReturned, NoQuorumYet, StaysNear;
      NoQuorumBefore(calls, view, id, n, c);
      NoneReturnsEarly(start, calls, view, id, n - 1, c);
      NextReturnsNothing(start, calls, view, id, n - 1, c);
      NothingReturnedExtends(start, calls, view, n - 1, c);
    }
  }

  lemma QuorumIsOne(calls: seq<Call>, view: (nat, nat), id: BlockId, c: Committee, d: Decision)
    requires IsQuorum(c, FirstVoters(calls, view, id, d))
    ensures HasQuorum(calls, view, id, c) && IsQuorum(c, VotersOf(calls, view, id))
  {
    FirstVotersVoted(calls, view, id, d);
    QuorumStays(c, FirstVoters(calls, view, id, d), VotersOf(calls, view, id));
  }

  lemma QuorumStays(c: Committee, a: set<PublicKey>, b: set<PublicKey>)
    requires IsQuorum(c, a) && a <= b
    ensures IsQuorum(c, b)
  {
    WeightMonotone(c, a, b);
  }

  /** The last call, if its signer voted for the block before, adds no first voter. */
  lemma RepeatAddsNothing(calls: seq<Call>, view: (nat, nat), id: BlockId, d: Decision)
    requires calls != [] && !IsFirst(calls, view, id, |calls| - 1)
    ensures FirstVoters(calls, view, id, d) <= FirstVoters(calls[..|calls| - 1], view, id, d)
  {
    hide IsFirst;
    var n := |calls| - 1;
    forall key | key in FirstVoters(calls, view, id, d) ensures key in FirstVoters(calls[..n], view, id, d) {
      var k :| 0 <= k < |calls| && IsFirst(calls, view, id, k) && calls[k].vote.decision == d && KeyOf(calls[k]) == key;
      FirstInPrefix(calls, view, id, n, k);
      assert calls[..n][k] == calls[k];
    }
  }

  /** The call that completes a quorum is its signer's first for the block. */
  lemma CompletingCallIsFirst(calls: seq<Call>, view: (nat, nat), id: BlockId, c: Committee, d: Decision)
    requires calls != [] && IsQuorum(c, FirstVoters(calls, view, id, d)) && !HasQuorum(calls[..|calls| - 1], view, id, c)
    ensures IsFirst(calls, view, id, |calls| - 1) && VotesOn(calls[|calls| - 1], view, id)
  {
    hide IsQuorum, FirstVoters, HasQuorum;
    var init := calls[..|calls| - 1];
    if !IsFirst(calls, view, id, |calls| - 1) {
      RepeatAddsNothing(calls, view, id, d);
      QuorumStays(c, FirstVoters(calls, view, id, d), FirstVoters(init, view, id, d));
      QuorumIsOne(init, view, id, c, d);
    }
  }

  /** From any store without votes of the view, whatever votes for other blocks and views arrive in between: while the
      validator is at most one height past a view and the keys that vote for two of its blocks weigh no more than the fault
      bound, the call that first gives a block of the view a quorum of first votes for one decision returns that decision,
      and no vote of the view returned before. */
  lemma QuorumIsReturnedWhenComplete(start: VoteStore, calls: seq<Call>, view: (nat, nat), id: BlockId, c: Committee, d: Decision)
    requires view !in start && TotalPower(c) > 0 && Weight(c, Equivocators(calls, view)) <= MaxFailures(c) && calls != []
    requires StaysNear(calls, view)
    requires IsQuorum(c, FirstVoters(calls, view, id, d)) && NoQuorumYet(calls, view, id, |calls| - 1, c)
    ensures Returned(start, calls, c) == Some(d)
    ensures NothingReturned(start, calls, view, |calls| - 1, c)
  {
    hide Returned, VotersOf, Equivocators, IsQuorum, KeepsView, FirstVoters, IsFirst, NoQuorumYet, HasQuorum;
    var n := |calls| - 1;
    QuorumIsOne(calls, view, id, c, d);
    NoneReturnsEarly(start, calls, view, id, n, c);
    NothingReturnedKeeps(start, calls, view, n, c);
    NoQuorumBefore(calls, view, id, n, c);
    CompletingCallIsFirst(calls, view, id, c, d);
    LastCallReturns(start, calls, view, id, c, d);
  }

  /** The votes of a view are given up when the validator leaves it, and when a vote of it returns. */
  lemma ViewIsGivenUp(store: VoteStore, call: Call, view: (nat, nat), c: Committee)
    requires if VotesIn(call, view) then Collected(store, call, c).1.Some? else Leaves(call, view)
    ensures view !in Collected(store, call, c).0
  {
    hide Retained, Outcome, VotesFor;
    RetainedExactlyWhen(store, call, view, call.vote.blockId);
  }

  // ---- Votes lost to another block ----

  /** A vote of view 0 that arrives in it. */
  function VoteFor(key: PublicKey, id: BlockId): Call {
    Call(0, 0, Vote(0, 0, id, Accept, Signature(key, "")))
  }

  lemma FirstVotersOfVotes(calls: seq<Call>, keys: seq<PublicKey>, ids: seq<BlockId>, id: BlockId)
    requires |keys| == |ids| == |calls| && forall k :: 0 <= k < |calls| ==> calls[k] == VoteFor(keys[k], ids[k])
    ensures FirstVoters(calls, (0, 0), id, Accept) == set k | 0 <= k < |keys| && ids[k] == id :: keys[k]
    ensures FirstVoters(calls, (0, 0), id, Reject) == {}
  {
    forall key | key in (set k | 0 <= k < |keys| && ids[k] == id :: keys[k]) ensures key in FirstVoters(calls, (0, 0), id, Accept) {
      var j :| 0 <= j < |keys| && ids[j] == id && keys[j] == key;
      var k := FirstExists(calls, (0, 0), id, j);
    }
  }

  lemma WithoutQuorumNothingReturns(start: VoteStore, calls: seq<Call>, view: (nat, nat), id: BlockId, c: Committee)
    requires TotalPower(c) > 0 && calls != [] && KeepsView(start, calls[..|calls| - 1], view, c)
    requires !Leaves(calls[|calls| - 1], view) && VotesOn(calls[|calls| - 1], view, id) && !HasQuorum(calls, view, id, c)
    ensures Returned(start, calls, c) == None
  {
    hide Returned, IsQuorum, FirstVoters, KeepsView;
    LastCallReturns(start, calls, view, id, c, Accept);
    LastCallReturns(start, calls, view, id, c, Reject);
    if Returned(start, calls, c).Some? {
      match Returned(start, calls, c).value
      case Accept =>
      case Reject =>
    }
  }

  lemma NoQuorumOf(calls: seq<Call>, id: BlockId, c: Committee, key: PublicKey)
    requires !IsQuorum(c, {key}) && FirstVoters(calls, (0, 0), id, Accept) <= {key} && FirstVoters(calls, (0, 0), id, Reject) == {}
    ensures !HasQuorum(calls, (0, 0), id, c)
  {
    WeightMonotone(c, FirstVoters(calls, (0, 0), id, Accept), {key});
    WeightMonotone(c, {}, {key});
  }

  lemma StartIsKept(start: VoteStore, c: Committee)
    ensures StoreAfter(start, [], c) == start
  {
  }

  lemma NothingKept(start: VoteStore, view: (nat, nat), c: Committee)
    requires view !in start
    ensures KeepsView(start, [], view, c)
  {
  }

  /** Two voters who are a quorum only together vote for two blocks of a view, the second one in the other order. */
  function Crossed(p: PublicKey, q: PublicKey, x: BlockId, y: BlockId): seq<Call> {
    [VoteFor(p, y), VoteFor(p, x), VoteFor(q, x), VoteFor(q, y)]
  }

  lemma CrossedVoters(p: PublicKey, q: PublicKey, x: BlockId, y: BlockId, n: nat, id: BlockId)
    requires p != q && x != y && n <= 4
    ensures var first := FirstVoters(Crossed(p, q, x, y)[..n], (0, 0), id, Accept);
            && (id == x ==> first == if n < 2 then {} else if n == 2 then {p} else {p, q})
            && (id == y ==> first == if n == 0 then {} else if n < 4 then {p} else {p, q})
    ensures FirstVoters(Crossed(p, q, x, y)[..n], (0, 0), id, Reject) == {}
  {
    hide FirstVoters;
    var keys, ids := [p, p, q, q], [y, x, x, y];
    var ks, bs := keys[..n], ids[..n];
    FirstVotersOfVotes(Crossed(p, q, x, y)[..n], ks, bs, id);
    var voters := set k | 0 <= k < |ks| && bs[k] == id :: ks[k];
    if n > 0 {
      assert ks[0] == p && bs[0] == y;
    }
    if n > 1 {
      assert ks[1] == p && bs[1] == x;
    }
    if n > 2 {
      assert ks[2] == q && bs[2] == x;
    }
    if n > 3 {
      assert ks[3] == q && bs[3] == y;
    }
  }

  lemma CrossedFirst(c: Committee, p: PublicKey, q: PublicKey, x: BlockId, y: BlockId)
    requires TotalPower(c) > 0 && p != q && x != y && !IsQuorum(c, {p})
    ensures KeepsView(map[], Crossed(p, q, x, y)[..2], (0, 0), c)
  {
    hide Returned, IsQuorum, FirstVoters, KeepsView, HasQuorum;
    var calls := Crossed(p, q, x, y);
    NothingKept(map[], (0, 0), c);
    assert calls[..1][..0] == [] && calls[..2][..1] == calls[..1];
    CrossedVoters(p, q, x, y, 1, y);
    NoQuorumOf(calls[..1], y, c, p);
    WithoutQuorumNothingReturns(map[], calls[..1], (0, 0), y, c);
    KeepsViewSplits(map[], calls[..1], (0, 0), c);
    CrossedVoters(p, q, x, y, 2, x);
    NoQuorumOf(calls[..2], x, c, p);
    WithoutQuorumNothingReturns(map[], calls[..2], (0, 0), x, c);
    KeepsViewSplits(map[], calls[..2], (0, 0), c);
  }

  lemma CrossedThird(c: Committee, p: PublicKey, q: PublicKey, x: BlockId, y: BlockId)
    requires TotalPower(c) > 0 && p != q && x != y && IsQuorum(c, {p, q}) && KeepsView(map[], Crossed(p, q, x, y)[..2], (0, 0), c)
    ensures Returned(map[], Crossed(p, q, x, y)[..3], c) == Some(Accept)
  {
    hide Returned, IsQuorum, FirstVoters, KeepsView;
    var calls := Crossed(p, q, x, y);
    assert calls[..3][..2] == calls[..2];
    CrossedVoters(p, q, x, y, 3, x);
    LastCallReturns(map[], calls[..3], (0, 0), x, c, Accept);
  }

  /** Where more keys vote for two blocks than the fault bound tolerates, the completing call need not return: the quorum of
      the other block discards the votes of the view. */
  lemma QuorumIsLostToAnotherBlock(c: Committee, p: PublicKey, q: PublicKey, x: BlockId, y: BlockId)
    requires TotalPower(c) > 0 && p != q && x != y && IsQuorum(c, {p, q}) && !IsQuorum(c, {p}) && !IsQuorum(c, {q})
    ensures var calls := Crossed(p, q, x, y);
            && Returned(map[], calls[..3], c) == Some(Accept)
            && NoQuorumYet(calls, (0, 0), y, 3, c)
            && IsQuorum(c, FirstVoters(calls, (0, 0), y, Accept)) && Returned(map[], calls, c) == None
  {
    hide Returned, IsQuorum, FirstVoters, KeepsView, StoreAfter, Collected, IsFirst;
    var calls := Crossed(p, q, x, y);
    forall n | 0 <= n < 4 ensures !HasQuorum(calls[..n], (0, 0), y, c) {
      CrossedVoters(p, q, x, y, n, y);
      NoQuorumOf(calls[..n], y, c, p);
    }
    CrossedVoters(p, q, x, y, 4, y);
    assert calls[..4] == calls;
    CrossedFirst(c, p, q, x, y);
    CrossedThird(c, p, q, x, y);
    var start := StoreAfter(map[], calls[..3], c);
    LastCall(map[], calls[..3], c);
    assert calls[..3][..2] == calls[..2] && calls[..3][2] == VoteFor(q, x);
    ViewIsGivenUp(StoreAfter(map[], calls[..2], c), VoteFor(q, x), (0, 0), c);
    var last := [VoteFor(q, y)];
    FirstVotersOfVotes(last, [q], [y], y);
    assert last[..0] == [];
    NothingKept(start, (0, 0), c);
    NoQuorumOf(last, y, c, q);
    WithoutQuorumNothingReturns(start, last, (0, 0), y, c);
    LastCall(map[], calls, c);
    LastCall(start, last, c);
    StartIsKept(start, c);
  }
}
