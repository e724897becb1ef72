/** Proposal certificates: collecting votes into them and checking them, as in
    crates/consensus/src/hotstuff/vote_collector/collector.rs and crates/consensus/src/validations/common.rs. */
module Certificates {
  import opened Wrappers
  import opened Committees

  datatype Decision = Accept | Reject

  datatype Signature = Signature(publicKey: PublicKey, bytes: string)

  /** The signed content of a vote is its block id and decision. */
  type Verifier = (BlockId, Decision, Signature) -> bool

  /** `justifiesZero` holds of the genesis certificate, whose header hash is all zero. */
  datatype Certificate = Certificate(justifiesZero: bool, blockId: BlockId, signatures: seq<Signature>, decision: Decision)

  datatype CheckResult =
    | Passed
    | NotInCommittee(key: PublicKey)
    | DuplicateSignature(key: PublicKey)
    | InvalidSignature
    | QuorumNotReached(got: nat, required: nat)

  ghost function Signers(sigs: seq<Signature>): set<PublicKey> {
    set i | 0 <= i < |sigs| :: sigs[i].publicKey
  }

  lemma SignersSnoc(sigs: seq<Signature>, i: nat)
    requires i < |sigs|
    ensures Signers(sigs[..i + 1]) == Signers(sigs[..i]) + {sigs[i].publicKey}
  {
    var all, init := sigs[..i + 1], sigs[..i];
    assert all == init + [sigs[i]];
    forall k | k in Signers(all) ensures k in Signers(init) + {sigs[i].publicKey} {
      var j :| 0 <= j < |all| && all[j].publicKey == k;
      assert j < i ==> init[j] == all[j];
    }
    forall k | k in Signers(init) + {sigs[i].publicKey} ensures k in Signers(all) {
      if k in Signers(init) {
        var j :| 0 <= j < |init| && init[j].publicKey == k;
        assert all[j] == init[j];
      } else {
        assert all[i] == sigs[i];
      }
    }
  }

  /** What is wrong with the certificate's i-th signature, checked in the order of the code; `Passed` when nothing is. */
  ghost function Fault(qc: Certificate, c: Committee, verify: Verifier, i: nat): CheckResult
    requires i < |qc.signatures|
  {
    var sig := qc.signatures[i];
    if PowerByPublicKey(c, sig.publicKey).None? then NotInCommittee(sig.publicKey)
    else if sig.publicKey in Signers(qc.signatures[..i]) then DuplicateSignature(sig.publicKey)
    else if !verify(qc.blockId, qc.decision, sig) then InvalidSignature
    else Passed
  }

  /** Which fault a signature has: of a signer outside the committee that first; of a member's repeated one that; and only of
      a member's first one that it does not verify. */
  lemma FaultExactlyWhen(qc: Certificate, c: Committee, verify: Verifier, i: nat)
    requires i < |qc.signatures|
    ensures var sig, fault := qc.signatures[i], Fault(qc, c, verify, i);
            var isMember := exists k :: 0 <= k < |c| && c[k].publicKey == sig.publicKey;
            var repeats := exists j :: 0 <= j < i && qc.signatures[j].publicKey == sig.publicKey;
            && (fault == NotInCommittee(sig.publicKey) <==> !isMember)
            && (fault == DuplicateSignature(sig.publicKey) <==> isMember && repeats)
            && (fault == InvalidSignature <==> isMember && !repeats && !verify(qc.blockId, qc.decision, sig))
            && (fault == Passed <==> isMember && !repeats && verify(qc.blockId, qc.decision, sig))
  {
    var sig := qc.signatures[i];
    PowerOfMembers(c, sig.publicKey);
    assert forall j :: 0 <= j < i ==> qc.signatures[..i][j] == qc.signatures[j];
    if sig.publicKey in Signers(qc.signatures[..i]) {
      var j :| 0 <= j < |qc.signatures[..i]| && qc.signatures[..i][j].publicKey == sig.publicKey;
      assert qc.signatures[j].publicKey == sig.publicKey;
    } else {
      forall j | 0 <= j < i ensures qc.signatures[j].publicKey != sig.publicKey {
        assert qc.signatures[..i][j].publicKey in Signers(qc.signatures[..i]);
      }
    }
  }

  lemma {:induction false} PowerOfMembers(c: Committee, key: PublicKey)
    ensures PowerByPublicKey(c, key).Some? <==> exists k :: 0 <= k < |c| && c[k].publicKey == key
  {
    if c != [] {
      PowerOfMembers(c[1..], key);
      if k :| 0 <= k < |c| && c[k].publicKey == key {
        if k > 0 {
          assert c[1..][k - 1].publicKey == key;
        }
      }
      if k :| 0 <= k < |c[1..]| && c[1..][k].publicKey == key {
        assert c[k + 1].publicKey == key;
      }
    }
  }

  ghost predicate FaultFree(qc: Certificate, c: Committee, verify: Verifier, n: nat)
    requires n <= |qc.signatures|
  {
    forall i :: 0 <= i < n ==> Fault(qc, c, verify, i) == Passed
  }

  /** The certificate names distinct committee members with valid signatures that form a quorum. */
  ghost predicate Sound(qc: Certificate, c: Committee, verify: Verifier) {
    FaultFree(qc, c, verify, |qc.signatures|) && IsQuorum(c, Signers(qc.signatures))
  }

  /** Validates the signatures of a certificate; the first fault found is the one reported. */
  method CheckCertificate(qc: Certificate, c: Committee, verify: Verifier) returns (r: CheckResult)
    ensures r.Passed? <==> qc.justifiesZero || Sound(qc, c, verify)
    ensures r.QuorumNotReached? ==>
              && FaultFree(qc, c, verify, |qc.signatures|)
              && r.got == Weight(c, Signers(qc.signatures)) < r.required == QuorumThreshold(c)
    ensures !r.Passed? && !r.QuorumNotReached? ==>
              exists i :: 0 <= i < |qc.signatures| && FaultFree(qc, c, verify, i) && r == Fault(qc, c, verify, i)
  {
    if qc.justifiesZero {
      return Passed;
    }
    var seen: set<PublicKey> := {};
    var power := 0;
    assert qc.signatures[..0] == [];
    WeightEmpty(c);
    for i := 0 to |qc.signatures|
      invariant seen == Signers(qc.signatures[..i])
      invariant power == Weight(c, seen)
      invariant FaultFree(qc, c, verify, i)
    {
      var sig := qc.signatures[i];
      SignersSnoc(qc.signatures, i);
      var p := PowerByPublicKey(c, sig.publicKey);
      if p.None? {
        r := NotInCommittee(sig.publicKey);
        assert r == Fault(qc, c, verify, i);
        return;
      }
      power := power + p.value;
      if sig.publicKey in seen {
        r := DuplicateSignature(sig.publicKey);
        assert r == Fault(qc, c, verify, i);
        return;
      }
      WeightInsert(c, seen, sig.publicKey);
      seen := seen + {sig.publicKey};
      if !verify(qc.blockId, qc.decision, sig) {
        r := InvalidSignature;
        assert r == Fault(qc, c, verify, i);
        return;
      }
    }
    assert qc.signatures[..|qc.signatures|] == qc.signatures;
    if power < QuorumThreshold(c) {
      return QuorumNotReached(power, QuorumThreshold(c));
    }
    return Passed;
  }

  /** The key has a valid signature for the block and decision. */
  ghost predicate HasSigned(verify: Verifier, key: PublicKey, id: BlockId, d: Decision) {
    exists sig: Signature :: sig.publicKey == key && verify(id, d, sig)
  }

  /** Two checked certificates expose more than the tolerable power as having signed both of their blocks. */
  lemma CertificatesExposeSharedSigners(p: Certificate, q: Certificate, c: Committee, verify: Verifier)
    requires TotalPower(c) > 0 && Sound(p, c, verify) && Sound(q, c, verify)
    ensures Weight(c, Signers(p.signatures) * Signers(q.signatures)) >= MaxFailures(c) + 1
    ensures forall k :: k in Signers(p.signatures) * Signers(q.signatures) ==>
              HasSigned(verify, k, p.blockId, p.decision) && HasSigned(verify, k, q.blockId, q.decision)
  {
    QuorumIntersection(c, Signers(p.signatures), Signers(q.signatures));
    forall k | k in Signers(p.signatures) * Signers(q.signatures)
      ensures HasSigned(verify, k, p.blockId, p.decision) && HasSigned(verify, k, q.blockId, q.decision)
    {
      var i :| 0 <= i < |p.signatures| && p.signatures[i].publicKey == k;
      var j :| 0 <= j < |q.signatures| && q.signatures[j].publicKey == k;
      assert Fault(p, c, verify, i) == Passed && Fault(q, c, verify, j) == Passed;
    }
  }

  /** The key signed at most one block of the view. */
  ghost predicate SignsOneBlock(verify: Verifier, key: PublicKey, view: set<BlockId>) {
    forall x, y, d, e | x in view && y in view && HasSigned(verify, key, x, d) && HasSigned(verify, key, y, e) :: x == y
  }

  /** Certificate agreement: when the keys that signed two blocks of one epoch and height weigh no more than the
      fault bound, all checked certificates for that epoch and height name the same block. */
  lemma CertificateAgreement(p: Certificate, q: Certificate, c: Committee, verify: Verifier,
                             view: set<BlockId>, equivocators: set<PublicKey>)
    requires TotalPower(c) > 0 && Sound(p, c, verify) && Sound(q, c, verify)
    requires p.blockId in view && q.blockId in view
    requires Weight(c, equivocators) <= MaxFailures(c)
    requires forall k :: k !in equivocators ==> SignsOneBlock(verify, k, view)
    ensures p.blockId == q.blockId
  {
    CertificatesExposeSharedSigners(p, q, c, verify);
    var k := HeavierSetEscapes(c, Signers(p.signatures) * Signers(q.signatures), equivocators);
    assert SignsOneBlock(verify, k, view);
  }

  // ---- Collecting votes ----

  datatype Vote = Vote(epoch: nat, height: nat, blockId: BlockId, decision: Decision, signature: Signature)

  /** A validator's node hash, collision-free in its public key. */
  datatype SenderHash = SenderHash(key: PublicKey)

  type SenderVotes = map<SenderHash, Vote>
  type VoteStore = map<(nat, nat), map<BlockId, SenderVotes>>

  predicate ViewBefore(a: (nat, nat), b: (nat, nat)) {
    a.0 < b.0 || (a.0 == b.0 && a.1 < b.1)
  }

  /** Every stored vote is filed under its own view, block and sender, and its signature verifies. */
  ghost predicate FiledProperly(store: VoteStore, verify: Verifier) {
    forall view, id, sender :: view in store && id in store[view] && sender in store[view][id] ==>
      BelongsUnder(store[view][id][sender], view, id, sender, verify)
  }

  ghost predicate BelongsUnder(v: Vote, view: (nat, nat), id: BlockId, sender: SenderHash, verify: Verifier) {
    && (v.epoch, v.height) == view && v.blockId == id && sender == SenderHash(v.signature.publicKey)
    && verify(v.blockId, v.decision, v.signature)
  }

  /** The votes filed for one block of one view. */
  ghost function VotesFor(store: VoteStore, view: (nat, nat), id: BlockId): SenderVotes {
    if view in store && id in store[view] then store[view][id] else map[]
  }

  /** The keys whose filed vote has the decision. */
  ghost function DecidedBy(votes: SenderVotes, d: Decision): set<PublicKey> {
    set s | s in votes && votes[s].decision == d :: s.key
  }

  /** The store after votes of views before the one preceding the current view are dropped. */
  ghost function Retained(store: VoteStore, epoch: nat, height: nat): VoteStore {
    map view | view in store && !ViewBefore(view, (epoch, if height == 0 then 0 else height - 1)) :: store[view]
  }

  /** The store after one more vote is filed. */
  ghost function Filed(store: VoteStore, sender: SenderHash, v: Vote): VoteStore {
    var view := (v.epoch, v.height);
    store[view := (if view in store then store[view] else map[])[v.blockId := VotesFor(store, view, v.blockId)[sender := v]]]
  }

  /** A vote that arrives while the validator is at the given epoch and height. */
  datatype Call = Call(epoch: nat, height: nat, vote: Vote)

  function SenderOf(v: Vote): SenderHash {
    SenderHash(v.signature.publicKey)
  }

  /** The store after a call and the decision it returns, if any: votes before the view that precedes the current one are
      dropped, a duplicate is ignored, another vote is filed, and once a decision has a quorum the view is removed. */
  ghost function Collected(store: VoteStore, call: Call, c: Committee): (VoteStore, Option<Decision>) {
    var v := call.vote;
    var view, before := (v.epoch, v.height), Retained(store, call.epoch, call.height);
    if SenderOf(v) in VotesFor(before, view, v.blockId) then (before, None)
    else
      var after := Filed(before, SenderOf(v), v);
      var outcome := Outcome(VotesFor(after, view, v.blockId), c);
      (if outcome.None? then after else after - {view}, outcome)
  }

  ghost predicate VotesAreOwn(votes: SenderVotes) {
    forall s :: s in votes ==> s == SenderHash(votes[s].signature.publicKey)
  }

  datatype Tally = Tally(decision: Option<Decision>, power: nat)

  /** What a set of votes decides: the decision whose voters form a quorum, with that power. */
  ghost function Outcome(votes: SenderVotes, c: Committee): Option<Decision> {
    if IsQuorum(c, DecidedBy(votes, Accept)) then Some(Accept)
    else if IsQuorum(c, DecidedBy(votes, Reject)) then Some(Reject)
    else None
  }

  /** One vote per sender, so at most one decision can reach quorum: the order of the two tests is immaterial. */
  lemma AtMostOneDecision(votes: SenderVotes, c: Committee)
    requires TotalPower(c) > 0
    ensures !(IsQuorum(c, DecidedBy(votes, Accept)) && IsQuorum(c, DecidedBy(votes, Reject)))
  {
    assert DecidedBy(votes, Accept) * DecidedBy(votes, Reject) == {};
    WeightEmpty(c);
    if IsQuorum(c, DecidedBy(votes, Accept)) && IsQuorum(c, DecidedBy(votes, Reject)) {
      QuorumIntersection(c, DecidedBy(votes, Accept), DecidedBy(votes, Reject));
    }
  }

  ghost function PowerFor(votes: SenderVotes, c: Committee, d: Decision): nat {
    Weight(c, DecidedBy(votes, d))
  }

  lemma PowerForNone(c: Committee)
    ensures PowerFor(map[], c, Accept) == 0 && PowerFor(map[], c, Reject) == 0
  {
    WeightEmpty(c);
    assert DecidedBy(map[], Accept) == {} && DecidedBy(map[], Reject) == {};
  }

  lemma TallyStep(c: Committee, done: SenderVotes, s: SenderHash, v: Vote, d: Decision)
    requires s !in done && s == SenderHash(v.signature.publicKey)
    ensures PowerFor(done[s := v], c, d) == PowerFor(done, c, d) + if v.decision == d then PowerOrZero(c, s.key) else 0
  {
    var next := done[s := v];
    assert s.key !in DecidedBy(done, d);
    forall k ensures k in DecidedBy(next, d) <==> k in DecidedBy(done, d) || (d == v.decision && k == s.key) {
      assert k in DecidedBy(next, d) <==> SenderHash(k) in next && next[SenderHash(k)].decision == d;
      assert k in DecidedBy(done, d) <==> SenderHash(k) in done && done[SenderHash(k)].decision == d;
    }
    if v.decision == d {
      assert DecidedBy(next, d) == DecidedBy(done, d) + {s.key};
      WeightInsert(c, DecidedBy(done, d), s.key);
    } else {
      assert DecidedBy(next, d) == DecidedBy(done, d);
    }
  }

  ghost function VoteSigners(votes: seq<Vote>): set<PublicKey> {
    set i | 0 <= i < |votes| :: votes[i].signature.publicKey
  }

  /** Verified votes for one block and decision by distinct signers that form a quorum. */
  ghost predicate QuorumVotes(votes: seq<Vote>, id: BlockId, d: Decision, c: Committee, verify: Verifier) {
    && (forall i :: 0 <= i < |votes| ==>
          votes[i].blockId == id && votes[i].decision == d && verify(id, d, votes[i].signature))
    && (forall i, j :: 0 <= i < j < |votes| ==> votes[i].signature.publicKey != votes[j].signature.publicKey)
    && IsQuorum(c, VoteSigners(votes))
  }

  /** The certificate made of the signatures of collected votes. */
  function CreateCertificate(votes: seq<Vote>, id: BlockId, d: Decision): Certificate {
    Certificate(false, id, seq(|votes|, i requires 0 <= i < |votes| => votes[i].signature), d)
  }

  /** A certificate made of collected votes passes the check of every other validator exactly when all its voters
      are members of the committee the check uses. */
  lemma CollectedCertificateIsSound(votes: seq<Vote>, id: BlockId, d: Decision, c: Committee, verify: Verifier)
    requires QuorumVotes(votes, id, d, c, verify)
    ensures Sound(CreateCertificate(votes, id, d), c, verify) <==>
            forall i :: 0 <= i < |votes| ==> PowerByPublicKey(c, votes[i].signature.publicKey).Some?
  {
    var qc := CreateCertificate(votes, id, d);
    assert Signers(qc.signatures) == VoteSigners(votes) by {
      forall k | k in VoteSigners(votes) ensures k in Signers(qc.signatures) {
        var i :| 0 <= i < |votes| && votes[i].signature.publicKey == k;
        assert qc.signatures[i] == votes[i].signature;
      }
    }
    forall i | 0 <= i < |votes|
      ensures Fault(qc, c, verify, i) == Passed <==> PowerByPublicKey(c, votes[i].signature.publicKey).Some?
    {
      assert qc.signatures[i] == votes[i].signature;
      assert forall j :: 0 <= j < i ==> qc.signatures[j].publicKey != votes[i].signature.publicKey;
      assert votes[i].signature.publicKey !in Signers(qc.signatures[..i]);
    }
  }

  lemma FilingKeepsOrder(store: VoteStore, sender: SenderHash, v: Vote, verify: Verifier)
    requires FiledProperly(store, verify)
    requires sender == SenderHash(v.signature.publicKey) && verify(v.blockId, v.decision, v.signature)
    ensures FiledProperly(Filed(store, sender, v), verify)
  {
    var after := Filed(store, sender, v);
    forall view, id, s | view in after && id in after[view] && s in after[view][id]
      ensures BelongsUnder(after[view][id][s], view, id, s, verify)
    {
      if view != (v.epoch, v.height) || id != v.blockId || s != sender {
        assert view in store && id in store[view] && s in store[view][id];
      }
    }
  }

  lemma FiledVotesAreOwn(store: VoteStore, view: (nat, nat), id: BlockId, verify: Verifier)
    requires FiledProperly(store, verify)
    ensures VotesAreOwn(VotesFor(store, view, id))
    ensures forall s :: s in VotesFor(store, view, id) ==>
              var w := VotesFor(store, view, id)[s]; w.blockId == id && verify(id, w.decision, w.signature)
  {
  }

  lemma TakenIsQuorum(votes: SenderVotes, taken: seq<Vote>, id: BlockId, d: Decision, c: Committee, verify: Verifier)
    requires forall s :: s in votes ==> votes[s].blockId == id && verify(id, votes[s].decision, votes[s].signature)
    requires forall i :: 0 <= i < |taken| ==>
               SenderHash(taken[i].signature.publicKey) in votes &&
               votes[SenderHash(taken[i].signature.publicKey)] == taken[i] && taken[i].decision == d
    requires forall i, j :: 0 <= i < j < |taken| ==> taken[i].signature.publicKey != taken[j].signature.publicKey
    requires VoteSigners(taken) == DecidedBy(votes, d) && IsQuorum(c, DecidedBy(votes, d))
    ensures QuorumVotes(taken, id, d, c, verify)
  {
    hide IsQuorum;
  }

  lemma RetainingKeepsOrder(store: VoteStore, epoch: nat, height: nat, verify: Verifier)
    requires FiledProperly(store, verify)
    ensures FiledProperly(Retained(store, epoch, height), verify)
  {
  }

  lemma RemovingKeepsOrder(store: VoteStore, view: (nat, nat), verify: Verifier)
    requires FiledProperly(store, verify)
    ensures FiledProperly(store - {view}, verify)
  {
  }

  class VoteCollector {
    var store: VoteStore

    constructor ()
      ensures store == map[]
    {
      store := map[];
    }

    /** Adds up the power behind each decision, vote by vote in hash order. */
    method AddUp(votes: SenderVotes, c: Committee) returns (accept: nat, reject: nat)
      requires VotesAreOwn(votes)
      ensures accept == PowerFor(votes, c, Accept) && reject == PowerFor(votes, c, Reject)
    {
      accept, reject := 0, 0;
      var left := votes.Keys;
      PowerForNone(c);
      ghost var done: SenderVotes := map[];
      while left != {}
        invariant left <= votes.Keys && done == votes - left
        invariant accept == PowerFor(done, c, Accept) && reject == PowerFor(done, c, Reject)
        decreases |left|
      {
        var s :| s in left;
        var v := votes[s];
        var power := PowerOrZero(c, v.signature.publicKey);
        TallyStep(c, done, s, v, Accept);
        TallyStep(c, done, s, v, Reject);
        match v.decision {
          case Accept => accept := accept + power;
          case Reject => reject := reject + power;
        }
        done := done[s := v];
        left := left - {s};
      }
      assert votes - left == votes;
    }

    method CalculateThresholdDecision(votes: SenderVotes, c: Committee) returns (t: Tally)
      requires VotesAreOwn(votes)
      ensures t.decision == Outcome(votes, c)
      ensures t.decision.Some? ==> t.power == PowerFor(votes, c, t.decision.value)
    {
      var accept, reject := AddUp(votes, c);
      if accept >= QuorumThreshold(c) {
        return Tally(Some(Accept), accept);
      }
      if reject >= QuorumThreshold(c) {
        return Tally(Some(Reject), reject);
      }
      return Tally(None, accept + reject);
    }

    /** The votes that carry the decision, in hash order. */
    method TakeVotes(votes: SenderVotes, d: Decision) returns (taken: seq<Vote>)
      requires VotesAreOwn(votes)
      ensures forall i :: 0 <= i < |taken| ==>
                SenderHash(taken[i].signature.publicKey) in votes &&
                votes[SenderHash(taken[i].signature.publicKey)] == taken[i] && taken[i].decision == d
      ensures forall i, j :: 0 <= i < j < |taken| ==> taken[i].signature.publicKey != taken[j].signature.publicKey
      ensures VoteSigners(taken) == DecidedBy(votes, d)
    {
      taken := [];
      var left := votes.Keys;
      while left != {}
        invariant left <= votes.Keys
        invariant forall i :: 0 <= i < |taken| ==>
                    var s := SenderHash(taken[i].signature.publicKey);
                    s in votes && s !in left && votes[s] == taken[i] && taken[i].decision == d
        invariant forall i, j :: 0 <= i < j < |taken| ==> taken[i].signature.publicKey != taken[j].signature.publicKey
        invariant forall s :: s in votes && s !in left && votes[s].decision == d ==> votes[s] in taken
        decreases |left|
      {
        var s :| s in left;
        if votes[s].decision == d {
          taken := taken + [votes[s]];
        }
        left := left - {s};
      }
      forall k | k in DecidedBy(votes, d) ensures k in VoteSigners(taken) {
        assert votes[SenderHash(k)] in taken;
      }
    }

    /** Files a vote and, once a decision reaches quorum, takes the votes that carry it. */
    method CollectVote(epoch: nat, height: nat, sender: SenderHash, v: Vote, c: Committee, ghost verify: Verifier)
      returns (r: Option<(seq<Vote>, Decision)>)
      requires FiledProperly(store, verify)
      requires sender == SenderHash(v.signature.publicKey) && verify(v.blockId, v.decision, v.signature)
      modifies this
      ensures FiledProperly(store, verify)
      ensures var (after, outcome) := Collected(old(store), Call(epoch, height, v), c);
              && store == after && outcome == (if r.None? then None else Some(r.value.1))
      ensures r.Some? ==>
                var filed := Filed(Retained(old(store), epoch, height), sender, v);
                && QuorumVotes(r.value.0, v.blockId, r.value.1, c, verify)
                && VoteSigners(r.value.0) == DecidedBy(VotesFor(filed, (v.epoch, v.height), v.blockId), r.value.1)
    {
      hide FiledProperly, QuorumVotes, VotesAreOwn, DecidedBy;
      RetainingKeepsOrder(store, epoch, height, verify);
      store := map view | view in store && !ViewBefore(view, (epoch, if height == 0 then 0 else height - 1)) :: store[view];
      ghost var before := store;
      assert before == Retained(old(store), epoch, height);
      var view := (v.epoch, v.height);
      var keyed := if view in store then store[view] else map[];
      var votes := if v.blockId in keyed then keyed[v.blockId] else map[];
      if sender in votes {
        return None;
      }
      votes := votes[sender := v];
      store := store[view := keyed[v.blockId := votes]];
      ghost var after := store;
      assert after == Filed(before, sender, v) && votes == VotesFor(after, view, v.blockId);
      FilingKeepsOrder(before, sender, v, verify);
      FiledVotesAreOwn(after, view, v.blockId, verify);
      var tally := CalculateThresholdDecision(votes, c);
      if tally.decision.None? {
        return None;
      }
      assert tally.power >= QuorumThreshold(c);
      RemovingKeepsOrder(store, view, verify);
      store := store - {view};
      var taken := TakeVotes(votes, tally.decision.value);
      TakenIsQuorum(votes, taken, v.blockId, tally.decision.value, c, verify);
      return Some((taken, tally.decision.value));
    }
  }
}
