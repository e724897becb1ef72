/** Concrete trees and runs: the rules of the consensus modules can be followed, and what happens where the code leaves a
    condition open. */
module Scenarios {
  import opened Wrappers
  import opened Committees
  import opened HotStuff
  import opened Replicas
  import opened Voting
  import opened Proposals
  import Certificates

  // ---- Trees from tables ----

  /** A block by the numbers of its parent and of the block it justifies, and its height. */
  datatype Row = Row(parent: nat, justify: nat, height: nat)

  function Id(i: nat): (id: BlockId)
    ensures |id| == i
  {
    seq(i, k => 'x')
  }

  /** Block 0 is genesis; a number without row stands for a block that is not stored. */
  ghost predicate Ordered(rows: seq<Row>) {
    && rows != [] && rows[0] == Row(0, 0, 0)
    && (forall i :: 0 < i < |rows| ==> RowOrdered(rows, i))
  }

  ghost predicate RowOrdered(rows: seq<Row>, i: nat)
    requires i < |rows|
  {
    && (rows[i].parent < i || |rows| <= rows[i].parent)
    && rows[i].justify < |rows| && rows[rows[i].justify].height < rows[i].height
  }

  function Tree(rows: seq<Row>): Chain {
    var ids := set i | 0 <= i < |rows| :: Id(i);
    Chain(map x | x in ids :: Block(Id(rows[|x|].parent), Id(rows[|x|].justify), rows[|x|].height), Id(0),
          map x | x in ids :: |x|)
  }

  lemma TreeBlock(rows: seq<Row>, i: nat)
    requires i < |rows|
    ensures var t := Tree(rows);
            && Id(i) in t.blocks && Id(i) in t.age && t.age[Id(i)] == i && t.genesis == Id(0)
            && t.blocks[Id(i)] == Block(Id(rows[i].parent), Id(rows[i].justify), rows[i].height)
  {
    hide Id;
  }

  lemma TreeMember(rows: seq<Row>, x: BlockId)
    requires x in Tree(rows).blocks
    ensures |x| < |rows| && x == Id(|x|)
  {
    hide Id;
    var i :| 0 <= i < |rows| && x == Id(i);
  }

  lemma TreeKeys(rows: seq<Row>)
    ensures Tree(rows).blocks.Keys <= Tree(rows).age.Keys
  {
  }

  lemma TreeIsWellFormed(rows: seq<Row>)
    requires Ordered(rows)
    ensures Tree(rows).WellFormed() && Tree(rows).genesis == Id(0)
  {
    hide Id, Tree;
    var t := Tree(rows);
    TreeKeys(rows);
    TreeBlock(rows, 0);
    forall x | x in t.blocks && x != t.genesis
      ensures && t.blocks[x].justify in t.blocks && t.blocks[t.blocks[x].justify].height < t.blocks[x].height
              && (t.blocks[x].parent in t.blocks ==> t.age[t.blocks[x].parent] < t.age[x])
    {
      TreeMember(rows, x);
      var i := |x|;
      assert RowOrdered(rows, i);
      TreeBlock(rows, i);
      TreeBlock(rows, rows[i].justify);
      if t.blocks[x].parent in t.blocks {
        TreeMember(rows, t.blocks[x].parent);
        TreeBlock(rows, rows[i].parent);
      }
    }
  }

  // ---- Proposals that pass ----

  /** A proposal that skips no views passes if its certificate is newer than the lock, or no certificate has been seen. */
  lemma NewerCertificatePasses(t: Chain, name: DummyNaming, s: State, e: Event)
    requires Knows(t, s) && e.block in t.blocks && e.block != t.genesis && e.pending <= t.blocks.Keys
    requires var j := t.blocks[e.block].justify;
             && HeightsAgree(t, e.block, t.Height(j), e.timeout) && j in e.stored
             && !SkipsViews(t, s, e.block, e.timeout)
             && (s.highPc == t.genesis || t.Height(j) > t.Height(s.locked))
    ensures VerdictOn(t, name, s, e) == Valid([]) && Passes(t, name, s, e)
    ensures StandsOnJustified(t, e.block, e.timeout) ==> Validated(t, name, s, e)
  {
    hide AllDummies, UpTo, ExtendsByIndex, StandsOnJustified;
  }

  lemma StandsDirectly(t: Chain, x: BlockId)
    requires t.WellFormed() && x in t.blocks && t.blocks[x].parent == t.blocks[x].justify && t.blocks[x].parent in t.blocks
    requires t.Height(t.blocks[x].parent) < t.Height(x) && t.Anchored(t.blocks[x].parent)
    ensures StandsOnJustified(t, x, None)
  {
    hide Chain.Anchored;
    assert t.Descends(t.blocks[x].parent, t.blocks[x].justify);
  }

  /** The records after processing a block, from its certificate's height, its lock target and its commit head, and the
      blocks newly locked. */
  lemma UpdateOf(t: Chain, s: State, x: BlockId, target: BlockId, locks: seq<BlockId>, head: BlockId, segment: seq<BlockId>)
    requires Knows(t, s) && x in t.blocks && LockTarget(t, x) == target && CommitHead(t, x) == head && target in t.blocks
    requires if t.Height(target) <= t.Height(s.locked) then locks == []
             else PathStored(t, target, t.Height(s.locked)) && PathAbove(t, target, t.Height(s.locked)) == locks
    requires if head == t.genesis then segment == []
             else PathStored(t, head, t.Height(s.lastExecuted)) && PathAbove(t, head, t.Height(s.lastExecuted)) == segment
    ensures Completes(t, s, x) && NewlyLocked(t, s, x) == locks
    ensures var justify := t.blocks[x].justify;
            Updated(t, s, x) ==
            State(if t.Height(target) > t.Height(s.locked) then target else s.locked,
                  if head == t.genesis then s.lastExecuted else head,
                  s.lastVoted, s.lastSent,
                  if t.Height(s.highPc) >= t.Height(justify) then s.highPc else justify,
                  if t.Height(s.highestSeen) < t.Height(x) then x else s.highestSeen,
                  s.executed + segment)
  {
    hide LockTarget, CommitHead, PathStored, PathAbove, Chain.WellFormed;
    assert s.executed + [] == s.executed;
  }

  /** What one event does when the justified block and the parent are still stored after the blocks newly locked are. */
  lemma StepOf(t: Chain, s: State, e: Event, locks: seq<BlockId>)
    requires Knows(t, s) && e.block in t.blocks && Completes(t, s, e.block) && NewlyLocked(t, s, e.block) == locks
    requires e.evaluation.Agreed? && t.Height(e.block) > s.lastVoted
    requires t.blocks[e.block].justify in Cleared(t, e.stored, locks) && t.blocks[e.block].parent in Cleared(t, e.stored, locks)
    ensures Votes(t, s, e)
    ensures var sent := Updated(t, s, e.block).(lastSent := t.Height(e.block));
            Step(t, s, e) == if e.skipLeader then sent else sent.(lastVoted := t.Height(e.block))
  {
    hide Completes, Updated, NewlyLocked, Cleared;
  }

  lemma ClearedByOne(t: Chain, stored: set<BlockId>, w: BlockId)
    requires t.WellFormed() && w in t.blocks
    ensures Cleared(t, stored, []) == stored
    ensures forall y :: y in Cleared(t, stored, [w]) <==> y in stored && !Orphaned(t, stored, w, y)
  {
    hide Orphaned;
    assert [w][..0] == [];
  }

  // ---- Blocks in a row ----

  function Before(i: nat, k: nat): nat {
    if i <= k then 0 else i - k
  }

  /** `n` blocks in a row, each justifying its parent. */
  function LineRows(n: nat): seq<Row> {
    seq(n + 1, i requires 0 <= i => Row(Before(i, 1), Before(i, 1), i))
  }

  /** The tree holds `n` blocks in a row. */
  ghost predicate HasLine(t: Chain, n: nat) {
    t.WellFormed() && t.genesis == Id(0) && forall i :: 0 <= i <= n ==> OnLine(t, i)
  }

  ghost predicate OnLine(t: Chain, i: nat) {
    Id(i) in t.blocks && t.blocks[Id(i)] == Block(Id(Before(i, 1)), Id(Before(i, 1)), i)
  }

  lemma TreeHasLine(rows: seq<Row>, n: nat)
    requires Ordered(rows) && LineRows(n) <= rows
    ensures HasLine(Tree(rows), n)
  {
    hide Tree, Id;
    TreeIsWellFormed(rows);
    forall i | 0 <= i <= n ensures OnLine(Tree(rows), i) {
      TreeBlock(rows, i);
      assert LineRows(n)[i] == rows[i];
    }
  }

  lemma LineBlock(t: Chain, n: nat, i: nat)
    requires HasLine(t, n) && i <= n
    ensures Id(i) in t.blocks && t.blocks[Id(i)] == Block(Id(Before(i, 1)), Id(Before(i, 1)), i)
    ensures t.WellFormed() && t.genesis == Id(0)
  {
    assert OnLine(t, i);
  }

  lemma {:induction false} LineIsAnchored(t: Chain, n: nat, i: nat)
    requires HasLine(t, n) && i <= n
    ensures t.WellFormed() && t.Anchored(Id(i))
  {
    hide Id, HasLine;
    LineBlock(t, n, i);
    if i > 0 {
      LineBlock(t, n, i - 1);
      LineIsAnchored(t, n, i - 1);
    }
  }

  /** A proposal that arrives when all blocks are stored. */
  ghost function Arrival(t: Chain, i: nat, timeout: Option<nat>, pending: set<BlockId>, skipLeader: bool): Event {
    Event(Id(i), timeout, t.blocks.Keys, pending, Agreed, skipLeader)
  }

  ghost function LineEvent(t: Chain, i: nat): Event {
    Arrival(t, i + 1, None, {}, false)
  }

  ghost function LineEvents(t: Chain, i: nat): seq<Event> {
    seq(i, k requires 0 <= k => LineEvent(t, k))
  }

  function LineIds(k: nat): seq<BlockId> {
    seq(k, j requires 0 <= j => Id(j + 1))
  }

  function LineState(i: nat): State {
    State(Id(Before(i, 2)), Id(Before(i, 3)), i, i, Id(Before(i, 1)), Id(i), LineIds(Before(i, 3)))
  }

  lemma LineHead(t: Chain, n: nat, i: nat)
    requires HasLine(t, n) && i < n
    ensures t.WellFormed() && Id(i + 1) in t.blocks
    ensures LockTarget(t, Id(i + 1)) == Id(Before(i, 1)) && CommitHead(t, Id(i + 1)) == Id(Before(i, 2))
  {
    hide Id, HasLine;
    LineBlock(t, n, i + 1);
    LineBlock(t, n, i);
    LineBlock(t, n, Before(i, 1));
    LineBlock(t, n, Before(i, 2));
  }

  lemma LinePath(t: Chain, n: nat, i: nat, floor: nat)
    requires HasLine(t, n) && i <= n && i <= floor + 1
    ensures t.WellFormed() && Id(i) in t.blocks && PathStored(t, Id(i), floor)
    ensures PathAbove(t, Id(i), floor) == if i <= floor then [] else [Id(i)]
  {
    hide Id, HasLine;
    LineBlock(t, n, i);
    LineBlock(t, n, Before(i, 1));
  }

  lemma {:induction false} LineIsNotOrphaned(t: Chain, n: nat, stored: set<BlockId>, i: nat, k: nat)
    requires HasLine(t, n) && i <= n && k <= n
    ensures t.WellFormed() && Id(k) in t.blocks && !Orphaned(t, stored, Id(k), Id(i))
  {
    hide Id, HasLine;
    LineBlock(t, n, i);
    LineBlock(t, n, k);
    if i > 0 {
      LineIsNotOrphaned(t, n, stored, i - 1, k);
    }
  }

  lemma LineKnown(t: Chain, n: nat, i: nat)
    requires HasLine(t, n) && i <= n
    ensures Knows(t, LineState(i))
  {
    hide Id, HasLine;
    LineBlock(t, n, i);
    LineBlock(t, n, Before(i, 1));
    LineBlock(t, n, Before(i, 2));
    LineBlock(t, n, Before(i, 3));
  }

  function LineLocks(i: nat): seq<BlockId> {
    if i > 1 then [Id(i - 1)] else []
  }

  lemma LineUpdate(t: Chain, n: nat, i: nat)
    requires HasLine(t, n) && i < n
    ensures Knows(t, LineState(i)) && Id(i + 1) in t.blocks && Id(i + 1) != t.genesis && t.Height(Id(i + 1)) == i + 1
    ensures Completes(t, LineState(i), Id(i + 1)) && NewlyLocked(t, LineState(i), Id(i + 1)) == LineLocks(i)
    ensures Updated(t, LineState(i), Id(i + 1)) == LineState(i + 1).(lastVoted := i, lastSent := i)
  {
    hide Id, HasLine, Chain.WellFormed, LockTarget, CommitHead, PathStored, PathAbove, Completes, Updated, LineIds, NewlyLocked;
    LineKnown(t, n, i);
    LineHead(t, n, i);
    LineBlock(t, n, i + 1);
    LineBlock(t, n, i);
    LineBlock(t, n, Before(i, 1));
    LineBlock(t, n, Before(i, 2));
    LineBlock(t, n, Before(i, 3));
    LinePath(t, n, Before(i, 1), Before(i, 2));
    LinePath(t, n, Before(i, 2), Before(i, 3));
    LineIdsGrow(i);
    var segment := if i > 2 then [Id(Before(i, 2))] else [];
    UpdateOf(t, LineState(i), Id(i + 1), Id(Before(i, 1)), LineLocks(i), Id(Before(i, 2)), segment);
  }

  lemma LineIdsGrow(i: nat)
    ensures LineIds(Before(i + 1, 3)) == LineIds(Before(i, 3)) + if i > 2 then [Id(Before(i, 2))] else []
  {
    hide Id;
  }

  lemma LineStep(t: Chain, n: nat, i: nat)
    requires HasLine(t, n) && i < n
    ensures Knows(t, LineState(i)) && Id(i + 1) in t.blocks && Id(i + 1) != t.genesis
    ensures Votes(t, LineState(i), LineEvent(t, i))
    ensures Step(t, LineState(i), LineEvent(t, i)) == LineState(i + 1)
  {
    hide Id, HasLine, Chain.WellFormed, Completes, Updated, NewlyLocked, Cleared, Orphaned, Votes, Step;
    LineUpdate(t, n, i);
    LineBlock(t, n, i);
    LineBlock(t, n, i + 1);
    LineIsNotOrphaned(t, n, t.blocks.Keys, i, Before(i, 1));
    ClearedByOne(t, t.blocks.Keys, Id(Before(i, 1)));
    StepOf(t, LineState(i), LineEvent(t, i), LineLocks(i));
  }

  lemma LineStands(t: Chain, n: nat, i: nat)
    requires HasLine(t, n) && i < n
    ensures t.WellFormed() && Id(i + 1) in t.blocks && StandsOnJustified(t, Id(i + 1), None)
  {
    hide Id, HasLine, Chain.WellFormed, Chain.Anchored, StandsOnJustified;
    LineIsAnchored(t, n, i);
    LineBlock(t, n, i + 1);
    LineBlock(t, n, i);
    StandsDirectly(t, Id(i + 1));
  }

  lemma LineValidates(t: Chain, n: nat, i: nat, name: DummyNaming)
    requires HasLine(t, n) && i < n
    ensures Knows(t, LineState(i)) && Id(i + 1) in t.blocks && Id(i + 1) != t.genesis
    ensures Validated(t, name, LineState(i), LineEvent(t, i))
  {
    hide Id, HasLine, Chain.WellFormed, Step, Votes, Validated, StandsOnJustified;
    LineStep(t, n, i);
    LineStands(t, n, i);
    LineBlock(t, n, i + 1);
    LineBlock(t, n, i);
    LineBlock(t, n, Before(i, 1));
    LineBlock(t, n, Before(i, 2));
    NewerCertificatePasses(t, name, LineState(i), LineEvent(t, i));
  }

  lemma LineProcessable(t: Chain, n: nat, i: nat)
    requires HasLine(t, n) && i <= n
    ensures Processable(t, LineEvents(t, i))
  {
    hide Id, HasLine;
    LineBlock(t, n, 0);
    var es := LineEvents(t, i);
    forall k | 0 <= k < i ensures es[k].block in t.blocks && es[k].block != t.genesis && es[k].stored <= t.blocks.Keys {
      LineBlock(t, n, k + 1);
    }
  }

  function LineBallots(i: nat): seq<Ballot> {
    seq(i, k requires 0 <= k => Ballot(Id(k + 1), Id(Before(k, 2))))
  }

  lemma LineStart(t: Chain, name: DummyNaming)
    requires HasLine(t, 0)
    ensures t.WellFormed() && Run(t, []) == LineState(0)
    ensures VotesAreValidated(t, name, []) && Cast(t, []) == LineBallots(0)
  {
  }

  lemma LineBallot(t: Chain, i: nat)
    ensures LineBallots(i + 1) == LineBallots(i) + [Ballot(LineEvent(t, i).block, LineState(i).locked)]
  {
  }

  /** The blocks of the line arrive in order: the validator's records, and that it votes for each by the rules. */
  lemma {:induction false} LineRuns(t: Chain, n: nat, i: nat, name: DummyNaming)
    requires HasLine(t, n) && i <= n
    ensures Processable(t, LineEvents(t, i))
    ensures Run(t, LineEvents(t, i)) == LineState(i)
    ensures VotesAreValidated(t, name, LineEvents(t, i)) && VotesAboveLastSent(t, LineEvents(t, i))
    ensures Cast(t, LineEvents(t, i)) == LineBallots(i)
  {
    hide Id, Step, Votes, Validated, Run, Cast, VotesAreValidated, VotesAboveLastSent, LineState, LineEvent;
    LineProcessable(t, n, i);
    LineIsRecorded(t, i);
    RecordedVotesRise(t, LineEvents(t, i));
    if i == 0 {
      LineStart(t, name);
      assert LineEvents(t, 0) == [];
    } else {
      var es := LineEvents(t, i);
      assert es[..|es| - 1] == LineEvents(t, i - 1) && es[|es| - 1] == LineEvent(t, i - 1);
      LineRuns(t, n, i - 1, name);
      LineStep(t, n, i - 1);
      LineValidates(t, n, i - 1, name);
      LastEvent(t, es);
      LastValidated(t, name, es);
      LineBallot(t, i - 1);
    }
  }

  lemma LineIsRecorded(t: Chain, i: nat)
    ensures forall k :: 0 <= k < |LineEvents(t, i)| ==> !LineEvents(t, i)[k].skipLeader
  {
  }

  // ---- The rules can be followed ----

  function SoleCommittee(): Committee {
    [Member("a", "k", 1)]
  }

  lemma SolePower()
    ensures TotalPower(SoleCommittee()) == 1 && Weight(SoleCommittee(), {}) == 0
  {
    assert SoleCommittee()[1..] == [];
    WeightEmpty(SoleCommittee());
  }

  /** A naming for trees that need no dummy blocks. */
  function NoDummies(n: nat): DummyNaming {
    (p, h, j) => Id(n)
  }

  lemma NoDummiesIsNaming(rows: seq<Row>)
    ensures NamesDummies(Tree(rows), NoDummies(|rows|))
  {
    if Id(|rows|) in Tree(rows).blocks {
      TreeMember(rows, Id(|rows|));
    }
  }

  lemma LineIsOrdered(n: nat)
    ensures Ordered(LineRows(n))
  {
    assert forall i :: 0 < i < |LineRows(n)| ==> RowOrdered(LineRows(n), i);
  }

  /** Accepts the signatures of the sole member on the blocks it voted for. */
  function LineVerifier(n: nat): Certificates.Verifier {
    (id: BlockId, d: Certificates.Decision, sig: Certificates.Signature) =>
      sig.publicKey == "k" && 0 < |id| <= n && id == Id(|id|)
  }

  function LineCertificate(justify: nat): Certificates.Certificate {
    Certificates.Certificate(justify == 0, Id(justify), [Certificates.Signature("k", "")], Certificates.Accept)
  }

  function LineCertificates(t: Chain): map<BlockId, Certificates.Certificate> {
    map x | x in t.blocks :: LineCertificate(|t.blocks[x].justify|)
  }

  lemma LineCertificateIsSound(n: nat, justify: nat)
    requires 0 < justify <= n
    ensures Certificates.Sound(LineCertificate(justify), SoleCommittee(), LineVerifier(n))
  {
    hide Id;
    var c, qc := SoleCommittee(), LineCertificate(justify);
    assert c[1..] == [];
    assert qc.signatures[0].publicKey == "k";
    assert Certificates.Signers(qc.signatures) == {"k"};
    assert Certificates.Signers(qc.signatures[..0]) == {};
    assert Weight(c, {"k"}) == 1 + Weight(c[1..], {"k"} - {"k"});
  }

  lemma LineIsSignedByVoting(n: nat)
    ensures SignedByVoting(map["k" := LineBallots(n)], LineVerifier(n))
  {
    hide Id;
    var h: History := map["k" := LineBallots(n)];
    forall k, id, d | Certificates.HasSigned(LineVerifier(n), k, id, d) ensures k in Voters(h, id) {
      assert h["k"][|id| - 1].block == id;
    }
  }

  lemma LineCertificatesPass(t: Chain, n: nat)
    requires HasLine(t, n) && forall x :: x in t.blocks ==> |x| <= n && x == Id(|x|)
    ensures CertificatesPass(t, SoleCommittee(), LineCertificates(t), LineVerifier(n))
  {
    hide Id, HasLine, Certificates.Sound, LineVerifier;
    LineBlock(t, n, 0);
    forall x | x in t.blocks && x != t.genesis
      ensures var qc := LineCertificates(t)[x];
              if qc.justifiesZero then t.blocks[x].justify == t.genesis
              else t.blocks[x].justify == qc.blockId && Certificates.Sound(qc, SoleCommittee(), LineVerifier(n))
    {
      LineBlock(t, n, |x|);
      var justify := Before(|x|, 1);
      assert |t.blocks[x].justify| == justify;
      if justify > 0 {
        LineCertificateIsSound(n, justify);
      }
    }
  }

  /** The conditions of agreement are consistent, and following them makes progress: for every n there is a tree of n blocks
      in a row, and a committee of one that receives them votes for all of them by the rules and executes all but the last
      three. */
  lemma LineSystemCommits(n: nat)
    returns (t: Chain, name: DummyNaming, certificates: map<BlockId, Certificates.Certificate>, verify: Certificates.Verifier,
             es: seq<Event>)
    ensures Processable(t, es) && |Cast(t, es)| == n && Run(t, es).executed == LineIds(Before(n, 3))
    ensures ValidatedSystem(t, SoleCommittee(), map["k" := Cast(t, es)], {}, name, certificates, verify, map["k" := es])
  {
    hide Tree, Id, Run, Cast, VotesAreValidated, VotesAboveLastSent, NamesDummies, LineEvents, HasLine, CertificatesPass;
    hide SignedByVoting;
    t, name := Tree(LineRows(n)), NoDummies(n + 1);
    certificates, verify, es := LineCertificates(t), LineVerifier(n), LineEvents(t, n);
    LineIsOrdered(n);
    TreeHasLine(LineRows(n), n);
    LineBlock(t, n, 0);
    LineRuns(t, n, n, name);
    NoDummiesIsNaming(LineRows(n));
    SolePower();
    forall x | x in t.blocks ensures |x| <= n && x == Id(|x|) {
      TreeMember(LineRows(n), x);
    }
    LineCertificatesPass(t, n);
    LineIsSignedByVoting(n);
    assert FollowsRun(t, name, Cast(t, es), es);
  }
}
