/** Inputs on which the code does not meet a property by itself: for each condition that the consensus results name, a
    tree and a run, accepted by validation, that fails it. */
module OpenConditions {
  import opened Wrappers
  import opened Committees
  import opened HotStuff
  import opened Replicas
  import opened Voting
  import opened CommittedLogs
  import opened Proposals
  import opened Scenarios

  lemma RunExtends(t: Chain, name: DummyNaming, es: seq<Event>, e: Event)
    requires Processable(t, es) && e.block in t.blocks && e.block != t.genesis && e.stored <= t.blocks.Keys
    ensures Processable(t, es + [e]) && Run(t, es + [e]) == Step(t, Run(t, es), e)
    ensures Cast(t, es + [e]) == Cast(t, es) + if Votes(t, Run(t, es), e) then [Ballot(e.block, Run(t, es).locked)] else []
    ensures VotesAboveLastSent(t, es + [e]) <==>
            VotesAboveLastSent(t, es) && (Votes(t, Run(t, es), e) ==> t.Height(e.block) > Run(t, es).lastSent)
    ensures VotesAreValidated(t, name, es + [e]) <==>
            VotesAreValidated(t, name, es) && (Votes(t, Run(t, es), e) ==> Validated(t, name, Run(t, es), e))
  {
    hide Votes, Step, Run, Cast, VotesAboveLastSent, VotesAreValidated, Validated;
    var all := es + [e];
    assert all[..|all| - 1] == es && all[|all| - 1] == e;
    LastEvent(t, all);
    LastValidated(t, name, all);
  }

  // ---- Votes past an evicted leader ----

  /** Blocks 1 and 2 both have height 1 and stand on genesis. */
  ghost predicate Twins(t: Chain) {
    && HasLine(t, 0)
    && Id(1) in t.blocks && t.blocks[Id(1)] == Block(Id(0), Id(0), 1)
    && Id(2) in t.blocks && t.blocks[Id(2)] == Block(Id(0), Id(0), 1)
  }

  function TwinRows(): seq<Row> {
    [Row(0, 0, 0), Row(0, 0, 1), Row(0, 0, 1)]
  }

  lemma TwinsExist()
    ensures Twins(Tree(TwinRows()))
  {
    hide Tree, Id;
    var rows := TwinRows();
    assert RowOrdered(rows, 1) && RowOrdered(rows, 2) && LineRows(0) <= rows;
    TreeHasLine(rows, 0);
    TreeBlock(rows, 1);
    TreeBlock(rows, 2);
  }

  ghost function Twin(t: Chain, i: nat): Event {
    Arrival(t, i, None, {}, true)
  }

  function FirstTwinState(): State {
    State(Id(0), Id(0), 0, 1, Id(0), Id(1), [])
  }

  lemma TwinPasses(t: Chain, name: DummyNaming, i: nat, s: State)
    requires Twins(t) && ((i == 1 && s == LineState(0)) || (i == 2 && s == FirstTwinState()))
    ensures Knows(t, s) && Id(i) in t.blocks && Id(i) != t.genesis && Votes(t, s, Twin(t, i))
    ensures i == 1 ==> Step(t, s, Twin(t, i)) == FirstTwinState()
    ensures Validated(t, name, s, Twin(t, i))
  {
    hide Id, HasLine, PathStored, PathAbove, StandsOnJustified, Validated, NewlyLocked, Cleared, Votes, Step;
    LineBlock(t, 0, 0);
    LineIsAnchored(t, 0, 0);
    UpdateOf(t, s, Id(i), Id(0), [], Id(0), []);
    ClearedByOne(t, t.blocks.Keys, Id(0));
    StepOf(t, s, Twin(t, i), []);
    StandsDirectly(t, Id(i));
    NewerCertificatePasses(t, name, s, Twin(t, i));
  }

  /** Both twins are validated and voted for when the next leader is evicted each time: the votes are validated but two of
      them have one height, so they break the voting rules. The second one is not above the last vote sent. */
  lemma UnrecordedVotesBreakTheRules(c: Committee, h: History) returns (t: Chain, name: DummyNaming, es: seq<Event>)
    ensures Processable(t, es) && NamesDummies(t, name) && VotesAreValidated(t, name, es)
    ensures !VotesAboveLastSent(t, es) && !Disciplined(t, c, h, Cast(t, es))
    ensures |Cast(t, es)| == 2
  {
    hide Tree, Id, Run, Cast, Votes, Step, Validated, VotesAreValidated, VotesAboveLastSent, LineState, LineBallots;
    hide NamesDummies, HasLine;
    t, name := Tree(TwinRows()), NoDummies(3);
    es := [Twin(t, 1), Twin(t, 2)];
    TwinsExist();
    NoDummiesIsNaming(TwinRows());
    LineBlock(t, 0, 0);
    LineStart(t, name);
    NoBallotsYet();
    TwinPasses(t, name, 1, LineState(0));
    TwinPasses(t, name, 2, FirstTwinState());
    RunExtends(t, name, [], Twin(t, 1));
    RunExtends(t, name, [Twin(t, 1)], Twin(t, 2));
    assert [] + [Twin(t, 1)] == [Twin(t, 1)] && [Twin(t, 1)] + [Twin(t, 2)] == es;
    var ballots := Cast(t, es);
    assert ballots[0].block == Id(1) && ballots[1].block == Id(2);
  }

  lemma NoBallotsYet()
    ensures LineBallots(0) == [] && LineState(0).locked == Id(0)
  {
  }

  // ---- Proposals off the justified branch ----

  /** Two blocks in a row, then: a twin of the second (3); a block on it that justifies block 2 (4); a block on a
      missing parent (5); a block on block 1, which it justifies, raised by a timeout certificate (6); and a block on
      block 2 that justifies block 1, as a leader proposes it after a timeout in which block 2 got no certificate (7). */
  ghost predicate Forks(t: Chain) {
    && HasLine(t, 2)
    && Id(3) in t.blocks && t.blocks[Id(3)] == Block(Id(1), Id(1), 2)
    && Id(4) in t.blocks && t.blocks[Id(4)] == Block(Id(3), Id(2), 3)
    && Id(5) in t.blocks && t.blocks[Id(5)] == Block(Id(9), Id(2), 3) && Id(9) !in t.blocks
    && Id(6) in t.blocks && t.blocks[Id(6)] == Block(Id(1), Id(1), 3)
    && Id(7) in t.blocks && t.blocks[Id(7)] == Block(Id(2), Id(1), 3)
  }

  function ForkRows(): seq<Row> {
    [Row(0, 0, 0), Row(0, 0, 1), Row(1, 1, 2), Row(1, 1, 2), Row(3, 2, 3), Row(9, 2, 3), Row(1, 1, 3), Row(2, 1, 3)]
  }

  lemma ForksExist()
    ensures Forks(Tree(ForkRows()))
  {
    hide Tree, Id;
    var rows := ForkRows();
    assert RowOrdered(rows, 1) && RowOrdered(rows, 2) && RowOrdered(rows, 3) && RowOrdered(rows, 4);
    assert RowOrdered(rows, 5) && RowOrdered(rows, 6) && RowOrdered(rows, 7);
    assert LineRows(2) == rows[..3];
    TreeHasLine(rows, 2);
    TreeBlock(rows, 3);
    TreeBlock(rows, 4);
    TreeBlock(rows, 5);
    TreeBlock(rows, 6);
    TreeBlock(rows, 7);
    if Id(9) in Tree(rows).blocks {
      TreeMember(rows, Id(9));
    }
  }

  ghost function ForkEvent(t: Chain, i: nat): Event {
    Arrival(t, i, if i <= 5 then None else Some(2), {}, false)
  }

  lemma TwoInARow()
    ensures LineState(2) == State(Id(0), Id(0), 2, 2, Id(1), Id(2), [])
  {
    hide Id;
  }

  lemma ForkIsKept(t: Chain, i: nat)
    requires Forks(t) && i in {0, 1, 2, 3}
    ensures t.WellFormed() && Id(1) in t.blocks && Id(i) in t.blocks && !Orphaned(t, t.blocks.Keys, Id(1), Id(i))
  {
    hide Id, HasLine;
    LineBlock(t, 2, 1);
    LineIsNotOrphaned(t, 2, t.blocks.Keys, if i == 3 then 1 else i, 1);
  }

  /** Locking block 1 removes neither block 2 nor its twin. */
  lemma ForkIsDecided(t: Chain, i: nat)
    requires Forks(t) && 4 <= i <= 7
    ensures Knows(t, LineState(2)) && Id(i) in t.blocks
    ensures if i == 5 then !Votes(t, LineState(2), ForkEvent(t, i)) && Step(t, LineState(2), ForkEvent(t, i)) == LineState(2)
            else Votes(t, LineState(2), ForkEvent(t, i))
  {
    hide Id, HasLine, LineState, Votes, Step, NewlyLocked, Cleared, Orphaned, Completes, Updated, PathStored, PathAbove;
    TwoInARow();
    LineKnown(t, 2, 2);
    LineBlock(t, 2, 0);
    LineBlock(t, 2, 1);
    LineBlock(t, 2, 2);
    LinePath(t, 2, 1, 0);
    if i == 5 {
      MissingParentRollsBack(t, LineState(2), ForkEvent(t, i));
    } else {
      var locks := if i == 4 then [Id(1)] else [];
      UpdateOf(t, LineState(2), Id(i), if i == 4 then Id(1) else Id(0), locks, Id(0), []);
      ForkIsKept(t, 2);
      ForkIsKept(t, 3);
      ClearedByOne(t, t.blocks.Keys, Id(1));
      StepOf(t, LineState(2), ForkEvent(t, i), locks);
    }
  }

  lemma ForkIsAccepted(t: Chain, name: DummyNaming, i: nat)
    requires Forks(t) && 4 <= i <= 7
    ensures Knows(t, LineState(2)) && Id(i) in t.blocks && Id(i) != t.genesis
    ensures Passes(t, name, LineState(2), ForkEvent(t, i))
    ensures StandsOnJustified(t, Id(i), ForkEvent(t, i).timeout) ==> Validated(t, name, LineState(2), ForkEvent(t, i))
  {
    hide Id, HasLine, LineState, StandsOnJustified, Validated, VerdictOf;
    TwoInARow();
    LineKnown(t, 2, 2);
    LineBlock(t, 2, 0);
    LineBlock(t, 2, 1);
    LineBlock(t, 2, 2);
    NewerCertificatePasses(t, name, LineState(2), ForkEvent(t, i));
  }

  lemma ForkIsOffBranch(t: Chain, i: nat)
    requires Forks(t) && 4 <= i <= 6
    ensures t.WellFormed() && Id(i) in t.blocks && !WellShaped(t, Id(i))
  {
    hide Id, HasLine;
    LineBlock(t, 2, 0);
    LineBlock(t, 2, 1);
    LineBlock(t, 2, 2);
    assert !t.Descends(Id(0), Id(2));
    assert !t.Descends(Id(1), Id(2));
    assert !t.Descends(Id(3), Id(2));
  }

  /** After two blocks in a row the validator accepts each of three proposals without the shape agreement needs: one that
      does not descend from the block it justifies, one whose parent is missing, and one directly on the justified block but
      more than one height above it. It votes for the first and the last; processing the one without parent is rolled
      back. */
  lemma AcceptedOffBranch(i: nat) returns (t: Chain, name: DummyNaming, es: seq<Event>, e: Event)
    requires 4 <= i <= 6
    ensures Processable(t, es) && NamesDummies(t, name) && VotesAreValidated(t, name, es)
    ensures e.block in t.blocks && e.block != t.genesis && Passes(t, name, Run(t, es), e)
    ensures !WellShaped(t, e.block)
    ensures if i == 5 then !Votes(t, Run(t, es), e) && Step(t, Run(t, es), e) == Run(t, es) else Votes(t, Run(t, es), e)
    ensures t.blocks[e.block].parent !in t.blocks <==> i == 5
    ensures t.blocks[e.block].parent == t.blocks[e.block].justify <==> i == 6
  {
    hide Tree, Id, HasLine, Run, Votes, Step, VerdictOf, Passes, WellShaped, LineState, VotesAreValidated, VotesAboveLastSent, Cast;
    hide Validated, NamesDummies, StandsOnJustified;
    t, name := Tree(ForkRows()), NoDummies(8);
    es, e := LineEvents(t, 2), ForkEvent(t, i);
    ForksExist();
    NoDummiesIsNaming(ForkRows());
    LineBlock(t, 2, 1);
    LineBlock(t, 2, 2);
    LineRuns(t, 2, 2, name);
    ForkIsAccepted(t, name, i);
    ForkIsDecided(t, i);
    ForkIsOffBranch(t, i);
  }

  /** The proposal a leader makes after a timeout, on the highest block seen with an older certificate and without dummy
      blocks, is validated: the conditions of agreement cover it. */
  lemma TimeoutWithoutDummiesIsValidated() returns (t: Chain, name: DummyNaming, es: seq<Event>, e: Event)
    ensures Processable(t, es) && NamesDummies(t, name) && e.block in t.blocks && e.block != t.genesis
    ensures t.blocks[e.block].parent == Run(t, es).highestSeen && t.blocks[e.block].justify != Run(t, es).highestSeen
    ensures Votes(t, Run(t, es), e) && Validated(t, name, Run(t, es), e)
  {
    hide Tree, Id, HasLine, Run, Votes, LineState, VotesAreValidated, VotesAboveLastSent, Cast, Validated, NamesDummies;
    t, name := Tree(ForkRows()), NoDummies(8);
    es, e := LineEvents(t, 2), ForkEvent(t, 7);
    ForksExist();
    NoDummiesIsNaming(ForkRows());
    TwoInARow();
    LineBlock(t, 2, 1);
    LineBlock(t, 2, 2);
    LineIsAnchored(t, 2, 2);
    LineRuns(t, 2, 2, name);
    assert t.Descends(Id(1), Id(1));
    assert t.Descends(Id(2), Id(1));
    ForkIsAccepted(t, name, 7);
    ForkIsDecided(t, 7);
  }

  // ---- The first proposal ----

  /** Two blocks of height 1 that justify genesis: the first on a missing parent, the second on the first. */
  ghost predicate Stray(t: Chain) {
    && HasLine(t, 0) && Id(9) !in t.blocks
    && Id(1) in t.blocks && t.blocks[Id(1)] == Block(Id(9), Id(0), 1)
    && Id(2) in t.blocks && t.blocks[Id(2)] == Block(Id(1), Id(0), 1)
  }

  function StrayRows(): seq<Row> {
    [Row(0, 0, 0), Row(9, 0, 1), Row(1, 0, 1)]
  }

  lemma StrayExists()
    ensures Stray(Tree(StrayRows()))
  {
    hide Tree, Id;
    var rows := StrayRows();
    assert RowOrdered(rows, 1) && RowOrdered(rows, 2) && LineRows(0) == rows[..1];
    TreeHasLine(rows, 0);
    TreeBlock(rows, 1);
    TreeBlock(rows, 2);
    if Id(9) in Tree(rows).blocks {
      TreeMember(rows, Id(9));
    }
  }

  ghost function StrayEvent(t: Chain, i: nat): Event {
    Arrival(t, i, None, {}, false)
  }

  lemma StrayPasses(t: Chain, name: DummyNaming)
    requires Stray(t)
    ensures Knows(t, Initial(t)) && Id(1) != t.genesis && Id(2) != t.genesis
    ensures Passes(t, name, Initial(t), StrayEvent(t, 1)) && Passes(t, name, Initial(t), StrayEvent(t, 2))
    ensures !Votes(t, Initial(t), StrayEvent(t, 1)) && Step(t, Initial(t), StrayEvent(t, 1)) == Initial(t)
    ensures Votes(t, Initial(t), StrayEvent(t, 2))
    ensures !SafeNode(t, Id(2), Initial(t).locked)
  {
    hide Id, HasLine, Validated, StandsOnJustified, PathStored, PathAbove, VerdictOf, NewlyLocked, Cleared, Votes, Step;
    LineBlock(t, 0, 0);
    MissingParentRollsBack(t, Initial(t), StrayEvent(t, 1));
    UpdateOf(t, Initial(t), Id(2), Id(0), [], Id(0), []);
    ClearedByOne(t, t.blocks.Keys, Id(0));
    StepOf(t, Initial(t), StrayEvent(t, 2), []);
    NewerCertificatePasses(t, name, Initial(t), StrayEvent(t, 1));
    NewerCertificatePasses(t, name, Initial(t), StrayEvent(t, 2));
    assert !t.Descends(Id(9), Id(0));
    assert !t.Descends(Id(1), Id(0));
  }

  /** Before any certificate is seen the validator accepts and votes for a proposal that is not safe for the lock: it stands
      on an earlier proposal that was accepted and stored without its parent. */
  lemma UncheckedProposalIsUnsafe() returns (t: Chain, name: DummyNaming, d: Event, e: Event)
    ensures NamesDummies(t, name) && Processable(t, []) && Processable(t, [d])
    ensures d.block in t.blocks && d.block != t.genesis && Passes(t, name, Run(t, []), d) && VotesAreValidated(t, name, [d])
    ensures e.block in t.blocks && e.block != t.genesis && t.blocks[e.block].parent == d.block
    ensures Run(t, [d]).highPc == t.genesis && Passes(t, name, Run(t, [d]), e) && Votes(t, Run(t, [d]), e)
    ensures !SafeNode(t, e.block, Run(t, [d]).locked)
  {
    hide Tree, Id, HasLine, NamesDummies, Validated, Passes, Votes, Step, SafeNode;
    t, name := Tree(StrayRows()), NoDummies(3);
    d, e := StrayEvent(t, 1), StrayEvent(t, 2);
    StrayExists();
    NoDummiesIsNaming(StrayRows());
    StrayPasses(t, name);
    assert Run(t, []) == Initial(t);
    RunExtends(t, name, [], d);
    assert [] + [d] == [d];
  }

  // ---- A stale certificate ----

  /** Five blocks in a row; a block on the fifth that justifies only the third, after a timeout; and a block on that one
      that justifies the fifth, after another. */
  ghost predicate Stale(t: Chain) {
    && HasLine(t, 5)
    && Id(6) in t.blocks && t.blocks[Id(6)] == Block(Id(5), Id(3), 6)
    && Id(7) in t.blocks && t.blocks[Id(7)] == Block(Id(6), Id(5), 7)
  }

  function StaleRows(): seq<Row> {
    [Row(0, 0, 0), Row(0, 0, 1), Row(1, 1, 2), Row(2, 2, 3), Row(3, 3, 4), Row(4, 4, 5), Row(5, 3, 6), Row(6, 5, 7)]
  }

  lemma StaleExists()
    ensures Stale(Tree(StaleRows()))
  {
    hide Tree, Id;
    var rows := StaleRows();
    assert RowOrdered(rows, 1) && RowOrdered(rows, 2) && RowOrdered(rows, 3) && RowOrdered(rows, 4);
    assert RowOrdered(rows, 5) && RowOrdered(rows, 6) && RowOrdered(rows, 7);
    assert LineRows(5) == rows[..6];
    TreeHasLine(rows, 5);
    TreeBlock(rows, 6);
    TreeBlock(rows, 7);
  }

  ghost function StaleEvent(t: Chain): Event {
    Arrival(t, 6, Some(5), {Id(4), Id(5)}, false)
  }

  ghost function CatchUpEvent(t: Chain): Event {
    Arrival(t, 7, Some(6), {}, false)
  }

  function StaleState(): State {
    State(Id(3), Id(1), 6, 6, Id(4), Id(6), [Id(1), Id(2)])
  }

  function CatchUpState(): State {
    State(Id(4), Id(3), 7, 7, Id(5), Id(7), [Id(1), Id(2), Id(2), Id(3)])
  }

  lemma FiveInARow()
    ensures LineState(5) == State(Id(3), Id(2), 5, 5, Id(4), Id(5), [Id(1), Id(2)])
  {
    hide Id;
    assert LineIds(2) == [Id(1), Id(2)];
  }

  lemma StaleBlocks(t: Chain)
    requires Stale(t)
    ensures t.WellFormed() && t.genesis == Id(0)
    ensures Id(1) in t.blocks && t.blocks[Id(1)] == Block(Id(0), Id(0), 1)
    ensures Id(2) in t.blocks && t.blocks[Id(2)] == Block(Id(1), Id(1), 2)
    ensures Id(3) in t.blocks && t.blocks[Id(3)] == Block(Id(2), Id(2), 3)
    ensures Id(4) in t.blocks && t.blocks[Id(4)] == Block(Id(3), Id(3), 4)
    ensures Id(5) in t.blocks && t.blocks[Id(5)] == Block(Id(4), Id(4), 5)
  {
    hide Id, HasLine;
    LineBlock(t, 5, 1);
    LineBlock(t, 5, 2);
    LineBlock(t, 5, 3);
    LineBlock(t, 5, 4);
    LineBlock(t, 5, 5);
  }

  lemma StaleHeads(t: Chain)
    requires Stale(t)
    ensures t.WellFormed() && Id(6) in t.blocks && Id(7) in t.blocks
    ensures CommitHead(t, Id(6)) == Id(1) && LockTarget(t, Id(6)) == Id(2)
    ensures CommitHead(t, Id(7)) == Id(3) && LockTarget(t, Id(7)) == Id(4)
  {
    hide Id, HasLine;
    StaleBlocks(t);
  }

  lemma StalePaths(t: Chain)
    requires Stale(t)
    ensures t.WellFormed() && Id(1) in t.blocks && Id(3) in t.blocks && Id(4) in t.blocks
    ensures PathStored(t, Id(1), 2) && PathAbove(t, Id(1), 2) == []
    ensures PathStored(t, Id(3), 1) && PathAbove(t, Id(3), 1) == [Id(2), Id(3)]
    ensures PathStored(t, Id(4), 3) && PathAbove(t, Id(4), 3) == [Id(4)]
  {
    hide Id, HasLine;
    StaleBlocks(t);
    assert PathStored(t, Id(1), 1) && PathAbove(t, Id(1), 1) == [];
    assert PathStored(t, Id(2), 1) && PathAbove(t, Id(2), 1) == [Id(2)];
    assert PathStored(t, Id(3), 3) && PathAbove(t, Id(3), 3) == [];
  }

  lemma StaleIsKept(t: Chain)
    requires Stale(t)
    ensures t.WellFormed() && Id(4) in t.blocks
    ensures !Orphaned(t, t.blocks.Keys, Id(4), Id(5)) && !Orphaned(t, t.blocks.Keys, Id(4), Id(6))
  {
    hide Id, HasLine;
    StaleBlocks(t);
    LineIsNotOrphaned(t, 5, t.blocks.Keys, 5, 4);
  }

  lemma StaleSteps(t: Chain)
    requires Stale(t)
    ensures Knows(t, LineState(5)) && Knows(t, StaleState()) && Id(6) in t.blocks && Id(7) in t.blocks
    ensures Votes(t, LineState(5), StaleEvent(t)) && Step(t, LineState(5), StaleEvent(t)) == StaleState()
    ensures Votes(t, StaleState(), CatchUpEvent(t)) && Step(t, StaleState(), CatchUpEvent(t)) == CatchUpState()
  {
    hide Id, HasLine, PathStored, PathAbove, LineState, CommitHead, LockTarget, Completes, Updated;
    hide NewlyLocked, Cleared, Orphaned, Votes, Step;
    StaleBlocks(t);
    StaleHeads(t);
    StalePaths(t);
    FiveInARow();
    StaleIsKept(t);
    ClearedByOne(t, t.blocks.Keys, Id(4));
    UpdateOf(t, LineState(5), Id(6), Id(2), [], Id(1), []);
    StepOf(t, LineState(5), StaleEvent(t), []);
    UpdateOf(t, StaleState(), Id(7), Id(4), [Id(4)], Id(3), [Id(2), Id(3)]);
    StepOf(t, StaleState(), CatchUpEvent(t), [Id(4)]);
  }

  lemma StaleStands(t: Chain)
    requires Stale(t)
    ensures t.WellFormed() && Id(6) in t.blocks && Id(7) in t.blocks
    ensures StandsOnJustified(t, Id(6), Some(5)) && StandsOnJustified(t, Id(7), Some(6))
  {
    hide Id, HasLine;
    StaleBlocks(t);
    LineIsAnchored(t, 5, 5);
    assert t.Anchored(Id(6));
    assert t.Descends(Id(3), Id(3)) && t.Descends(Id(5), Id(5));
    assert t.Descends(Id(4), Id(3)) && t.Descends(Id(6), Id(5));
    assert t.Descends(Id(5), Id(3));
  }

  lemma StaleIsSafe(t: Chain)
    requires Stale(t)
    ensures t.WellFormed() && Id(6) in t.blocks && Id(3) in t.blocks && {Id(4), Id(5)} <= t.blocks.Keys
    ensures SafeByIndex(t, t.blocks.Keys, {Id(4), Id(5)}, Id(3), Id(6))
  {
    hide Id, HasLine;
    StaleBlocks(t);
    assert PendingReaches(t, {Id(4), Id(5)}, Id(4), Id(3));
    assert PendingReaches(t, {Id(4), Id(5)}, Id(5), Id(3));
  }

  lemma StaleIsValidated(t: Chain, name: DummyNaming)
    requires Stale(t)
    ensures Knows(t, LineState(5)) && Knows(t, StaleState())
    ensures Id(6) in t.blocks && Id(6) != t.genesis && Id(7) in t.blocks && Id(7) != t.genesis
    ensures Validated(t, name, LineState(5), StaleEvent(t)) && Validated(t, name, StaleState(), CatchUpEvent(t))
  {
    hide Id, HasLine, LineState, StandsOnJustified, AllDummies, UpTo, SafeByIndex;
    StaleBlocks(t);
    FiveInARow();
    StaleStands(t);
    StaleIsSafe(t);
    NewerCertificatePasses(t, name, StaleState(), CatchUpEvent(t));
  }

  /** Seven proposals in order, all validated and voted for by the rules. The sixth completes a three-chain that starts
      below the last executed block, so the seventh executes a block a second time. */
  lemma StaleCertificateRepeatsExecution() returns (t: Chain, name: DummyNaming, es: seq<Event>)
    ensures Processable(t, es) && NamesDummies(t, name) && VotesAreValidated(t, name, es) && VotesAboveLastSent(t, es)
    ensures Run(t, es).executed == [Id(1), Id(2), Id(2), Id(3)] && !HeadsNeverDrop(t, es)
  {
    hide Tree, Id, HasLine, Run, Cast, Votes, Step, Validated, VotesAreValidated, VotesAboveLastSent, LineState, NamesDummies;
    hide HeadsNeverDrop, CommitHead;
    t, name := Tree(StaleRows()), NoDummies(8);
    var line := LineEvents(t, 5);
    es := line + [StaleEvent(t)] + [CatchUpEvent(t)];
    StaleExists();
    NoDummiesIsNaming(StaleRows());
    StaleBlocks(t);
    StaleHeads(t);
    FiveInARow();
    LineRuns(t, 5, 5, name);
    StaleSteps(t);
    StaleIsValidated(t, name);
    RunExtends(t, name, line, StaleEvent(t));
    RunExtends(t, name, line + [StaleEvent(t)], CatchUpEvent(t));
    HeadDrops(t, line, StaleEvent(t), CatchUpEvent(t));
  }

  lemma HeadDrops(t: Chain, es: seq<Event>, e: Event, f: Event)
    requires Processable(t, es + [e] + [f]) && Processable(t, es)
    requires e.block in t.blocks && Votes(t, Run(t, es), e) && !KeepsHead(t, Run(t, es), e.block)
    ensures !HeadsNeverDrop(t, es + [e] + [f])
  {
    hide Run, KeepsHead, Commits;
    var all, init := es + [e] + [f], es + [e];
    assert all[..|all| - 1] == init && init[..|init| - 1] == es && init[|init| - 1] == e;
    if HeadsNeverDrop(t, all) {
      LastHead(t, all);
      LastHead(t, init);
    }
  }

  // ---- A timeout proposal off the locked branch ----

  /** Three blocks in a row; a block on genesis that justifies the second (4); a dummy block on it (5); and a proposal on
      the dummy block that justifies the first (6). */
  ghost predicate Detour(t: Chain) {
    && HasLine(t, 3)
    && Id(4) in t.blocks && t.blocks[Id(4)] == Block(Id(0), Id(2), 4)
    && Id(5) in t.blocks && t.blocks[Id(5)] == Block(Id(4), Id(1), 5)
    && Id(6) in t.blocks && t.blocks[Id(6)] == Block(Id(5), Id(1), 6)
    && Id(7) !in t.blocks
  }

  function DetourRows(): seq<Row> {
    [Row(0, 0, 0), Row(0, 0, 1), Row(1, 1, 2), Row(2, 2, 3), Row(0, 2, 4), Row(4, 1, 5), Row(5, 1, 6)]
  }

  function DetourName(): DummyNaming {
    (p, h, j) => if p == Id(4) && h == 5 && j == Id(1) then Id(5) else Id(7)
  }

  lemma DetourExists()
    ensures Detour(Tree(DetourRows()))
  {
    hide Tree, Id;
    var rows := DetourRows();
    assert RowOrdered(rows, 1) && RowOrdered(rows, 2) && RowOrdered(rows, 3);
    assert RowOrdered(rows, 4) && RowOrdered(rows, 5) && RowOrdered(rows, 6);
    assert LineRows(3) == rows[..4];
    TreeHasLine(rows, 3);
    TreeBlock(rows, 4);
    TreeBlock(rows, 5);
    TreeBlock(rows, 6);
    if Id(7) in Tree(rows).blocks {
      TreeMember(rows, Id(7));
    }
  }

  lemma DetourBlocks(t: Chain)
    requires Detour(t)
    ensures t.WellFormed() && t.genesis == Id(0) && Id(0) in t.blocks && t.blocks[Id(0)] == Block(Id(0), Id(0), 0)
    ensures Id(1) in t.blocks && t.blocks[Id(1)] == Block(Id(0), Id(0), 1)
    ensures Id(2) in t.blocks && t.blocks[Id(2)] == Block(Id(1), Id(1), 2)
    ensures Id(3) in t.blocks && t.blocks[Id(3)] == Block(Id(2), Id(2), 3)
  {
    hide Id, HasLine;
    LineBlock(t, 3, 0);
    LineBlock(t, 3, 1);
    LineBlock(t, 3, 2);
    LineBlock(t, 3, 3);
  }

  ghost function DetourEvent(t: Chain): Event {
    Arrival(t, 4, Some(3), {}, false)
  }

  ghost function TimeoutEvent(t: Chain): Event {
    Arrival(t, 6, Some(5), {}, false)
  }

  function DetourState(): State {
    State(Id(1), Id(0), 4, 4, Id(2), Id(4), [])
  }

  lemma ThreeInARow()
    ensures LineState(3) == State(Id(1), Id(0), 3, 3, Id(2), Id(3), [])
  {
    hide Id;
  }

  lemma DetourStep(t: Chain, name: DummyNaming)
    requires Detour(t)
    ensures Knows(t, LineState(3)) && Id(4) in t.blocks && Id(4) != t.genesis
    ensures Passes(t, name, LineState(3), DetourEvent(t))
    ensures Votes(t, LineState(3), DetourEvent(t)) && Step(t, LineState(3), DetourEvent(t)) == DetourState()
  {
    hide Id, HasLine, LineState, PathStored, PathAbove, VerdictOf, Validated, StandsOnJustified, NewlyLocked, Cleared;
    hide Votes, Step;
    DetourBlocks(t);
    ThreeInARow();
    UpdateOf(t, LineState(3), Id(4), Id(1), [], Id(0), []);
    ClearedByOne(t, t.blocks.Keys, Id(1));
    StepOf(t, LineState(3), DetourEvent(t), []);
    NewerCertificatePasses(t, name, LineState(3), DetourEvent(t));
  }

  lemma DetourDummies(t: Chain)
    requires Detour(t)
    ensures Knows(t, DetourState()) && Id(6) in t.blocks
    ensures AllDummies(t, DetourState(), DetourName(), Id(6)) == [Id(5)] && UpTo([Id(5)], Id(5)) == [Id(5)]
  {
    hide Id, HasLine;
    DetourBlocks(t);
    assert DummyChain(DetourName(), Id(4), 4, Id(1), 0) == [];
    assert DummyChain(DetourName(), Id(4), 4, Id(1), 1) == [Id(5)];
  }

  lemma TimeoutPasses(t: Chain)
    requires Detour(t)
    ensures Knows(t, DetourState()) && Id(6) in t.blocks && Id(6) != t.genesis
    ensures Passes(t, DetourName(), DetourState(), TimeoutEvent(t)) && Votes(t, DetourState(), TimeoutEvent(t))
  {
    hide Id, HasLine, PathStored, PathAbove, SafeByIndex, AllDummies, UpTo, NewlyLocked, Cleared, Votes;
    DetourBlocks(t);
    DetourDummies(t);
    UpdateOf(t, DetourState(), Id(6), Id(0), [], Id(0), []);
    ClearedByOne(t, t.blocks.Keys, Id(1));
    StepOf(t, DetourState(), TimeoutEvent(t), []);
  }

  lemma TimeoutIsUnsafe(t: Chain)
    requires Detour(t)
    ensures t.WellFormed() && Id(6) in t.blocks && Id(1) in t.blocks
    ensures !SafeNode(t, Id(6), Id(1)) && !WellShaped(t, Id(6))
  {
    hide Id, HasLine;
    DetourBlocks(t);
    assert !t.Descends(Id(0), Id(1));
    assert !t.Descends(Id(4), Id(1));
    assert !t.Descends(Id(5), Id(1));
  }

  lemma DetourNames(t: Chain)
    requires Detour(t)
    ensures NamesDummies(t, DetourName())
  {
    hide Id, HasLine;
    DetourBlocks(t);
  }

  /** Four proposals pass validation, the last of them on a branch without the locked block. The timeout proposal that
      follows is accepted on a dummy block and voted for, although it is not safe for the lock and does not descend from
      the block it justifies. */
  lemma AcceptedTimeoutIsUnsafe() returns (t: Chain, name: DummyNaming, es: seq<Event>, e: Event, f: Event)
    ensures NamesDummies(t, name) && Processable(t, es + [e]) && Processable(t, es) && VotesAreValidated(t, name, es)
    ensures e.block in t.blocks && e.block != t.genesis && f.block in t.blocks && f.block != t.genesis
    ensures Passes(t, name, Run(t, es), e) && Passes(t, name, Run(t, es + [e]), f) && Votes(t, Run(t, es + [e]), f)
    ensures f.timeout.Some? && SkipsViews(t, Run(t, es + [e]), f.block, f.timeout)
    ensures !SafeNode(t, f.block, Run(t, es + [e]).locked) && !WellShaped(t, f.block)
  {
    hide Tree, Id, HasLine, Run, Cast, Votes, Step, Validated, VotesAreValidated, VotesAboveLastSent, LineState, VerdictOf;
    hide SafeNode, WellShaped, NamesDummies, Passes;
    t, name := Tree(DetourRows()), DetourName();
    es, e, f := LineEvents(t, 3), DetourEvent(t), TimeoutEvent(t);
    DetourExists();
    DetourBlocks(t);
    DetourNames(t);
    LineRuns(t, 3, 3, name);
    DetourStep(t, name);
    TimeoutPasses(t);
    TimeoutIsUnsafe(t);
    RunExtends(t, name, es, e);
  }
}
