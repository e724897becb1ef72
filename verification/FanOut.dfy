/** Queries one member after the other in the committee of every shard group involved, until one member of each group
    answers. Models applications/tari_indexer/src/network_client.rs. */
module FanOut {

  import opened Wrappers
  import ShardGroups

  type ShardGroup = ShardGroups.ShardGroup
  type Address = ShardGroups.Address
  type Member = string
  type Response = string
  type Message = string

  type Reply = Result<Response, Message>

  type Replies = map<ShardGroup, Reply>

  datatype Error =
    | EpochManagerError(message: Message)
    | AllValidatorsFailed(committeeSize: nat, lastError: Option<Message>)
    | NoCommitteeMembers

  /** The committee of a group in the order its shuffle draws, or the error of the lookup. */
  type Committees = ShardGroup -> Result<seq<Member>, Message>

  /** What the callback returns for the n-th call, made to the given member. */
  type Callback = (nat, Member) -> Reply

  datatype Call = Call(member: Member, reply: Reply)

  /** The calls made to the members of one group. */
  datatype Visit = Visit(group: ShardGroup, calls: seq<Call>)

  // ---- What the calls must be ----

  ghost predicate InOrder(calls: seq<Call>, members: seq<Member>) {
    |calls| <= |members| && forall i :: 0 <= i < |calls| ==> calls[i].member == members[i]
  }

  ghost predicate AllFail(calls: seq<Call>) {
    forall i :: 0 <= i < |calls| ==> calls[i].reply.Err?
  }

  predicate Succeeds(calls: seq<Call>) {
    calls != [] && calls[|calls| - 1].reply.Ok?
  }

  /** The calls go through a prefix of the members and end with the first success or with the last member. */
  ghost predicate UntilSuccess(calls: seq<Call>, members: seq<Member>) {
    && InOrder(calls, members)
    && (Succeeds(calls) ==> AllFail(calls[..|calls| - 1]))
    && (!Succeeds(calls) ==> AllFail(calls) && |calls| == |members|)
  }

  /** All calls of the visits, in the order they are made. */
  function CallsOf(visits: seq<Visit>): seq<Call> {
    if visits == [] then [] else CallsOf(visits[..|visits| - 1]) + visits[|visits| - 1].calls
  }

  ghost predicate Answered(calls: seq<Call>, callback: Callback) {
    forall i :: 0 <= i < |calls| ==> calls[i].reply == callback(i, calls[i].member)
  }

  /** The distinct groups of the addresses. */
  ghost function GroupsOf(addresses: seq<Address>, groupOf: Address -> ShardGroup): set<ShardGroup> {
    set i | 0 <= i < |addresses| :: groupOf(addresses[i])
  }

  ghost predicate Known(committees: Committees, groups: set<ShardGroup>) {
    forall g :: g in groups ==> committees(g).Ok?
  }

  /** Every group is visited once, and every visit stops at the first success. */
  ghost predicate Visited(visits: seq<Visit>, groups: set<ShardGroup>, committees: Committees)
    requires Known(committees, groups)
  {
    && (forall v :: v in visits ==> v.group in groups && UntilSuccess(v.calls, committees(v.group).value))
    && (forall i, j :: 0 <= i < j < |visits| ==> visits[i].group != visits[j].group)
  }

  ghost predicate Complete(visits: seq<Visit>, groups: set<ShardGroup>) {
    forall g :: g in groups ==> exists v :: v in visits && v.group == g
  }

  /** The results hold the last reply of every group with at least one member, and nothing else. */
  ghost predicate LastReplies(results: Replies, visits: seq<Visit>) {
    && (forall v :: v in visits && v.calls != [] ==>
         v.group in results && results[v.group] == v.calls[|v.calls| - 1].reply)
    && (forall g :: g in results ==> exists v :: v in visits && v.group == g && v.calls != [])
  }

  ghost function Successes(results: Replies): set<ShardGroup> {
    set g | g in results && results[g].Ok?
  }

  /** The error of the last failing call. */
  ghost function LastError(calls: seq<Call>): Option<Message> {
    if calls == [] then None
    else if calls[|calls| - 1].reply.Err? then Some(calls[|calls| - 1].reply.error)
    else LastError(calls[..|calls| - 1])
  }

  // ---- One call more ----

  lemma OneMoreCall(calls: seq<Call>, call: Call, callback: Callback)
    requires Answered(calls, callback) && call.reply == callback(|calls|, call.member)
    ensures Answered(calls + [call], callback)
  {
  }

  lemma OneMoreError(calls: seq<Call>, call: Call)
    ensures LastError(calls + [call]) == if call.reply.Err? then Some(call.reply.error) else LastError(calls)
  {
    assert (calls + [call])[..|calls|] == calls;
  }

  lemma OneMoreMember(calls: seq<Call>, call: Call, members: seq<Member>)
    requires InOrder(calls, members) && AllFail(calls) && |calls| < |members| && call.member == members[|calls|]
    ensures InOrder(calls + [call], members)
    ensures call.reply.Err? ==> AllFail(calls + [call])
    ensures call.reply.Ok? ==> UntilSuccess(calls + [call], members)
  {
    assert (calls + [call])[..|calls|] == calls;
  }

  lemma NoCallYet(members: seq<Member>)
    ensures InOrder([], members) && AllFail([])
  {
  }

  lemma AllMembersFail(calls: seq<Call>, members: seq<Member>)
    requires InOrder(calls, members) && AllFail(calls) && |calls| == |members|
    ensures UntilSuccess(calls, members)
  {
  }

  // ---- The loops ----

  /** The inner loop: calls members until one answers. */
  method TryMembers(group: ShardGroup, members: seq<Member>, callback: Callback, results: Replies,
                    lastError: Option<Message>, ghost made: seq<Call>, count: nat)
    returns (calls: seq<Call>, results': Replies, lastError': Option<Message>)
    requires Answered(made, callback) && count == |made| && lastError == LastError(made)
    ensures UntilSuccess(calls, members) && Answered(made + calls, callback)
    ensures results' == if calls == [] then results else results[group := calls[|calls| - 1].reply]
    ensures lastError' == LastError(made + calls)
  {
    hide Answered, LastError, InOrder, AllFail, UntilSuccess;
    NoCallYet(members);
    calls, results', lastError' := [], results, lastError;
    assert made + calls == made;
    for i := 0 to |members|
      invariant |calls| == i && InOrder(calls, members) && AllFail(calls)
      invariant Answered(made + calls, callback)
      invariant results' == if calls == [] then results else results[group := calls[|calls| - 1].reply]
      invariant lastError' == LastError(made + calls)
    {
      var reply := callback(count + i, members[i]);
      var call := Call(members[i], reply);
      OneMoreCall(made + calls, call, callback);
      OneMoreError(made + calls, call);
      OneMoreMember(calls, call, members);
      assert made + (calls + [call]) == made + calls + [call];
      calls := calls + [call];
      results' := results'[group := reply];
      match reply {
        case Ok(_) =>
          return;
        case Err(error) =>
          lastError' := Some(error);
      }
    }
    AllMembersFail(calls, members);
  }

  /** Everything the outer loop has established once it has gone through the groups in `seen`. */
  ghost predicate Progress(visits: seq<Visit>, seen: set<ShardGroup>, committees: Committees, results: Replies,
                           succeeded: nat)
  {
    && Known(committees, seen)
    && Visited(visits, seen, committees) && Complete(visits, seen)
    && LastReplies(results, visits)
    && succeeded == |Successes(results)|
  }

  lemma NothingVisited(committees: Committees, callback: Callback)
    ensures Progress([], {}, committees, map[], 0)
    ensures Answered(CallsOf([]), callback) && LastError(CallsOf([])) == None && CallsOf([]) == []
  {
    assert Successes(map[]) == {};
  }

  lemma OneMoreVisit(visits: seq<Visit>, visit: Visit)
    ensures CallsOf(visits + [visit]) == CallsOf(visits) + visit.calls
  {
    assert (visits + [visit])[..|visits|] == visits;
  }

  lemma NotYetReplied(results: Replies, visits: seq<Visit>, group: ShardGroup)
    requires LastReplies(results, visits) && forall v :: v in visits ==> v.group != group
    ensures group !in results
  {
  }

  lemma VisitKeepsReplies(results: Replies, visits: seq<Visit>, visit: Visit)
    requires LastReplies(results, visits) && forall v :: v in visits ==> v.group != visit.group
    ensures LastReplies(if visit.calls == [] then results else results[visit.group := visit.calls[|visit.calls| - 1].reply],
                        visits + [visit])
  {
    var results' := if visit.calls == [] then results else results[visit.group := visit.calls[|visit.calls| - 1].reply];
    forall g | g in results' ensures exists v :: v in visits + [visit] && v.group == g && v.calls != [] {
      if g in results {
        var v :| v in visits && v.group == g && v.calls != [];
        assert v in visits + [visit];
      } else {
        assert visit in visits + [visit];
      }
    }
  }

  lemma VisitKeepsOrder(visits: seq<Visit>, seen: set<ShardGroup>, committees: Committees, visit: Visit)
    requires Known(committees, seen + {visit.group}) && visit.group !in seen
    requires Visited(visits, seen, committees) && Complete(visits, seen)
    requires UntilSuccess(visit.calls, committees(visit.group).value)
    ensures Visited(visits + [visit], seen + {visit.group}, committees)
    ensures Complete(visits + [visit], seen + {visit.group})
  {
    hide UntilSuccess;
    forall i, j | 0 <= i < j < |visits + [visit]| ensures (visits + [visit])[i].group != (visits + [visit])[j].group {
      assert visits[i] in visits;
    }
    forall g | g in seen + {visit.group} ensures exists v :: v in visits + [visit] && v.group == g {
      if g in seen {
        var v :| v in visits && v.group == g;
        assert v in visits + [visit];
      } else {
        assert visit in visits + [visit];
      }
    }
  }

  lemma VisitKeepsCount(results: Replies, group: ShardGroup, reply: Reply)
    requires group !in results
    ensures |Successes(results[group := reply])| == |Successes(results)| + if reply.Ok? then 1 else 0
  {
    assert Successes(results[group := reply]) == Successes(results) + if reply.Ok? then {group} else {};
  }

  lemma VisitKeepsProgress(visits: seq<Visit>, seen: set<ShardGroup>, committees: Committees, results: Replies,
                           succeeded: nat, visit: Visit)
    requires Progress(visits, seen, committees, results, succeeded)
    requires Known(committees, seen + {visit.group}) && visit.group !in seen
    requires UntilSuccess(visit.calls, committees(visit.group).value)
    ensures Progress(visits + [visit], seen + {visit.group}, committees,
                     if visit.calls == [] then results else results[visit.group := visit.calls[|visit.calls| - 1].reply],
                     succeeded + if Succeeds(visit.calls) then 1 else 0)
  {
    hide UntilSuccess;
    VisitKeepsOrder(visits, seen, committees, visit);
    VisitKeepsReplies(results, visits, visit);
    NotYetReplied(results, visits, visit.group);
    if visit.calls != [] {
      VisitKeepsCount(results, visit.group, visit.calls[|visit.calls| - 1].reply);
    }
  }

  lemma KnownGroups(members: map<ShardGroup, seq<Member>>, committees: Committees, groups: set<ShardGroup>)
    requires groups <= members.Keys && forall g :: g in members ==> committees(g) == Ok(members[g])
    ensures Known(committees, groups)
  {
  }

  /** The outer loop, over the groups in any order. */
  method TryGroups(members: map<ShardGroup, seq<Member>>, ghost committees: Committees, callback: Callback)
    returns (visits: seq<Visit>, results: Replies, succeeded: nat, lastError: Option<Message>)
    requires forall g :: g in members ==> committees(g) == Ok(members[g])
    ensures Progress(visits, members.Keys, committees, results, succeeded)
    ensures Answered(CallsOf(visits), callback) && lastError == LastError(CallsOf(visits))
  {
    hide Progress, Answered, LastError, UntilSuccess, CallsOf, Known;
    NothingVisited(committees, callback);
    visits, results, succeeded, lastError := [], map[], 0, None;
    var remaining, count := members.Keys, 0;
    ghost var seen: set<ShardGroup> := {};
    while remaining != {}
      invariant remaining <= members.Keys && seen == members.Keys - remaining
      invariant Progress(visits, seen, committees, results, succeeded)
      invariant Answered(CallsOf(visits), callback) && lastError == LastError(CallsOf(visits)) && count == |CallsOf(visits)|
      decreases |remaining|
    {
      var group :| group in remaining;
      var calls, results', lastError' :=
        TryMembers(group, members[group], callback, results, lastError, CallsOf(visits), count);
      ghost var visit := Visit(group, calls);
      KnownGroups(members, committees, seen + {group});
      VisitKeepsProgress(visits, seen, committees, results, succeeded, visit);
      OneMoreVisit(visits, visit);
      if Succeeds(calls) {
        succeeded := succeeded + 1;
      }
      visits := visits + [Visit(group, calls)];
      results, lastError, count := results', lastError', count + |calls|;
      remaining, seen := remaining - {group}, seen + {group};
      assert seen == members.Keys - remaining;
    }
    assert seen == members.Keys;
  }

  /** Looks up the committee of every distinct group of the addresses; stops at the first lookup that fails. */
  method LookUp(addresses: seq<Address>, groupOf: Address -> ShardGroup, committees: Committees)
    returns (r: Result<map<ShardGroup, seq<Member>>, Message>)
    ensures r.Ok? ==> r.value.Keys == GroupsOf(addresses, groupOf)
    ensures r.Ok? ==> forall g :: g in r.value ==> committees(g) == Ok(r.value[g])
    ensures r.Err? ==> FirstFailure(addresses, groupOf, committees, r.error)
  {
    var members: map<ShardGroup, seq<Member>> := map[];
    for i := 0 to |addresses|
      invariant members.Keys == GroupsOf(addresses[..i], groupOf)
      invariant forall g :: g in members ==> committees(g) == Ok(members[g])
      invariant forall j :: 0 <= j < i ==> committees(groupOf(addresses[j])).Ok?
    {
      var group := groupOf(addresses[i]);
      assert GroupsOf(addresses[..i + 1], groupOf) == GroupsOf(addresses[..i], groupOf) + {group} by {
        assert addresses[..i + 1][i] == addresses[i];
        assert forall j :: 0 <= j < i ==> addresses[..i + 1][j] == addresses[..i][j];
      }
      if group !in members {
        match committees(group) {
          case Ok(committee) =>
            members := members[group := committee];
          case Err(message) =>
            return Err(message);
        }
      }
    }
    assert addresses[..|addresses|] == addresses;
    r := Ok(members);
  }

  ghost predicate FirstFailure(addresses: seq<Address>, groupOf: Address -> ShardGroup, committees: Committees,
                               message: Message)
  {
    exists i :: 0 <= i < |addresses| && committees(groupOf(addresses[i])) == Err(message)
                && forall j :: 0 <= j < i ==> committees(groupOf(addresses[j])).Ok?
  }

  // ---- The whole operation ----

  /** Groups of which a member can be asked. */
  ghost function Staffed(groups: set<ShardGroup>, committees: Committees): set<ShardGroup> {
    set g | g in groups && committees(g).Ok? && committees(g).value != []
  }

  ghost predicate AnySuccess(visits: seq<Visit>) {
    exists v :: v in visits && Succeeds(v.calls)
  }

  /** The results have an entry for exactly the groups that have a member, and count a success exactly when one of the
      visits ends with one. */
  lemma ProgressMeans(visits: seq<Visit>, groups: set<ShardGroup>, committees: Committees, results: Replies, succeeded: nat)
    requires Progress(visits, groups, committees, results, succeeded)
    ensures results.Keys == Staffed(groups, committees)
    ensures AnySuccess(visits) <==> 0 < succeeded
  {
    forall g ensures g in results <==> g in Staffed(groups, committees) {
      if g in results {
        var v :| v in visits && v.group == g && v.calls != [];
      }
      if g in Staffed(groups, committees) {
        var v :| v in visits && v.group == g;
      }
    }
    if AnySuccess(visits) {
      var v :| v in visits && Succeeds(v.calls);
      assert v.group in Successes(results);
    }
    if 0 < succeeded {
      var g :| g in Successes(results);
      var v :| v in visits && v.group == g && v.calls != [];
      assert Succeeds(v.calls);
    }
  }

  lemma NoGroups(addresses: seq<Address>, groupOf: Address -> ShardGroup)
    ensures GroupsOf(addresses, groupOf) == {} <==> addresses == []
  {
    if addresses != [] {
      assert groupOf(addresses[0]) in GroupsOf(addresses, groupOf);
    }
  }

  /** What querying groups with known committees leads to. */
  ghost predicate FanOutOutcome(groups: set<ShardGroup>, committees: Committees, callback: Callback,
                                r: Result<Replies, Error>, visits: seq<Visit>)
    requires Known(committees, groups)
  {
    && Visited(visits, groups, committees) && Complete(visits, groups) && Answered(CallsOf(visits), callback)
    && (r.Ok? <==> AnySuccess(visits))
    && (r.Ok? ==> LastReplies(r.value, visits) && r.value.Keys == Staffed(groups, committees))
    && (r.Err? ==> r.error == if groups == {} then NoCommitteeMembers
                              else AllValidatorsFailed(|groups|, LastError(CallsOf(visits))))
  }

  /** What querying the groups of the addresses leads to. */
  ghost predicate Outcome(addresses: seq<Address>, groupOf: Address -> ShardGroup, committees: Committees,
                          callback: Callback, r: Result<Replies, Error>, visits: seq<Visit>)
  {
    var groups := GroupsOf(addresses, groupOf);
    if Known(committees, groups) then FanOutOutcome(groups, committees, callback, r, visits)
    else
      visits == [] && r.Err? && r.error.EpochManagerError?
      && FirstFailure(addresses, groupOf, committees, r.error.message)
  }

  /** The lookups at the start: the current epoch, and the grouping of addresses that follows from its number of
      committees. */
  type Groupings = nat -> Result<Address -> ShardGroup, Message>

  function StartOf(epoch: Result<nat, Message>, groupings: Groupings): Result<Address -> ShardGroup, Message> {
    if epoch.Err? then Err(epoch.error) else groupings(epoch.value)
  }

  method TryWithCommittee(addresses: seq<Address>, epoch: Result<nat, Message>, groupings: Groupings,
                          committees: Committees, callback: Callback)
    returns (r: Result<Replies, Error>, visits: seq<Visit>)
    ensures var start := StartOf(epoch, groupings);
            if start.Err? then r == Err(EpochManagerError(start.error)) && visits == []
            else Outcome(addresses, start.value, committees, callback, r, visits)
  {
    hide Outcome;
    if epoch.Err? {
      return Err(EpochManagerError(epoch.error)), [];
    }
    var grouping := groupings(epoch.value);
    if grouping.Err? {
      return Err(EpochManagerError(grouping.error)), [];
    }
    r, visits := TryCommittees(addresses, grouping.value, committees, callback);
  }

  /** The operation once the grouping is known. */
  method TryCommittees(addresses: seq<Address>, groupOf: Address -> ShardGroup, committees: Committees,
                       callback: Callback)
    returns (r: Result<Replies, Error>, visits: seq<Visit>)
    ensures Outcome(addresses, groupOf, committees, callback, r, visits)
  {
    hide Visited, LastReplies, CallsOf, Staffed, AnySuccess, Successes, Answered, LastError, Complete;
    visits := [];
    var lookup := LookUp(addresses, groupOf, committees);
    if lookup.Err? {
      return Err(EpochManagerError(lookup.error)), [];
    }
    var members := lookup.value;
    var committeeSize := |members|;
    assert committeeSize == |members.Keys|;
    NoGroups(addresses, groupOf);
    if committeeSize == 0 {
      NothingVisited(committees, callback);
      ProgressMeans([], {}, committees, map[], 0);
      return Err(NoCommitteeMembers), [];
    }
    var results, succeeded, lastError;
    visits, results, succeeded, lastError := TryGroups(members, committees, callback);
    ProgressMeans(visits, members.Keys, committees, results, succeeded);
    if succeeded == 0 {
      return Err(AllValidatorsFailed(committeeSize, lastError)), visits;
    }
    return Ok(results), visits;
  }

  /** The results cover all groups queried exactly when every group has a member. */
  lemma ResultsCoverGroups(groups: set<ShardGroup>, committees: Committees, results: Replies)
    requires Known(committees, groups) && results.Keys == Staffed(groups, committees)
    ensures |results| == |groups| <==> forall g :: g in groups ==> committees(g).value != []
  {
    assert |results| == |results.Keys|;
    if |results| == |groups| && Staffed(groups, committees) != groups {
      StrictlySmaller(Staffed(groups, committees), groups);
    }
    assert Staffed(groups, committees) == groups <==> forall g :: g in groups ==> committees(g).value != [];
  }

  lemma {:induction false} StrictlySmaller(a: set<ShardGroup>, b: set<ShardGroup>)
    requires a < b
    ensures |a| < |b|
  {
    assert !(b <= a);
    var extra :| extra in b && extra !in a;
    AtMostAsLarge(a, b - {extra});
  }

  lemma {:induction false} AtMostAsLarge(a: set<ShardGroup>, b: set<ShardGroup>)
    requires a <= b
    ensures |a| <= |b|
  {
    if a != {} {
      var x :| x in a;
      AtMostAsLarge(a - {x}, b - {x});
    }
  }

  /** What one address leads to, given the lookup of its committee. */
  ghost predicate SingleOutcome(committee: Result<seq<Member>, Message>, callback: Callback, r: Result<Response, Error>,
                                calls: seq<Call>)
  {
    match committee
    case Err(message) => r == Err(EpochManagerError(message)) && calls == []
    case Ok(members) =>
      && UntilSuccess(calls, members) && Answered(calls, callback)
      && r == if Succeeds(calls) then Ok(calls[|calls| - 1].reply.value) else Err(AllValidatorsFailed(1, LastError(calls)))
  }

  lemma SingleLookupFails(address: Address, epoch: Result<nat, Message>, groupings: Groupings, committees: Committees,
                          callback: Callback, r: Result<Replies, Error>, visits: seq<Visit>)
    requires r.Err? && r.error.EpochManagerError? && StartOf(epoch, groupings).Ok?
    requires Outcome([address], StartOf(epoch, groupings).value, committees, callback, r, visits)
    ensures committees(StartOf(epoch, groupings).value(address)) == Err(r.error.message)
  {
    hide Visited, Complete, Answered, AnySuccess, LastReplies, Staffed, CallsOf, LastError;
    var groupOf := StartOf(epoch, groupings).value;
    assert [address][0] == address;
    assert GroupsOf([address], groupOf) == {groupOf(address)};
  }

  /** With one address the results hold exactly one entry, a success, so taking the first one never fails. */
  method TrySingleWithCommittee(address: Address, epoch: Result<nat, Message>, groupings: Groupings,
                                committees: Committees, callback: Callback)
    returns (r: Result<Response, Error>, calls: seq<Call>)
    ensures var start := StartOf(epoch, groupings);
            if start.Err? then r == Err(EpochManagerError(start.error)) && calls == []
            else SingleOutcome(committees(start.value(address)), callback, r, calls)
  {
    hide Answered, LastError, CallsOf, LastReplies, UntilSuccess, Visited, Complete, AnySuccess, Staffed;
    var outcome, visits := TryWithCommittee([address], epoch, groupings, committees, callback);
    if outcome.Err? && outcome.error.EpochManagerError? {
      if StartOf(epoch, groupings).Ok? {
        SingleLookupFails(address, epoch, groupings, committees, callback, outcome, visits);
      }
      return Err(outcome.error), [];
    }
    ghost var groupOf := StartOf(epoch, groupings).value;
    ghost var group := groupOf(address);
    assert GroupsOf([address], groupOf) == {group} by {
      assert [address][0] == address;
    }
    SingleVisit(visits, group, committees);
    calls := visits[0].calls;
    if outcome.Err? {
      return Err(outcome.error), calls;
    }
    var results := outcome.value;
    SingleReply(results, visits);
    assert group in results;
    var first :| first in results;
    r := AsSingle(results[first]);
  }

  function AsSingle(reply: Reply): Result<Response, Error> {
    match reply
    case Ok(value) => Ok(value)
    case Err(message) => Err(AllValidatorsFailed(1, Some(message)))
  }

  lemma OneVisit(visits: seq<Visit>, group: ShardGroup, committees: Committees)
    requires Known(committees, {group}) && Visited(visits, {group}, committees) && Complete(visits, {group})
    ensures |visits| == 1 && visits[0].group == group
  {
    hide UntilSuccess;
    assert group in {group};
    var v :| v in visits && v.group == group;
    assert visits[0] in visits && visits[|visits| - 1] in visits;
  }

  lemma SingleReply(results: Replies, visits: seq<Visit>)
    requires |visits| == 1 && Succeeds(visits[0].calls) && LastReplies(results, visits)
    ensures results == map[visits[0].group := visits[0].calls[|visits[0].calls| - 1].reply]
  {
    assert visits[0] in visits;
  }

  lemma SingleVisit(visits: seq<Visit>, group: ShardGroup, committees: Committees)
    requires Known(committees, {group}) && Visited(visits, {group}, committees) && Complete(visits, {group})
    ensures |visits| == 1 && visits[0].group == group && CallsOf(visits) == visits[0].calls
    ensures UntilSuccess(visits[0].calls, committees(group).value)
    ensures AnySuccess(visits) <==> Succeeds(visits[0].calls)
  {
    hide UntilSuccess, Succeeds;
    OneVisit(visits, group, committees);
    assert visits[0] in visits;
    assert visits == [] + [visits[0]];
    OneMoreVisit([], visits[0]);
  }
}
