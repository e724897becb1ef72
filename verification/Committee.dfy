/** Weighted committees: vote power, fault bound, quorum threshold, merging and leader rotation.
    Models `Committee` of crates/common_types/src/committee.rs. Vote power is a `nat`. */
module Committees {
  import opened Wrappers

  // Opaque names of keys, nodes and blocks.
  type PublicKey = string
  type Address = string
  type BlockId = string

  datatype Member = Member(address: Address, publicKey: PublicKey, votePower: nat)

  /** The member vector of a committee, in order; keys and addresses may repeat. */
  type Committee = seq<Member>

  function TotalPower(c: Committee): nat {
    if c == [] then 0 else c[0].votePower + TotalPower(c[1..])
  }

  function MaxFailures(c: Committee): nat {
    if TotalPower(c) == 0 then 0 else (TotalPower(c) - 1) / 3
  }

  function QuorumThreshold(c: Committee): nat {
    TotalPower(c) - MaxFailures(c)
  }

  /** The power of the first member that holds the key. */
  function PowerByPublicKey(c: Committee, key: PublicKey): Option<nat> {
    if c == [] then None
    else if c[0].publicKey == key then Some(c[0].votePower)
    else PowerByPublicKey(c[1..], key)
  }

  function PowerOrZero(c: Committee, key: PublicKey): nat {
    match PowerByPublicKey(c, key)
    case Some(p) => p
    case None => 0
  }

  /** The power of a set of distinct signers: each key counts once, at its first occurrence. */
  ghost function Weight(c: Committee, keys: set<PublicKey>): nat {
    if c == [] then 0
    else (if c[0].publicKey in keys then c[0].votePower else 0) + Weight(c[1..], keys - {c[0].publicKey})
  }

  /** A set of signers reaches the quorum threshold. */
  ghost predicate IsQuorum(c: Committee, keys: set<PublicKey>) {
    Weight(c, keys) >= QuorumThreshold(c)
  }

  // ---- Weights of key sets ----

  lemma {:induction false} WeightInclusionExclusion(c: Committee, a: set<PublicKey>, b: set<PublicKey>)
    ensures Weight(c, a) + Weight(c, b) == Weight(c, a * b) + Weight(c, a + b)
  {
    if c != [] {
      var k := c[0].publicKey;
      WeightInclusionExclusion(c[1..], a - {k}, b - {k});
      assert (a - {k}) * (b - {k}) == a * b - {k};
      assert (a - {k}) + (b - {k}) == a + b - {k};
    }
  }

  lemma {:induction false} WeightAtMostTotal(c: Committee, keys: set<PublicKey>)
    ensures Weight(c, keys) <= TotalPower(c)
  {
    if c != [] {
      WeightAtMostTotal(c[1..], keys - {c[0].publicKey});
    }
  }

  lemma {:induction false} WeightMonotone(c: Committee, a: set<PublicKey>, b: set<PublicKey>)
    requires a <= b
    ensures Weight(c, a) <= Weight(c, b)
  {
    if c != [] {
      WeightMonotone(c[1..], a - {c[0].publicKey}, b - {c[0].publicKey});
    }
  }

  lemma {:induction false} WeightEmpty(c: Committee)
    ensures Weight(c, {}) == 0
  {
    if c != [] {
      var none: set<PublicKey> := {};
      assert none - {c[0].publicKey} == none;
      WeightEmpty(c[1..]);
    }
  }

  lemma {:induction false} WeightInsert(c: Committee, keys: set<PublicKey>, key: PublicKey)
    requires key !in keys
    ensures Weight(c, keys + {key}) == Weight(c, keys) + PowerOrZero(c, key)
  {
    if c != [] {
      var k := c[0].publicKey;
      if k == key {
        assert keys + {key} - {k} == keys - {k};
      } else {
        assert keys + {key} - {k} == (keys - {k}) + {key};
        WeightInsert(c[1..], keys - {k}, key);
      }
    }
  }

  /** A set that weighs more than another has a member outside it. */
  lemma HeavierSetEscapes(c: Committee, heavy: set<PublicKey>, light: set<PublicKey>) returns (key: PublicKey)
    requires Weight(c, heavy) > Weight(c, light)
    ensures key in heavy && key !in light
  {
    if heavy <= light {
      WeightMonotone(c, heavy, light);
    }
    key :| key in heavy && key !in light;
  }

  // ---- Quorums ----

  /** Two quorums share more power than may fail, even when the member list repeats a key. */
  lemma QuorumIntersection(c: Committee, a: set<PublicKey>, b: set<PublicKey>)
    requires TotalPower(c) > 0
    requires IsQuorum(c, a) && IsQuorum(c, b)
    ensures Weight(c, a * b) >= MaxFailures(c) + 1
  {
    WeightInclusionExclusion(c, a, b);
    WeightAtMostTotal(c, a + b);
  }

  ghost function Keys(c: Committee): set<PublicKey> {
    set i | 0 <= i < |c| :: c[i].publicKey
  }

  lemma {:induction false} WeightDependsOnMembers(c: Committee, a: set<PublicKey>, b: set<PublicKey>)
    requires forall i :: 0 <= i < |c| ==> (c[i].publicKey in a <==> c[i].publicKey in b)
    ensures Weight(c, a) == Weight(c, b)
  {
    if c != [] {
      assert forall i :: 0 <= i < |c[1..]| ==> c[1..][i] == c[i + 1];
      WeightDependsOnMembers(c[1..], a - {c[0].publicKey}, b - {c[0].publicKey});
    }
  }

  /** The members outside a failing set form a quorum exactly when the failing power, plus the power that
      repeated keys waste, is within the fault bound. */
  lemma QuorumAvailability(c: Committee, faulty: set<PublicKey>)
    ensures IsQuorum(c, Keys(c) - faulty) <==>
            Weight(c, faulty) + (TotalPower(c) - Weight(c, Keys(c))) <= MaxFailures(c)
  {
    WeightInclusionExclusion(c, Keys(c) - faulty, faulty);
    assert (Keys(c) - faulty) * faulty == {};
    WeightEmpty(c);
    WeightDependsOnMembers(c, (Keys(c) - faulty) + faulty, Keys(c));
  }

  /** Two quorums always have a common signer outside any set of tolerable weight. */
  lemma QuorumsShareHonestSigner(c: Committee, a: set<PublicKey>, b: set<PublicKey>, faulty: set<PublicKey>)
    returns (key: PublicKey)
    requires TotalPower(c) > 0
    requires IsQuorum(c, a) && IsQuorum(c, b)
    requires Weight(c, faulty) <= MaxFailures(c)
    ensures key in a && key in b && key !in faulty
  {
    QuorumIntersection(c, a, b);
    key := HeavierSetEscapes(c, a * b, faulty);
  }

  /** A threshold survives `f` failed power and makes any two quorums share more than `f` power. */
  predicate Tolerates(c: Committee, threshold: nat, f: nat) {
    threshold + f <= TotalPower(c) && TotalPower(c) + f + 1 <= 2 * threshold
  }

  /** `MaxFailures` is the most that any threshold can tolerate, and the code's threshold tolerates it. */
  lemma MaxFailuresIsOptimal(c: Committee, f: nat)
    requires TotalPower(c) > 0
    ensures f <= MaxFailures(c) <==> exists threshold :: Tolerates(c, threshold, f)
    ensures f <= MaxFailures(c) ==> Tolerates(c, QuorumThreshold(c), f)
  {
    if f <= MaxFailures(c) {
      assert Tolerates(c, QuorumThreshold(c), f);
    }
  }

  // ---- Merging ----

  ghost function Flatten<T>(parts: seq<seq<T>>): seq<T> {
    if parts == [] then [] else parts[0] + Flatten(parts[1..])
  }

  lemma {:induction false} FlattenSnoc<T>(parts: seq<seq<T>>, last: seq<T>)
    ensures Flatten(parts + [last]) == Flatten(parts) + last
  {
    if parts == [] {
      assert parts + [last] == [last];
      assert Flatten([last]) == last + Flatten([]);
    } else {
      assert (parts + [last])[1..] == parts[1..] + [last];
      FlattenSnoc(parts[1..], last);
    }
  }

  /** Collects an iterator of committees into one by extending a member vector. */
  method MergeCommittees(parts: seq<Committee>) returns (members: Committee)
    ensures members == Flatten(parts)
  {
    members := [];
    for i := 0 to |parts|
      invariant members == Flatten(parts[..i])
    {
      FlattenSnoc(parts[..i], parts[i]);
      assert parts[..i + 1] == parts[..i] + [parts[i]];
      members := members + parts[i];
    }
    assert parts[..|parts|] == parts;
  }

  /** The power of the member positions that voted. */
  ghost function VotedPower(c: Committee, votes: seq<bool>): nat
    requires |votes| == |c|
  {
    if c == [] then 0 else (if votes[0] then c[0].votePower else 0) + VotedPower(c[1..], votes[1..])
  }

  lemma {:induction false} TotalPowerConcat(a: Committee, b: Committee)
    ensures TotalPower(a + b) == TotalPower(a) + TotalPower(b)
  {
    if a == [] {
      assert a + b == b;
    } else {
      assert (a + b)[1..] == a[1..] + b;
      TotalPowerConcat(a[1..], b);
    }
  }

  lemma {:induction false} VotedPowerConcat(a: Committee, va: seq<bool>, b: Committee, vb: seq<bool>)
    requires |va| == |a| && |vb| == |b|
    ensures VotedPower(a + b, va + vb) == VotedPower(a, va) + VotedPower(b, vb)
  {
    if a == [] {
      assert a + b == b && va + vb == vb;
    } else {
      assert (a + b)[1..] == a[1..] + b && (va + vb)[1..] == va[1..] + vb;
      VotedPowerConcat(a[1..], va[1..], b, vb);
    }
  }

  ghost predicate VotesMatch(parts: seq<Committee>, votes: seq<seq<bool>>) {
    |votes| == |parts| && forall i :: 0 <= i < |parts| ==> |votes[i]| == |parts[i]|
  }

  lemma {:induction false} FlattenVotesMatch(parts: seq<Committee>, votes: seq<seq<bool>>)
    requires VotesMatch(parts, votes)
    ensures |Flatten(votes)| == |Flatten(parts)|
  {
    if parts != [] {
      FlattenVotesMatch(parts[1..], votes[1..]);
    }
  }

  /** Sum of a per-committee quantity over the parts of a merge. */
  ghost function SumOver(parts: seq<Committee>, f: Committee -> nat): nat {
    if parts == [] then 0 else f(parts[0]) + SumOver(parts[1..], f)
  }

  /** The fault bound is superadditive and the threshold subadditive over any number of parts. */
  lemma {:induction false} MergeBounds(parts: seq<Committee>)
    ensures MaxFailures(Flatten(parts)) >= SumOver(parts, MaxFailures)
    ensures QuorumThreshold(Flatten(parts)) <= SumOver(parts, QuorumThreshold)
    ensures TotalPower(Flatten(parts)) == SumOver(parts, TotalPower)
  {
    if parts != [] {
      MergeBounds(parts[1..]);
      TotalPowerConcat(parts[0], Flatten(parts[1..]));
    }
  }

  lemma {:induction false} VotedPowerOfMerge(parts: seq<Committee>, votes: seq<seq<bool>>)
    requires VotesMatch(parts, votes)
    requires forall i :: 0 <= i < |parts| ==> VotedPower(parts[i], votes[i]) >= QuorumThreshold(parts[i])
    ensures |Flatten(votes)| == |Flatten(parts)|
    ensures VotedPower(Flatten(parts), Flatten(votes)) >= SumOver(parts, QuorumThreshold)
  {
    FlattenVotesMatch(parts, votes);
    if parts != [] {
      VotedPowerOfMerge(parts[1..], votes[1..]);
      VotedPowerConcat(parts[0], votes[0], Flatten(parts[1..]), Flatten(votes[1..]));
    }
  }

  /** Votes that reach quorum in every part reach quorum in the merged committee. */
  lemma MergedQuorum(parts: seq<Committee>, votes: seq<seq<bool>>)
    requires VotesMatch(parts, votes)
    requires forall i :: 0 <= i < |parts| ==> VotedPower(parts[i], votes[i]) >= QuorumThreshold(parts[i])
    ensures |Flatten(votes)| == |Flatten(parts)|
    ensures VotedPower(Flatten(parts), Flatten(votes)) >= QuorumThreshold(Flatten(parts))
  {
    VotedPowerOfMerge(parts, votes);
    MergeBounds(parts);
  }

  // ---- Rotation ----

  function IndexOf(c: Committee, address: Address): (r: Option<nat>)
    ensures r.Some? <==> exists i :: 0 <= i < |c| && c[i].address == address
    ensures r.Some? ==> r.value < |c| && c[r.value].address == address
    ensures r.Some? ==> forall i :: 0 <= i < r.value ==> c[i].address != address
  {
    if c == [] then None
    else if c[0].address == address then Some(0)
    else
      var rest := IndexOf(c[1..], address);
      assert forall i :: 1 <= i < |c| ==> c[i] == c[1..][i - 1];
      if rest.Some? then Some(rest.value + 1) else None
  }

  /** The member position that the endlessly repeated list of `len` members shows at position `i`. */
  function CyclePosition(i: nat, len: nat): (p: nat)
    requires 0 < len
    ensures p < len
    ensures i < 2 * len ==> p == if i < len then i else i - len
  {
    if len <= i < 2 * len then
      RemainderOfOneRound(i, len);
      i % len
    else
      i % len
  }

  lemma RemainderOfOneRound(i: nat, len: nat)
    requires 0 < len <= i < 2 * len
    ensures i % len == i - len
  {
    var q := i / len;
    assert i == len * q + i % len;
    assert q >= 2 ==> len * q >= len * 2;
  }

  /** `n` addresses of the endlessly repeated member list, from the start index on. */
  function SelectNStartingFrom(c: Committee, n: nat, start: nat): (r: seq<Address>)
    ensures |r| == if n < |c| then n else |c|
  {
    if c == [] then []
    else
      var s := CyclePosition(start, |c|);
      seq(if n < |c| then n else |c|, i requires 0 <= i => c[CyclePosition(s + i, |c|)].address)
  }

  function CalculateStepsBetween(c: Committee, a: Address, b: Address): Option<nat> {
    var ia := IndexOf(c, a);
    var ib := IndexOf(c, b);
    if ia.None? || ib.None? then None
    else
      var steps := ia.value - ib.value;
      if steps < 0 then Some(|c| + steps) else Some(steps)
  }

  ghost function Addresses(c: Committee): seq<Address> {
    seq(|c|, i requires 0 <= i < |c| => c[i].address)
  }

  /** A full selection is the member list rotated left by the start index modulo its length. */
  lemma SelectionIsRotation(c: Committee, n: nat, start: nat)
    requires c != [] && n >= |c|
    ensures SelectNStartingFrom(c, n, start) ==
            Addresses(c)[start % |c|..] + Addresses(c)[..start % |c|]
  {
    var s := CyclePosition(start, |c|);
    var rotated := Addresses(c)[s..] + Addresses(c)[..s];
    assert |rotated| == |c|;
    forall i | 0 <= i < |c| ensures SelectNStartingFrom(c, n, start)[i] == rotated[i] {
      assert CyclePosition(s + i, |c|) == if s + i < |c| then s + i else s + i - |c|;
    }
  }

  /** Every full selection is a permutation of the members, whatever the start index. */
  lemma SelectionIsPermutation(c: Committee, n: nat, start: nat)
    requires n >= |c|
    ensures multiset(SelectNStartingFrom(c, n, start)) == multiset(Addresses(c))
  {
    if c != [] {
      var s := start % |c|;
      SelectionIsRotation(c, n, start);
      assert Addresses(c) == Addresses(c)[..s] + Addresses(c)[s..];
    }
  }

  ghost predicate DistinctAddresses(c: Committee) {
    forall i, j :: 0 <= i < j < |c| ==> c[i].address != c[j].address
  }

  /** A shorter selection is a prefix of the full one. Start indices that agree modulo the length select the same members,
      and when addresses are distinct no others do. */
  lemma SelectionPrefixAndPeriod(c: Committee, n: nat, start: nat, other: nat)
    requires c != []
    ensures SelectNStartingFrom(c, n, start) <= SelectNStartingFrom(c, |c|, start)
    ensures CyclePosition(start, |c|) == CyclePosition(other, |c|) ==>
              SelectNStartingFrom(c, n, start) == SelectNStartingFrom(c, n, other)
    ensures DistinctAddresses(c) && n > 0 && SelectNStartingFrom(c, n, start) == SelectNStartingFrom(c, n, other) ==>
              CyclePosition(start, |c|) == CyclePosition(other, |c|)
  {
    FirstSelected(c, n, start);
    FirstSelected(c, n, other);
    hide CyclePosition;
    assert SelectNStartingFrom(c, n, start) <= SelectNStartingFrom(c, |c|, start);
  }

  lemma FirstSelected(c: Committee, n: nat, start: nat)
    ensures c != [] && n > 0 ==> SelectNStartingFrom(c, n, start)[0] == c[CyclePosition(start, |c|)].address
  {
    if c != [] && n > 0 {
      var s := CyclePosition(start, |c|);
      assert CyclePosition(s + 0, |c|) == s;
    }
  }

  lemma SelectedAt(c: Committee, start: nat, i: nat)
    requires start < |c| && i < |c|
    ensures SelectNStartingFrom(c, |c|, start)[i] == c[if start + i < |c| then start + i else start + i - |c|].address
  {
    assert CyclePosition(start, |c|) == start;
    assert CyclePosition(start + i, |c|) == if start + i < |c| then start + i else start + i - |c|;
  }

  lemma FirstMeeting(c: Committee, ia: nat, ib: nat, k: nat)
    requires ia < |c| && ib < |c| && k == if ia < ib then |c| + ia - ib else ia - ib
    ensures SelectNStartingFrom(c, |c|, ib)[k] == c[ia].address
    ensures DistinctAddresses(c) ==> c[ia].address !in SelectNStartingFrom(c, |c|, ib)[..k]
  {
    SelectedAt(c, ib, k);
    if DistinctAddresses(c) {
      forall i | 0 <= i < k ensures SelectNStartingFrom(c, |c|, ib)[i] != c[ia].address {
        SelectedAt(c, ib, i);
      }
    }
  }

  /** A rotation started at b's index reaches a after exactly `CalculateStepsBetween(a, b)` members;
      when addresses are distinct it meets a nowhere earlier. */
  lemma StepsLocateMember(c: Committee, a: Address, b: Address)
    requires CalculateStepsBetween(c, a, b).Some?
    ensures IndexOf(c, b).Some?
    ensures CalculateStepsBetween(c, a, b).value < |c|
    ensures var r := SelectNStartingFrom(c, |c|, IndexOf(c, b).value);
            var k := CalculateStepsBetween(c, a, b).value;
            r[k] == a && (DistinctAddresses(c) ==> a !in r[..k])
  {
    FirstMeeting(c, IndexOf(c, a).value, IndexOf(c, b).value, CalculateStepsBetween(c, a, b).value);
  }

  /** Step counts compose around the ring, so the reverse distance is the complement. */
  lemma StepsCompose(c: Committee, a: Address, b: Address, d: Address)
    requires IndexOf(c, a).Some? && IndexOf(c, b).Some? && IndexOf(c, d).Some?
    ensures CalculateStepsBetween(c, a, d).value ==
            CyclePosition(CalculateStepsBetween(c, a, b).value + CalculateStepsBetween(c, b, d).value, |c|)
    ensures CyclePosition(CalculateStepsBetween(c, a, b).value + CalculateStepsBetween(c, b, a).value, |c|) == 0
  {
    hide CyclePosition, IndexOf;
  }
}
