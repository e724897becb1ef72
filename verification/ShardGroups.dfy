/** The shard space: the shard of an address, the address range of a shard, and the even split of the shards into
    groups. Models crates/common_types/src/num_preshards.rs, substate_address.rs and shard.rs. */
module ShardGroups {
  import opened Wrappers

  /** Shards are numbered from one; both bounds are inclusive. */
  datatype ShardGroup = ShardGroup(start: nat, end: nat) {
    predicate Contains(shard: nat) {
      start <= shard <= end
    }
  }

  /** The numbers of preshards the network can have. */
  predicate IsNumPreshards(n: nat) {
    n == 1 || n == 2 || n == 4 || n == 8 || n == 16 || n == 32 || n == 64 || n == 128 || n == 256
  }

  function Min(a: nat, b: nat): nat {
    if a <= b then a else b
  }

  // ---- Addresses ----

  /** Number of object keys, 2^256. */
  const KEYS: nat := 0x1_0000_0000_0000_0000_0000_0000_0000_0000_0000_0000_0000_0000_0000_0000_0000_0000

  /** A 256-bit object key followed by a version; compared key first. */
  datatype Address = Address(key: nat, version: nat) {
    predicate Valid() {
      key < KEYS && version < 0x1_0000_0000
    }

    predicate AtMost(other: Address) {
      key < other.key || (key == other.key && version <= other.version)
    }
  }

  const ZERO := Address(0, 0)
  const MAX := Address(KEYS - 1, 0xFFFF_FFFF)

  /** The largest key shifted right by the binary logarithm of the number of shards. */
  function ShardSize(n: nat): nat
    requires IsNumPreshards(n)
  {
    (KEYS - 1) / n
  }

  /** One more than the shard size divides the key space evenly. */
  lemma ShardSizeIs(n: nat)
    requires IsNumPreshards(n)
    ensures n * (ShardSize(n) + 1) == KEYS
    ensures n < 1000 < ShardSize(n)
  {
  }

  function ToShard(a: Address, n: nat): nat
    requires a.Valid() && IsNumPreshards(n)
  {
    if n == 1 || a == ZERO then 1
    else
      ShardSizeIs(n);
      Min(a.key / ShardSize(n) + 1, n)
  }

  /** First and last address of a shard; shard 0 is the global shard and ranges over everything. */
  function ToAddressRange(shard: nat, n: nat): (Address, Address)
    requires shard <= n && IsNumPreshards(n)
  {
    if n == 1 || shard == 0 then (ZERO, MAX)
    else
      ShardSizeIs(n);
      var index := shard - 1;
      var size := ShardSize(n);
      if index == 0 then (ZERO, Address(size - 1, 0))
      else if index == n - 1 then (Address(index * size + index - 1, 0), MAX)
      else (Address(index * size + index - 1, 0), Address(index * size + size + index - 1, 0))
  }

  predicate InRange(a: Address, range: (Address, Address)) {
    range.0.AtMost(a) && a.AtMost(range.1)
  }

  /** The global shard, and the only shard of a network of one, range over all addresses. */
  lemma WholeRange(a: Address, n: nat, shard: nat)
    requires a.Valid() && IsNumPreshards(n) && shard <= n && (shard == 0 || n == 1)
    ensures InRange(a, ToAddressRange(shard, n))
    ensures n == 1 ==> ToShard(a, n) == 1
  {
  }

  lemma ToShardBounds(a: Address, n: nat)
    requires a.Valid() && IsNumPreshards(n)
    ensures 1 <= ToShard(a, n) <= n
  {
  }

  lemma ProductsGrow(i: nat, j: nat, width: nat)
    requires i <= j
    ensures i * width <= j * width
  {
    assert j * width == i * width + (j - i) * width;
  }

  /** Locates a number among the first `n` stretches of the given width, the last one closed above. */
  lemma StretchOf(x: nat, q: nat, width: nat, n: nat, shard: nat)
    requires 0 < width && q * width <= x < q * width + width && 1 <= shard <= n
    ensures shard == Min(q + 1, n) <==> (shard - 1) * width <= x && (x < shard * width || shard == n)
  {
    assert (q + 1) * width == q * width + width;
    if q + 1 < shard {
      ProductsGrow(q + 1, shard - 1, width);
    } else {
      ProductsGrow(shard - 1, q, width);
      if shard <= q {
        ProductsGrow(shard, q, width);
      }
    }
  }

  lemma Quotient(x: nat, d: nat)
    requires 0 < d
    ensures x / d * d <= x < x / d * d + d
  {
    assert x == x / d * d + x % d;
  }

  /** The ranges of two or more shards are stretches of one more key than the shard size, shifted down by one key: an
      address lies in the range of the shard whose stretch holds its key and in no other, except that the addresses with
      the last key of a stretch and a version above zero lie in no range. */
  lemma RangeMembership(a: Address, n: nat, shard: nat)
    requires a.Valid() && IsNumPreshards(n) && 2 <= n && 1 <= shard <= n
    ensures var width := ShardSize(n) + 1;
            InRange(a, ToAddressRange(shard, n)) <==>
            && shard == Min((a.key + 1) / width + 1, n)
            && !(shard < n && a.key + 2 == shard * width && 0 < a.version)
  {
    hide IsNumPreshards, ShardSize;
    ShardSizeIs(n);
    var width := ShardSize(n) + 1;
    Quotient(a.key + 1, width);
    StretchOf(a.key + 1, (a.key + 1) / width, width, n, shard);
    RangeBounds(a, n, shard);
  }

  lemma RangeBounds(a: Address, n: nat, shard: nat)
    requires a.Valid() && IsNumPreshards(n) && 2 <= n && 1 <= shard <= n
    ensures var width := ShardSize(n) + 1;
            InRange(a, ToAddressRange(shard, n)) <==>
            && (shard - 1) * width <= a.key + 1 && (a.key + 1 < shard * width || shard == n)
            && !(shard < n && a.key + 2 == shard * width && 0 < a.version)
  {
    hide IsNumPreshards, ShardSize;
    ShardSizeIs(n);
    var width := ShardSize(n) + 1;
    assert (shard - 1) * ShardSize(n) + (shard - 1) == (shard - 1) * width;
    assert (shard - 1) * width + width == shard * width;
  }

  /** The quotient of the key, from which `ToShard` computes. */
  function KeyQuotient(a: Address, n: nat): nat
    requires IsNumPreshards(n)
  {
    ShardSizeIs(n);
    a.key / ShardSize(n)
  }

  /** When the shard computed for an address owns it. */
  predicate OwnsItsAddress(a: Address, n: nat)
    requires IsNumPreshards(n)
  {
    var q := KeyQuotient(a, n);
    if n == 1 || n <= q then true
    else if q == 0 then a.key + 1 < ShardSize(n) || a.version == 0
    else q - 1 <= a.key - q * ShardSize(n)
  }

  lemma QuotientGivesShard(a: Address, n: nat)
    requires a.Valid() && IsNumPreshards(n)
    ensures var (q, size) := (KeyQuotient(a, n), ShardSize(n));
            q * size <= a.key < q * size + size && ToShard(a, n) == Min(q + 1, n)
  {
    hide IsNumPreshards, ShardSize;
    ShardSizeIs(n);
    Quotient(a.key, ShardSize(n));
  }

  lemma LastStretchHolds(key: nat, q: nat, size: nat, n: nat)
    requires 1 <= n <= q && n <= size && q * size <= key
    ensures (n - 1) * (size + 1) <= key + 1
  {
    ProductsGrow(n, q, size);
    assert (n - 1) * (size + 1) == n * size + n - size - 1;
  }

  lemma StretchesOverlap(key: nat, q: nat, size: nat)
    requires q * size <= key < q * size + size
    ensures q * (size + 1) <= key + 1 <==> q - 1 <= key - q * size
    ensures key + 1 < (q + 1) * (size + 1)
    ensures key + 2 == (q + 1) * (size + 1) <==> q == 0 && key + 1 == size
  {
    assert q * (size + 1) == q * size + q;
    assert (q + 1) * (size + 1) == q * size + q + size + 1;
  }

  /** The shard computed for an address has the address in its range exactly when the remainder of the division makes up
      for the number of keys by which the earlier shards are wider than the shard size. */
  lemma ToShardAgreesWithRange(a: Address, n: nat)
    requires a.Valid() && IsNumPreshards(n)
    ensures InRange(a, ToAddressRange(ToShard(a, n), n)) <==> OwnsItsAddress(a, n)
  {
    hide IsNumPreshards, ShardSize;
    ShardSizeIs(n);
    if 2 <= n {
      hide ToAddressRange, InRange, KeyQuotient, ToShard;
      QuotientGivesShard(a, n);
      var q := KeyQuotient(a, n);
      if n <= q {
        RangeBounds(a, n, n);
        LastStretchHolds(a.key, q, ShardSize(n), n);
      } else {
        RangeBounds(a, n, q + 1);
        StretchesOverlap(a.key, q, ShardSize(n));
      }
    }
  }

  /** With four or more shards, the first key of the third quotient is computed into shard 3 but lies in the range of
      shard 2. */
  lemma BoundaryKeyIsMisplaced(n: nat)
    requires IsNumPreshards(n) && 4 <= n
    ensures var a := Address(2 * ShardSize(n), 0);
            a.Valid() && ToShard(a, n) == 3 && !InRange(a, ToAddressRange(3, n)) && InRange(a, ToAddressRange(2, n))
  {
    ShardSizeIs(n);
    assert 2 * ShardSize(n) / ShardSize(n) == 2;
  }

  // ---- The even split ----

  /** Number of shards in the first `i` groups when the first `extra` groups have one shard more than `size`. */
  function Before(size: nat, extra: nat, i: nat): nat {
    if i == 0 then 0 else Before(size, extra, i - 1) + size + (if i <= extra then 1 else 0)
  }

  lemma {:induction false} BeforeIs(size: nat, extra: nat, i: nat)
    ensures Before(size, extra, i) == i * size + if i <= extra then i else extra
  {
    if i == 0 {
    } else {
      BeforeIs(size, extra, i - 1);
      assert i * size == (i - 1) * size + size;
    }
  }

  lemma {:induction false} BeforeGrows(size: nat, extra: nat, i: nat, j: nat)
    requires i <= j
    ensures Before(size, extra, i) <= Before(size, extra, j)
    ensures 0 < size && i < j ==> Before(size, extra, i) < Before(size, extra, j)
  {
    if i < j {
      BeforeGrows(size, extra, i, j - 1);
    }
  }

  function PerCommittee(n: nat, c: nat): nat
    requires 0 < c
  {
    n / c
  }

  function Remainder(n: nat, c: nat): nat
    requires 0 < c
  {
    n % c
  }

  /** The `i`-th of `c` groups over `n` shards. */
  function Group(n: nat, c: nat, i: nat): ShardGroup
    requires 0 < c
  {
    ShardGroup(Before(PerCommittee(n, c), Remainder(n, c), i) + 1, Before(PerCommittee(n, c), Remainder(n, c), i + 1))
  }

  lemma AllBefore(n: nat, c: nat)
    requires 0 < c
    ensures Before(PerCommittee(n, c), Remainder(n, c), c) == n
  {
    BeforeIs(n / c, n % c, c);
  }

  lemma FullGroups(n: nat, c: nat)
    requires 0 < c
    ensures n < c <==> PerCommittee(n, c) == 0
  {
    assert n == c * (n / c) + n % c;
    assert 0 < n / c ==> c <= c * (n / c);
  }

  /** The iterator over all groups. `None` when the source panics: a division by zero for no committees, and an
      underflow for more committees than shards. */
  method AllShardGroups(n: nat, committees: nat) returns (r: Option<seq<ShardGroup>>)
    ensures r.None? <==> committees == 0 || n < committees
    ensures r.Some? ==> |r.value| == committees
    ensures r.Some? ==> forall i :: 0 <= i < committees ==> r.value[i] == Group(n, committees, i)
  {
    hide PerCommittee, Remainder;
    if committees == 0 {
      return None;
    }
    FullGroups(n, committees);
    AllBefore(n, committees);
    var perCommittee := PerCommittee(n, committees);
    var remainder := Remainder(n, committees);
    if perCommittee == 0 {
      return None;
    }
    ghost var extra := remainder;
    var start := 0;
    var end := perCommittee - 1;
    var groups: seq<ShardGroup> := [];
    while start < n
      invariant |groups| <= committees
      invariant remainder == if |groups| <= extra then extra - |groups| else 0
      invariant start == Before(perCommittee, extra, |groups|)
      invariant end == start + perCommittee - 1
      invariant forall i :: 0 <= i < |groups| ==> groups[i] == Group(n, committees, i)
      decreases committees - |groups|
    {
      if remainder > 0 {
        end := end + 1;
        remainder := remainder - 1;
      }
      groups := groups + [ShardGroup(start + 1, end + 1)];
      start := end + 1;
      end := start + perCommittee - 1;
    }
    BeforeGrows(perCommittee, extra, |groups|, committees);
    r := Some(groups);
  }

  /** The groups are non-empty, follow each other without gap from shard 1 to shard n, and the earlier of two groups has
      as many shards as the later one or one more. */
  lemma GroupsSplitEvenly(n: nat, c: nat, i: nat, j: nat)
    requires 0 < c <= n && i <= j < c
    ensures Group(n, c, 0).start == 1 && Group(n, c, c - 1).end == n
    ensures Group(n, c, i).start <= Group(n, c, i).end
    ensures i < j ==> Group(n, c, i).end < Group(n, c, j).start
    ensures Group(n, c, i + 1).start == Group(n, c, i).end + 1
    ensures var larger := Group(n, c, i).end - Group(n, c, i).start;
            var smaller := Group(n, c, j).end - Group(n, c, j).start;
            smaller <= larger <= smaller + 1
  {
    hide PerCommittee, Remainder;
    AllBefore(n, c);
    FullGroups(n, c);
    BeforeGrows(PerCommittee(n, c), Remainder(n, c), i, i + 1);
    if i < j {
      BeforeGrows(PerCommittee(n, c), Remainder(n, c), i + 1, j);
    }
  }

  /** Every shard lies in exactly one group. */
  lemma ShardHasOneGroup(n: nat, c: nat, shard: nat) returns (i: nat)
    requires 0 < c <= n && 1 <= shard <= n
    ensures i < c && Group(n, c, i).Contains(shard)
    ensures forall j :: 0 <= j < c && Group(n, c, j).Contains(shard) ==> j == i
  {
    hide PerCommittee, Remainder;
    i := 0;
    AllBefore(n, c);
    while Before(PerCommittee(n, c), Remainder(n, c), i + 1) < shard
      invariant i < c && Before(PerCommittee(n, c), Remainder(n, c), i) < shard
      decreases c - i
    {
      i := i + 1;
    }
    forall j | 0 <= j < c && Group(n, c, j).Contains(shard) ensures j == i {
      if i < j {
        GroupsSplitEvenly(n, c, i, j);
      } else if j < i {
        GroupsSplitEvenly(n, c, j, i);
      }
    }
  }

  /** Walks the group boundaries upwards to the group of a shard, for two or more groups. */
  method WalkGroups(n: nat, c: nat, shardIndex: nat) returns (g: ShardGroup)
    requires 0 < c && shardIndex < n
    ensures g.Contains(shardIndex + 1) && IsGroup(n, c, g)
  {
    hide PerCommittee, Remainder;
    AllBefore(n, c);
    var perCommittee := PerCommittee(n, c);
    var remainder := Remainder(n, c);
    ghost var extra := remainder;
    var start := 0;
    var end := perCommittee;
    if remainder > 0 {
      end := end + 1;
    }
    ghost var i: nat := 0;
    while end <= shardIndex
      invariant i < c
      invariant remainder == if i <= extra then extra - i else 0
      invariant start == Before(perCommittee, extra, i) <= shardIndex
      invariant end == Before(perCommittee, extra, i + 1)
      decreases c - i
    {
      start := start + perCommittee;
      if remainder > 0 {
        start := start + 1;
        remainder := remainder - 1;
      }
      end := start + perCommittee;
      if remainder > 0 {
        end := end + 1;
      }
      i := i + 1;
    }
    g := ShardGroup(start + 1, end);
    assert g == Group(n, c, i);
  }

  lemma OneGroup(n: nat)
    ensures IsGroup(n, 1, ShardGroup(1, n))
  {
    hide PerCommittee, Remainder;
    AllBefore(n, 1);
    assert Group(n, 1, 0) == ShardGroup(1, n);
  }

  /** The group of an address. It is the one group of the split that contains the address's shard; there are never more
      groups than shards, and one group when there is no committee. */
  method ToShardGroup(a: Address, n: nat, committees: nat) returns (g: ShardGroup)
    requires a.Valid() && IsNumPreshards(n)
    ensures g.Contains(ToShard(a, n))
    ensures committees == 0 ==> g == ShardGroup(1, n)
    ensures 0 < committees ==> IsGroup(n, Min(committees, n), g)
  {
    hide ToShard, IsNumPreshards, IsGroup, Address.Valid;
    ToShardBounds(a, n);
    var c := Min(committees, n);
    if c <= 1 {
      OneGroup(n);
      return ShardGroup(1, n);
    }
    g := WalkGroups(n, c, ToShard(a, n) - 1);
  }

  ghost predicate IsGroup(n: nat, c: nat, g: ShardGroup)
    requires 0 < c
  {
    exists i :: 0 <= i < c && g == Group(n, c, i)
  }
}
