/** The command line's store of component versions, filled from execution diffs. Models
    applications/tari_validator_node_cli/src/component_manager.rs. */
module ComponentStore {
  import opened Wrappers

  datatype Kind = Component | Resource | TransactionReceipt | Vault | NonFungible | Unexpected

  datatype SubstateId = SubstateId(kind: Kind, name: string)

  /** A substate at a version: an entry of the diff, and a child in a record. */
  datatype Versioned = Versioned(id: SubstateId, version: nat)

  datatype Record = Record(root: Versioned, children: seq<Versioned>)

  /** The versions saved for every component, oldest first. */
  type Records = map<SubstateId, seq<(nat, seq<Versioned>)>>

  datatype Outcome = Committed | Panicked

  // ---- Grouping ----

  /** Where the pass over a diff stands: the records already saved, the component not yet saved and the children
      collected for it. */
  datatype Pass = Pass(saved: seq<Record>, component: Option<Versioned>, children: seq<Versioned>)

  function Scan(ups: seq<Versioned>): Pass {
    if ups == [] then Pass([], None, [])
    else
      var before, up := Scan(ups[..|ups| - 1]), ups[|ups| - 1];
      if up.id.kind != Component then before.(children := before.children + [up])
      else if before.component.None? then before.(component := Some(up))
      else Pass(before.saved + [Record(before.component.value, before.children)], Some(up), [])
  }

  /** The records a diff of the handled kinds gives. */
  function Grouped(ups: seq<Versioned>): seq<Record> {
    var pass := Scan(ups);
    if pass.component.None? then [] else pass.saved + [Record(pass.component.value, pass.children)]
  }

  function ComponentsOf(ups: seq<Versioned>): seq<Versioned> {
    if ups == [] then []
    else ComponentsOf(ups[..|ups| - 1]) + if ups[|ups| - 1].id.kind == Component then [ups[|ups| - 1]] else []
  }

  function OthersOf(ups: seq<Versioned>): seq<Versioned> {
    if ups == [] then []
    else OthersOf(ups[..|ups| - 1]) + if ups[|ups| - 1].id.kind == Component then [] else [ups[|ups| - 1]]
  }

  function RootsOf(records: seq<Record>): seq<Versioned> {
    if records == [] then [] else RootsOf(records[..|records| - 1]) + [records[|records| - 1].root]
  }

  function ChildrenOf(records: seq<Record>): seq<Versioned> {
    if records == [] then [] else ChildrenOf(records[..|records| - 1]) + records[|records| - 1].children
  }

  lemma OneMoreRecord(records: seq<Record>, record: Record)
    ensures RootsOf(records + [record]) == RootsOf(records) + [record.root]
    ensures ChildrenOf(records + [record]) == ChildrenOf(records) + record.children
  {
    assert (records + [record])[..|records|] == records;
  }

  lemma {:induction false} ScanAccounts(ups: seq<Versioned>)
    ensures var pass := Scan(ups);
            && RootsOf(pass.saved) + (if pass.component.Some? then [pass.component.value] else []) == ComponentsOf(ups)
            && ChildrenOf(pass.saved) + pass.children == OthersOf(ups)
            && (pass.component.None? ==> pass.saved == [])
  {
    if ups != [] {
      ScanAccounts(ups[..|ups| - 1]);
      var before := Scan(ups[..|ups| - 1]);
      if before.component.Some? {
        OneMoreRecord(before.saved, Record(before.component.value, before.children));
      }
    }
  }

  /** One record per component occurrence, in order; when there is a component, the child lists concatenate to all other
      entries in order, and otherwise those entries are dropped. */
  lemma GroupingAccounts(ups: seq<Versioned>)
    ensures RootsOf(Grouped(ups)) == ComponentsOf(ups)
    ensures ComponentsOf(ups) != [] ==> ChildrenOf(Grouped(ups)) == OthersOf(ups)
    ensures ComponentsOf(ups) == [] ==> Grouped(ups) == []
  {
    ScanAccounts(ups);
    var pass := Scan(ups);
    if pass.component.Some? {
      OneMoreRecord(pass.saved, Record(pass.component.value, pass.children));
    }
  }

  lemma {:induction false} ScanSplits(a: seq<Versioned>, c: Versioned, b: seq<Versioned>)
    requires ComponentsOf(a) != [] && c.id.kind == Component
    ensures var whole, rest := Scan(a + [c] + b), Scan([c] + b);
            && whole.saved == Grouped(a) + rest.saved
            && whole.component == rest.component && rest.component.Some?
            && whole.children == rest.children
    decreases |b|
  {
    if b == [] {
      assert (a + [c] + b)[..|a|] == a;
      assert a + [c] + b == a + [c];
      assert [c] + b == [c] && [c][..0] == [];
      GroupingAccounts(a);
    } else {
      var init, last := b[..|b| - 1], b[|b| - 1];
      ScanSplits(a, c, init);
      assert (a + [c] + b)[..|a + [c] + b| - 1] == a + [c] + init;
      assert ([c] + b)[..|[c] + b| - 1] == [c] + init;
    }
  }

  /** A component starts a new group: what follows it never changes the records of an earlier component. */
  lemma GroupingSplits(a: seq<Versioned>, c: Versioned, b: seq<Versioned>)
    requires ComponentsOf(a) != [] && c.id.kind == Component
    ensures Grouped(a + [c] + b) == Grouped(a) + Grouped([c] + b)
  {
    ScanSplits(a, c, b);
  }

  lemma {:induction false} ScanSingle(a: seq<Versioned>, c: Versioned, b: seq<Versioned>)
    requires ComponentsOf(a) == [] && ComponentsOf(b) == [] && c.id.kind == Component
    ensures Scan(a + [c] + b) == Pass([], Some(c), OthersOf(a) + OthersOf(b))
    decreases |b|
  {
    if b == [] {
      assert (a + [c] + b)[..|a|] == a;
      assert a + [c] + b == a + [c];
      ScanAccounts(a);
    } else {
      var init, last := b[..|b| - 1], b[|b| - 1];
      ScanSingle(a, c, init);
      assert (a + [c] + b)[..|a + [c] + b| - 1] == a + [c] + init;
      assert last.id.kind != Component && ComponentsOf(init) == [];
      assert OthersOf(a) + OthersOf(init) + [last] == OthersOf(a) + OthersOf(b);
    }
  }

  /** A single component takes all other entries, those before it included. */
  lemma SingleComponentTakesAll(a: seq<Versioned>, c: Versioned, b: seq<Versioned>)
    requires ComponentsOf(a) == [] && ComponentsOf(b) == [] && c.id.kind == Component
    ensures Grouped(a + [c] + b) == [Record(c, OthersOf(a) + OthersOf(b))]
  {
    ScanSingle(a, c, b);
  }

  // ---- The store ----

  function VersionsOf(records: Records, id: SubstateId): seq<(nat, seq<Versioned>)> {
    if id in records then records[id] else []
  }

  /** The store after saving the records in order. */
  function Saved(records: Records, added: seq<Record>): Records {
    if added == [] then records
    else
      var before, last := Saved(records, added[..|added| - 1]), added[|added| - 1];
      before[last.root.id := VersionsOf(before, last.root.id) + [(last.root.version, last.children)]]
  }

  /** The versions among the records that belong to a component. */
  function VersionsIn(added: seq<Record>, id: SubstateId): seq<(nat, seq<Versioned>)> {
    if added == [] then []
    else
      var last := added[|added| - 1];
      VersionsIn(added[..|added| - 1], id) + if last.root.id == id then [(last.root.version, last.children)] else []
  }

  /** Saving appends to every component its versions in order, and leaves all other components alone. */
  lemma {:induction false} SavedAppends(records: Records, added: seq<Record>, id: SubstateId)
    ensures VersionsOf(Saved(records, added), id) == VersionsOf(records, id) + VersionsIn(added, id)
    ensures VersionsIn(added, id) == [] ==> (id in Saved(records, added) <==> id in records)
  {
    if added != [] {
      SavedAppends(records, added[..|added| - 1], id);
    }
  }

  /** The last entry of a component in a diff. */
  function LastOf(ups: seq<Versioned>, id: SubstateId): Option<Versioned> {
    if ups == [] then None
    else if ups[|ups| - 1].id == id then Some(ups[|ups| - 1])
    else LastOf(ups[..|ups| - 1], id)
  }

  lemma {:induction false} LastOfComponents(ups: seq<Versioned>, id: SubstateId)
    requires id.kind == Component
    ensures LastOf(ComponentsOf(ups), id) == LastOf(ups, id)
  {
    if ups != [] {
      LastOfComponents(ups[..|ups| - 1], id);
      var components := ComponentsOf(ups[..|ups| - 1]);
      if ups[|ups| - 1].id.kind == Component {
        assert (components + [ups[|ups| - 1]])[..|components|] == components;
      } else {
        assert ComponentsOf(ups) == components;
      }
    }
  }

  lemma {:induction false} LastOfRoots(added: seq<Record>, id: SubstateId)
    ensures LastOf(RootsOf(added), id) == None <==> VersionsIn(added, id) == []
    ensures VersionsIn(added, id) != [] ==>
              LastOf(RootsOf(added), id) == Some(Versioned(id, VersionsIn(added, id)[|VersionsIn(added, id)| - 1].0))
  {
    if added != [] {
      var init := added[..|added| - 1];
      LastOfRoots(init, id);
      assert (RootsOf(init) + [added[|added| - 1].root])[..|RootsOf(init)|] == RootsOf(init);
    }
  }

  function LatestVersion(versions: seq<(nat, seq<Versioned>)>): nat
    requires versions != []
  {
    versions[|versions| - 1].0
  }

  /** After a diff is saved, the latest version of each of its components is the component's last version in the diff;
      the versions saved before are still there, and components not in the diff are unchanged. */
  lemma LatestIsLastInDiff(records: Records, ups: seq<Versioned>, id: SubstateId)
    requires id.kind == Component
    ensures var (was, now) := (VersionsOf(records, id), VersionsOf(Saved(records, Grouped(ups)), id));
            match LastOf(ups, id) {
              case None => now == was
              case Some(last) => |was| < |now| && now[..|was|] == was && LatestVersion(now) == last.version
            }
  {
    SavedAppends(records, Grouped(ups), id);
    GroupingAccounts(ups);
    LastOfComponents(ups, id);
    LastOfRoots(Grouped(ups), id);
  }

  predicate Handled(ups: seq<Versioned>) {
    forall i :: 0 <= i < |ups| ==> ups[i].id.kind != Unexpected
  }

  /** The longest prefix without an entry of an unexpected kind. */
  function HandledPrefix(ups: seq<Versioned>): (p: seq<Versioned>)
    ensures p <= ups && Handled(p) && (|p| < |ups| ==> ups[|p|].id.kind == Unexpected)
  {
    if ups == [] || ups[0].id.kind == Unexpected then []
    else
      assert ups == [ups[0]] + ups[1..];
      [ups[0]] + HandledPrefix(ups[1..])
  }

  class ComponentManager {
    var records: Records

    constructor (records: Records)
      ensures this.records == records
    {
      this.records := records;
    }

    method AddRootSubstate(root: Versioned, children: seq<Versioned>)
      modifies this
      ensures records == Saved(old(records), [Record(root, children)])
    {
      assert [Record(root, children)][..0] == [];
      if root.id in records {
        records := records[root.id := records[root.id] + [(root.version, children)]];
      } else {
        assert VersionsOf(records, root.id) + [(root.version, children)] == [(root.version, children)];
        records := records[root.id := [(root.version, children)]];
      }
    }

    /** Saves the groups of a diff. At an entry of an unexpected kind the pass aborts, and what is saved by then are the
        groups of the entries before it except the one still open. */
    method CommitDiff(ups: seq<Versioned>) returns (outcome: Outcome)
      modifies this
      ensures outcome == Committed <==> Handled(ups)
      ensures outcome == Committed ==> records == Saved(old(records), Grouped(ups))
      ensures outcome == Panicked ==> records == Saved(old(records), Scan(HandledPrefix(ups)).saved)
    {
      var component: Option<Versioned> := None;
      var children: seq<Versioned> := [];
      for i := 0 to |ups|
        invariant Handled(ups[..i])
        invariant Scan(ups[..i]).component == component && Scan(ups[..i]).children == children
        invariant records == Saved(old(records), Scan(ups[..i]).saved)
      {
        ghost var saved := Scan(ups[..i]).saved;
        assert ups[..i + 1][..i] == ups[..i];
        match ups[i].id.kind {
          case Component =>
            if component.Some? {
              SavedOneMore(old(records), saved, Record(component.value, children));
              AddRootSubstate(component.value, children);
              children := [];
            }
            component := Some(ups[i]);
          case Resource | TransactionReceipt | Vault | NonFungible =>
            children := children + [ups[i]];
          case Unexpected =>
            PrefixIs(ups, i);
            return Panicked;
        }
      }
      assert ups[..|ups|] == ups;
      if component.Some? {
        SavedOneMore(old(records), Scan(ups).saved, Record(component.value, children));
        AddRootSubstate(component.value, children);
      } else {
        ScanAccounts(ups);
      }
      outcome := Committed;
    }
  }

  lemma SavedOneMore(records: Records, added: seq<Record>, record: Record)
    ensures Saved(records, added + [record]) == Saved(Saved(records, added), [record])
  {
    assert (added + [record])[..|added|] == added;
    assert [record][..0] == [];
  }

  lemma PrefixIs(ups: seq<Versioned>, i: nat)
    requires i < |ups| && Handled(ups[..i]) && ups[i].id.kind == Unexpected
    ensures HandledPrefix(ups) == ups[..i]
  {
    var p := HandledPrefix(ups);
    assert forall j :: 0 <= j < i ==> ups[..i][j] == ups[j];
    assert forall j :: 0 <= j < i ==> ups[j].id.kind != Unexpected;
    assert forall j :: 0 <= j < |p| ==> p[j] == ups[j];
    assert forall j :: 0 <= j < |p| ==> ups[j].id.kind != Unexpected;
  }
}
