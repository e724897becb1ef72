/** The substate locks derived from an execution, and what they buy: transactions whose locks do not conflict
    can run in any order. Models applications/tari_app_utilities/src/transaction_executor.rs. */
module SubstateLocks {
  import opened Wrappers

  type SubstateId = string

  datatype Substate = Substate(version: nat, value: string)

  /** Live substates by id. */
  type Store = map<SubstateId, Substate>

  /** What an accepted execution changes: substates it takes down and substates it brings up. */
  datatype Diff = Diff(down: seq<(SubstateId, nat)>, up: seq<(SubstateId, Substate)>)

  datatype Requirement = Requirement(id: SubstateId, version: Option<nat>)

  datatype LockType = Read | Write

  datatype LockIntent = LockIntent(id: SubstateId, version: nat, lock: LockType, requestedSpecificVersion: bool)

  predicate Downs(d: Diff, id: SubstateId) {
    exists i :: 0 <= i < |d.down| && d.down[i].0 == id
  }

  predicate Ups(d: Diff, id: SubstateId) {
    exists i :: 0 <= i < |d.up| && d.up[i].0 == id
  }

  predicate Touches(d: Diff, id: SubstateId) {
    Downs(d, id) || Ups(d, id)
  }

  /** One lock per input, in order: `Write` for every input the accepted diff downs and `Read` for the others;
      all `Read` for a rejected execution. */
  function ResolveInputLocks(accepted: Option<Diff>, inputs: seq<(Requirement, Substate)>): (locks: seq<LockIntent>)
    ensures |locks| == |inputs|
    ensures forall i :: 0 <= i < |inputs| ==> locks[i].id == inputs[i].0.id && locks[i].version == inputs[i].1.version
    ensures forall i :: 0 <= i < |inputs| ==> (locks[i].lock == Write <==> accepted.Some? && Downs(accepted.value, inputs[i].0.id))
    ensures forall i :: 0 <= i < |inputs| ==>
              (locks[i].requestedSpecificVersion <==> accepted.None? || inputs[i].0.version.Some?)
  {
    seq(|inputs|, i requires 0 <= i < |inputs| =>
      var (req, substate) := inputs[i];
      if accepted.Some? then
        LockIntent(req.id, substate.version, if Downs(accepted.value, req.id) then Write else Read, req.version.Some?)
      else
        LockIntent(req.id, substate.version, Read, true))
  }

  // ---- Applying diffs ----

  function Bring(s: Store, up: seq<(SubstateId, Substate)>): Store {
    if up == [] then s
    else
      var last := up[|up| - 1];
      Bring(s, up[..|up| - 1])[last.0 := last.1]
  }

  /** Takes the downed substates out of the store, then brings the upped ones in, in order. */
  ghost function Apply(d: Diff, s: Store): Store {
    Bring(s - (set i | 0 <= i < |d.down| :: d.down[i].0), d.up)
  }

  function Lookup(s: Store, id: SubstateId): Option<Substate> {
    if id in s then Some(s[id]) else None
  }

  lemma SameLookups(s: Store, s': Store)
    requires forall id :: Lookup(s, id) == Lookup(s', id)
    ensures s == s'
  {
    forall id ensures id in s <==> id in s' {
      assert Lookup(s, id) == Lookup(s', id);
    }
    forall id | id in s ensures s[id] == s'[id] {
      assert Lookup(s, id) == Lookup(s', id);
    }
  }

  lemma {:induction false} BringIsLocal(s: Store, s': Store, up: seq<(SubstateId, Substate)>, id: SubstateId)
    ensures (exists i :: 0 <= i < |up| && up[i].0 == id) || Lookup(s, id) == Lookup(s', id) ==>
              Lookup(Bring(s, up), id) == Lookup(Bring(s', up), id)
    ensures !(exists i :: 0 <= i < |up| && up[i].0 == id) ==> Lookup(Bring(s, up), id) == Lookup(s, id)
  {
    if up != [] {
      var init := up[..|up| - 1];
      BringIsLocal(s, s', init, id);
      assert forall i :: 0 <= i < |init| ==> init[i] == up[i];
      if exists i :: 0 <= i < |up| && up[i].0 == id {
        var i :| 0 <= i < |up| && up[i].0 == id;
        assert i < |init| ==> init[i].0 == id;
      }
    }
  }

  /** A diff decides the substates it touches whatever the store was, and leaves all others alone. */
  lemma ApplyIsLocal(d: Diff, s: Store, s': Store, id: SubstateId)
    ensures Touches(d, id) ==> Lookup(Apply(d, s), id) == Lookup(Apply(d, s'), id)
    ensures !Touches(d, id) ==> Lookup(Apply(d, s), id) == Lookup(s, id)
  {
    var gone := set i | 0 <= i < |d.down| :: d.down[i].0;
    assert id in gone <==> Downs(d, id);
    BringIsLocal(s - gone, s' - gone, d.up, id);
  }

  lemma {:induction false} BringsLast(s: Store, up: seq<(SubstateId, Substate)>, i: nat)
    requires i < |up| && forall j :: i < j < |up| ==> up[j].0 != up[i].0
    ensures Lookup(Bring(s, up), up[i].0) == Some(up[i].1)
  {
    if i < |up| - 1 {
      BringsLast(s, up[..|up| - 1], i);
    }
  }

  /** After a diff, an upped substate is the last one upped, and one that is only downed is gone. */
  lemma ApplyDecides(d: Diff, s: Store, id: SubstateId)
    ensures forall i :: 0 <= i < |d.up| && d.up[i].0 == id && (forall j :: i < j < |d.up| ==> d.up[j].0 != id) ==>
              Lookup(Apply(d, s), id) == Some(d.up[i].1)
    ensures Downs(d, id) && !Ups(d, id) ==> Lookup(Apply(d, s), id) == None
  {
    var gone := set i | 0 <= i < |d.down| :: d.down[i].0;
    assert id in gone <==> Downs(d, id);
    BringIsLocal(s - gone, s - gone, d.up, id);
    forall i | 0 <= i < |d.up| && d.up[i].0 == id && (forall j :: i < j < |d.up| ==> d.up[j].0 != id)
      ensures Lookup(Apply(d, s), id) == Some(d.up[i].1)
    {
      BringsLast(s - gone, d.up, i);
    }
  }

  // ---- Transactions ----

  /** A transaction: its declared inputs, and its execution as a function of the input substates alone; `None` when
      the execution is rejected. */
  datatype Transaction = Transaction(inputs: seq<Requirement>, execute: map<SubstateId, Substate> -> Option<Diff>)

  ghost predicate Reads(t: Transaction, id: SubstateId) {
    exists i :: 0 <= i < |t.inputs| && t.inputs[i].id == id
  }

  ghost function InputsFrom(t: Transaction, s: Store): map<SubstateId, Substate> {
    map id | id in s && Reads(t, id) :: s[id]
  }

  ghost function Outcome(t: Transaction, s: Store): Option<Diff> {
    t.execute(InputsFrom(t, s))
  }

  ghost predicate Changes(t: Transaction, s: Store, id: SubstateId) {
    Outcome(t, s).Some? && Touches(Outcome(t, s).value, id)
  }

  ghost predicate InputsLive(t: Transaction, s: Store) {
    forall i :: 0 <= i < |t.inputs| ==> t.inputs[i].id in s
  }

  /** The inputs with the substates they resolve to. */
  ghost function Resolved(t: Transaction, s: Store): (inputs: seq<(Requirement, Substate)>)
    requires InputsLive(t, s)
    ensures |inputs| == |t.inputs| && forall i :: 0 <= i < |inputs| ==> inputs[i] == (t.inputs[i], s[t.inputs[i].id])
  {
    seq(|t.inputs|, i requires 0 <= i < |t.inputs| => (t.inputs[i], s[t.inputs[i].id]))
  }

  /** The locks the transaction's execution in a store resolves to. */
  ghost function Locks(t: Transaction, s: Store): seq<LockIntent>
    requires InputsLive(t, s)
  {
    ResolveInputLocks(Outcome(t, s), Resolved(t, s))
  }

  /** An execution downs only its own inputs, and replaces an input only by downing it. */
  ghost predicate Disciplined(t: Transaction, s: Store) {
    forall id :: Changes(t, s, id) ==>
      var d := Outcome(t, s).value;
      (Downs(d, id) ==> Reads(t, id)) && (Reads(t, id) ==> Downs(d, id))
  }

  /** The two lock lists share no id on which either side has a write lock. */
  ghost predicate LocksCompatible(a: seq<LockIntent>, b: seq<LockIntent>) {
    forall i, j :: 0 <= i < |a| && 0 <= j < |b| && a[i].id == b[j].id ==> a[i].lock == Read && b[j].lock == Read
  }

  /** The substates the first transaction creates are neither inputs nor outputs of the second. */
  ghost predicate CreatesApart(t: Transaction, u: Transaction, s: Store) {
    forall id :: Changes(t, s, id) && !Reads(t, id) ==> !Reads(u, id) && !Changes(u, s, id)
  }

  ghost predicate Independent(t: Transaction, u: Transaction, s: Store) {
    && InputsLive(t, s) && InputsLive(u, s)
    && Disciplined(t, s) && Disciplined(u, s)
    && LocksCompatible(Locks(t, s), Locks(u, s))
    && CreatesApart(t, u, s) && CreatesApart(u, t, s)
  }

  /** Compatible locks mean that neither transaction changes what the other reads or changes. */
  lemma IndependentChangesApart(t: Transaction, u: Transaction, s: Store, id: SubstateId)
    requires Independent(t, u, s) && Changes(t, s, id)
    ensures !Reads(u, id) && !Changes(u, s, id)
  {
    if Reads(t, id) {
      var i :| 0 <= i < |t.inputs| && t.inputs[i].id == id;
      assert Locks(t, s)[i].lock == Write;
      assert forall j :: 0 <= j < |u.inputs| ==> Locks(u, s)[j].id == u.inputs[j].id;
    }
  }

  // ---- Orders ----

  /** Runs the listed transactions one after the other, each on the store the previous ones left. */
  ghost function Run(s: Store, ts: seq<Transaction>, order: seq<nat>): Store
    requires forall i :: 0 <= i < |order| ==> order[i] < |ts|
  {
    if order == [] then s
    else
      var before := Run(s, ts, order[..|order| - 1]);
      var outcome := Outcome(ts[order[|order| - 1]], before);
      if outcome.Some? then Apply(outcome.value, before) else before
  }

  ghost predicate IsOrder(order: seq<nat>, n: nat) {
    && (forall i :: 0 <= i < |order| ==> order[i] < n)
    && (forall i, j :: 0 <= i < j < |order| ==> order[i] != order[j])
  }

  ghost predicate AllIndependent(ts: seq<Transaction>, s: Store) {
    && (forall i :: 0 <= i < |ts| ==> InputsLive(ts[i], s) && Disciplined(ts[i], s))
    && (forall i, j :: 0 <= i < |ts| && 0 <= j < |ts| && i != j ==> Independent(ts[i], ts[j], s))
  }

  /** What an order makes of a substate: what the one listed transaction that changes it makes of it in the original store,
      or nothing when no listed transaction changes it. */
  ghost predicate Pointwise(s: Store, ts: seq<Transaction>, order: seq<nat>, after: Store, id: SubstateId)
    requires forall i :: 0 <= i < |order| ==> order[i] < |ts|
  {
    && (forall i :: 0 <= i < |order| && Changes(ts[order[i]], s, id) ==>
          Lookup(after, id) == Lookup(Apply(Outcome(ts[order[i]], s).value, s), id))
    && ((forall i :: 0 <= i < |order| ==> !Changes(ts[order[i]], s, id)) ==> Lookup(after, id) == Lookup(s, id))
  }

  lemma PointwiseExtends(s: Store, ts: seq<Transaction>, order: seq<nat>, before: Store, after: Store, id: SubstateId)
    requires order != [] && forall i :: 0 <= i < |order| ==> order[i] < |ts|
    requires var init, k := order[..|order| - 1], order[|order| - 1];
             && Pointwise(s, ts, init, before, id)
             && (Changes(ts[k], s, id) ==> Lookup(after, id) == Lookup(Apply(Outcome(ts[k], s).value, s), id))
             && (!Changes(ts[k], s, id) ==> Lookup(after, id) == Lookup(before, id))
             && (forall i :: 0 <= i < |init| && Changes(ts[init[i]], s, id) ==> !Changes(ts[k], s, id))
    ensures Pointwise(s, ts, order, after, id)
  {
    hide Changes, Apply, Outcome, Lookup;
    var init := order[..|order| - 1];
    assert forall i :: 0 <= i < |init| ==> init[i] == order[i];
  }

  lemma OneStep(s: Store, before: Store, t: Transaction, id: SubstateId)
    requires Outcome(t, before) == Outcome(t, s)
    ensures var after := if Outcome(t, before).Some? then Apply(Outcome(t, before).value, before) else before;
            && (Changes(t, s, id) ==> Lookup(after, id) == Lookup(Apply(Outcome(t, s).value, s), id))
            && (!Changes(t, s, id) ==> Lookup(after, id) == Lookup(before, id))
  {
    hide Outcome, Apply, Lookup;
    if Outcome(t, s).Some? {
      ApplyIsLocal(Outcome(t, s).value, before, s, id);
    }
  }

  /** In every order, every substate is what the one listed transaction that changes it makes of it. */
  lemma {:induction false} RunIsPointwise(s: Store, ts: seq<Transaction>, order: seq<nat>, id: SubstateId)
    requires AllIndependent(ts, s) && IsOrder(order, |ts|)
    ensures Pointwise(s, ts, order, Run(s, ts, order), id)
    decreases |order|, 0
  {
    if order != [] {
      hide Changes, Apply, Outcome, Lookup, Pointwise, Independent, InputsFrom, InputsLive, Locks;
      var init, k := order[..|order| - 1], order[|order| - 1];
      var before := Run(s, ts, init);
      RunIsPointwise(s, ts, init, id);
      ExecutesAsAlone(s, ts, init, k);
      OneStep(s, before, ts[k], id);
      forall i | 0 <= i < |init| && Changes(ts[init[i]], s, id) ensures !Changes(ts[k], s, id) {
        IndependentChangesApart(ts[init[i]], ts[k], s, id);
      }
      PointwiseExtends(s, ts, order, before, Run(s, ts, order), id);
    }
  }

  /** A transaction whose inputs are the same in two stores has the same outcome and locks in both. */
  lemma SameInputs(t: Transaction, s: Store, s': Store)
    requires InputsLive(t, s) && forall id :: Reads(t, id) ==> Lookup(s', id) == Lookup(s, id)
    ensures InputsFrom(t, s') == InputsFrom(t, s) && Outcome(t, s') == Outcome(t, s)
    ensures InputsLive(t, s') && Locks(t, s') == Locks(t, s)
  {
    forall i | 0 <= i < |t.inputs| ensures t.inputs[i].id in s' && s'[t.inputs[i].id] == s[t.inputs[i].id] {
      assert Reads(t, t.inputs[i].id);
    }
    forall id | Reads(t, id) ensures (id in s' <==> id in s) && (id in s ==> s'[id] == s[id]) {
      assert Lookup(s', id) == Lookup(s, id);
    }
    assert InputsFrom(t, s') == InputsFrom(t, s);
    assert Resolved(t, s') == Resolved(t, s);
  }

  /** Whatever independent transactions ran before it, a transaction sees the same inputs at the same versions, has the
      same outcome and resolves to the same locks as in the original store. */
  lemma {:induction false} ExecutesAsAlone(s: Store, ts: seq<Transaction>, order: seq<nat>, k: nat)
    requires AllIndependent(ts, s) && IsOrder(order, |ts|) && k < |ts| && k !in order
    ensures InputsFrom(ts[k], Run(s, ts, order)) == InputsFrom(ts[k], s)
    ensures Outcome(ts[k], Run(s, ts, order)) == Outcome(ts[k], s)
    ensures InputsLive(ts[k], Run(s, ts, order)) && Locks(ts[k], Run(s, ts, order)) == Locks(ts[k], s)
    decreases |order|, 1
  {
    hide Changes, Apply, Outcome, Independent, InputsFrom, InputsLive, Locks, Run, Lookup;
    var after := Run(s, ts, order);
    forall id | Reads(ts[k], id) ensures Lookup(after, id) == Lookup(s, id) {
      forall i | 0 <= i < |order| ensures !Changes(ts[order[i]], s, id) {
        if Changes(ts[order[i]], s, id) {
          IndependentChangesApart(ts[order[i]], ts[k], s, id);
        }
      }
      RunIsPointwise(s, ts, order, id);
    }
    SameInputs(ts[k], s, after);
  }

  /** Serialisability: all orders of the same independent transactions lead to the same store. */
  lemma OrderIsImmaterial(s: Store, ts: seq<Transaction>, order: seq<nat>, order': seq<nat>)
    requires AllIndependent(ts, s) && IsOrder(order, |ts|) && IsOrder(order', |ts|)
    requires forall k :: k in order <==> k in order'
    ensures Run(s, ts, order) == Run(s, ts, order')
  {
    hide Run, AllIndependent;
    var a, b := Run(s, ts, order), Run(s, ts, order');
    forall id ensures Lookup(a, id) == Lookup(b, id) {
      RunIsPointwise(s, ts, order, id);
      RunIsPointwise(s, ts, order', id);
      SameListSameResult(s, ts, order, order', a, b, id);
    }
    SameLookups(a, b);
  }

  lemma SameListSameResult(s: Store, ts: seq<Transaction>, order: seq<nat>, order': seq<nat>, a: Store, b: Store, id: SubstateId)
    requires IsOrder(order, |ts|) && IsOrder(order', |ts|) && forall k :: k in order <==> k in order'
    requires Pointwise(s, ts, order, a, id) && Pointwise(s, ts, order', b, id)
    ensures Lookup(a, id) == Lookup(b, id)
  {
    hide Changes, Apply, Outcome, Lookup;
    if i :| 0 <= i < |order| && Changes(ts[order[i]], s, id) {
      assert order[i] in order';
      var j :| 0 <= j < |order'| && order'[j] == order[i];
    } else {
      forall j | 0 <= j < |order'| ensures !Changes(ts[order'[j]], s, id) {
        assert order'[j] in order;
        var i :| 0 <= i < |order| && order[i] == order'[j];
      }
    }
  }
}
