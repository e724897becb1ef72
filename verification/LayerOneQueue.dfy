/** The watcher's queue of layer-one transactions: files waiting in a directory are submitted and moved to a
    `complete` or `failed` directory. Models applications/tari_watcher/src/transaction_worker.rs. */
module LayerOneQueues {

  type Name = string

  datatype File = File(isFile: bool, isJson: bool, content: string)

  /** One call of `submit_transaction`: the file its transaction came from and whether it succeeded. */
  datatype Submission = Submission(name: Name, ok: bool)

  datatype Dirs = Dirs(
    pending: map<Name, File>,
    complete: map<Name, File>,
    failed: map<Name, File>,
    submissions: seq<Submission>)

  /** How the I/O on one listed entry turns out. */
  datatype Outcome = Outcome(entryRead: bool, typeRead: bool, canOpen: bool, parsed: bool, submitted: bool, renamed: bool)

  /** One turn of the worker: files that arrived since the last one, whether the directories could be prepared and
      listed, and the listing with the outcomes of its entries. */
  datatype Round = Round(arrivals: map<Name, File>, listed: bool, listing: seq<(Name, Outcome)>)

  /** The three directories hold exactly the given files. */
  ghost predicate Holds(d: Dirs, files: map<Name, File>) {
    && d.pending.Keys + d.complete.Keys + d.failed.Keys == files.Keys
    && (forall n :: n in d.pending ==> d.pending[n] == files[n])
    && (forall n :: n in d.complete ==> d.complete[n] == files[n])
    && (forall n :: n in d.failed ==> d.failed[n] == files[n])
  }

  /** Every file is in exactly one directory. */
  ghost predicate Disjoint(d: Dirs) {
    d.pending.Keys !! d.complete.Keys && d.pending.Keys !! d.failed.Keys && d.complete.Keys !! d.failed.Keys
  }

  /** The submission's file was moved to the directory its result calls for. */
  ghost predicate Filed(d: Dirs, s: Submission) {
    if s.ok then s.name in d.complete else s.name in d.failed
  }

  /** What holds of the directories since a state `base` without submissions. While the worker is running every
      submission is filed; if it stopped, the last one may still be pending. */
  ghost predicate Accounted(base: Dirs, d: Dirs, running: bool) {
    && Disjoint(d)
    && (forall i, j :: 0 <= i < j < |d.submissions| ==> d.submissions[i].name != d.submissions[j].name)
    && (forall i :: 0 <= i < |d.submissions| ==>
          Filed(d, d.submissions[i]) ||
          (!running && i == |d.submissions| - 1 && d.submissions[i].name in d.pending))
    && (forall n :: n in d.complete && n !in base.complete ==> Submission(n, true) in d.submissions)
    && (forall n :: n in d.failed && n !in base.failed ==> Submission(n, true) !in d.submissions)
    && base.complete.Keys <= d.complete.Keys && base.failed.Keys <= d.failed.Keys
    && (forall i :: 0 <= i < |d.submissions| ==> d.submissions[i].name !in base.complete && d.submissions[i].name !in base.failed)
  }

  // ---- The effect of single operations ----

  ghost function Submitting(d: Dirs, name: Name, ok: bool): Dirs {
    d.(submissions := d.submissions + [Submission(name, ok)])
  }

  /** The state after a pending file is renamed into `complete` or `failed`. */
  ghost function Moved(d: Dirs, name: Name, toComplete: bool): Dirs
    requires name in d.pending
  {
    var left := d.(pending := d.pending - {name});
    if toComplete then left.(complete := d.complete[name := d.pending[name]])
    else left.(failed := d.failed[name := d.pending[name]])
  }

  lemma MovingKeepsFiles(d: Dirs, name: Name, toComplete: bool, files: map<Name, File>)
    requires Holds(d, files) && name in d.pending
    ensures Holds(Moved(d, name, toComplete), files)
  {
    var d' := Moved(d, name, toComplete);
    assert d'.pending.Keys + d'.complete.Keys + d'.failed.Keys == d.pending.Keys + d.complete.Keys + d.failed.Keys;
  }

  lemma StoppingIsAccounted(base: Dirs, d: Dirs)
    requires Accounted(base, d, true)
    ensures Accounted(base, d, false)
  {
  }

  /** Submitting a pending file's transaction is its first submission; until the rename it is only pending. */
  lemma SubmittingIsAccounted(base: Dirs, d: Dirs, name: Name, ok: bool)
    requires Accounted(base, d, true) && name in d.pending && name !in base.complete && name !in base.failed
    ensures Accounted(base, Submitting(d, name, ok), false)
  {
  }

  lemma FilingIsAccounted(base: Dirs, d: Dirs, name: Name, ok: bool)
    requires Accounted(base, d, true) && name in d.pending && name !in base.complete && name !in base.failed
    ensures Accounted(base, Moved(Submitting(d, name, ok), name, ok), true)
  {
    var d' := Moved(Submitting(d, name, ok), name, ok);
    assert d'.submissions[|d.submissions|] == Submission(name, ok);
    assert forall s :: s in d.submissions ==> s in d'.submissions;
  }

  lemma DiscardingIsAccounted(base: Dirs, d: Dirs, name: Name)
    requires Accounted(base, d, true) && name in d.pending && name !in base.complete && name !in base.failed
    ensures Accounted(base, Moved(d, name, false), true)
  {
  }

  lemma PendingIsNew(base: Dirs, d: Dirs, name: Name)
    requires Accounted(base, d, true) && name in d.pending
    ensures name !in base.complete && name !in base.failed
  {
  }

  lemma SubmittingKeepsFiles(d: Dirs, name: Name, ok: bool, files: map<Name, File>)
    requires Holds(d, files)
    ensures Holds(Submitting(d, name, ok), files)
  {
  }

  // ---- What the worker does, as functions of the directories ----

  /** The directories after one listed entry is handled, and whether the pass goes on. */
  ghost function Handled(d: Dirs, name: Name, o: Outcome): (Dirs, bool) {
    if !o.entryRead then (d, false)
    else if name == "complete" || name == "failed" then (d, true)
    else if !o.typeRead then (d, false)
    else if name !in d.pending || !d.pending[name].isFile || !d.pending[name].isJson || !o.canOpen then (d, true)
    else if o.parsed then
      var submitted := Submitting(d, name, o.submitted);
      if o.renamed then (Moved(submitted, name, o.submitted), true) else (submitted, false)
    else if o.renamed then (Moved(d, name, false), true)
    else (d, false)
  }

  ghost function Passed(d: Dirs, listing: seq<(Name, Outcome)>): (Dirs, bool)
    decreases |listing|
  {
    if listing == [] then (d, true)
    else
      var (d', ok) := Handled(d, listing[0].0, listing[0].1);
      if ok then Passed(d', listing[1..]) else (d', false)
  }

  ghost function Arrived(d: Dirs, arrivals: map<Name, File>): Dirs {
    d.(pending := d.pending + arrivals)
  }

  /** The directories after the rounds, and whether the loop is still running; an I/O error ends it for good. */
  ghost function Looped(d: Dirs, rounds: seq<Round>): (Dirs, bool)
    decreases |rounds|
  {
    if rounds == [] then (d, true)
    else
      var d' := Arrived(d, rounds[0].arrivals);
      if !rounds[0].listed then (d', false)
      else
        var (d'', ok) := Passed(d', rounds[0].listing);
        if ok then Looped(d'', rounds[1..]) else (d'', false)
  }

  class LayerOneQueue {
    var pending: map<Name, File>
    var complete: map<Name, File>
    var failed: map<Name, File>
    var submissions: seq<Submission>

    function Contents(): Dirs
      reads this
    {
      Dirs(pending, complete, failed, submissions)
    }

    /** Renames a pending file into one of the two directories. */
    method Rename(name: Name, toComplete: bool)
      requires name in pending
      modifies this
      ensures Contents() == Moved(old(Contents()), name, toComplete)
    {
      if toComplete {
        complete := complete[name := pending[name]];
      } else {
        failed := failed[name := pending[name]];
      }
      pending := pending - {name};
    }

    /** Handles one listed entry; false when an I/O error ends the pass. */
    method HandleEntry(name: Name, o: Outcome) returns (ok: bool)
      modifies this
      ensures (Contents(), ok) == Handled(old(Contents()), name, o)
    {
      if !o.entryRead {
        return false;
      }
      if name == "complete" || name == "failed" {
        return true;
      }
      if !o.typeRead {
        return false;
      }
      if name !in pending || !pending[name].isFile || !pending[name].isJson || !o.canOpen {
        return true;
      }
      if o.parsed {
        submissions := submissions + [Submission(name, o.submitted)];
      }
      if !o.renamed {
        return false;
      }
      Rename(name, o.parsed && o.submitted);
      return true;
    }

    /** One pass over a directory listing. */
    method CheckAndSubmit(listing: seq<(Name, Outcome)>) returns (ok: bool)
      modifies this
      ensures (Contents(), ok) == Passed(old(Contents()), listing)
    {
      for i := 0 to |listing|
        invariant Passed(old(Contents()), listing) == Passed(Contents(), listing[i..])
      {
        assert listing[i..][0] == listing[i] && listing[i..][1..] == listing[i + 1..];
        ok := HandleEntry(listing[i].0, listing[i].1);
        if !ok {
          return;
        }
      }
      return true;
    }

    /** The endless loop, for as many rounds as are given. */
    method WorkerLoop(rounds: seq<Round>) returns (running: bool)
      modifies this
      ensures (Contents(), running) == Looped(old(Contents()), rounds)
    {
      for i := 0 to |rounds|
        invariant Looped(old(Contents()), rounds) == Looped(Contents(), rounds[i..])
      {
        assert rounds[i..][0] == rounds[i] && rounds[i..][1..] == rounds[i + 1..];
        pending := pending + rounds[i].arrivals;
        if !rounds[i].listed {
          return false;
        }
        running := CheckAndSubmit(rounds[i].listing);
        if !running {
          return;
        }
      }
      return true;
    }
  }

  // ---- What every run guarantees ----

  lemma HandledIsAccounted(base: Dirs, d: Dirs, name: Name, o: Outcome, files: map<Name, File>)
    requires Accounted(base, d, true) && Holds(d, files)
    ensures var (d', ok) := Handled(d, name, o); Accounted(base, d', ok) && Holds(d', files)
  {
    hide Accounted, Holds;
    StoppingIsAccounted(base, d);
    if name in d.pending {
      PendingIsNew(base, d, name);
      SubmittingIsAccounted(base, d, name, o.submitted);
      FilingIsAccounted(base, d, name, o.submitted);
      DiscardingIsAccounted(base, d, name);
      SubmittingKeepsFiles(d, name, o.submitted, files);
      MovingKeepsFiles(Submitting(d, name, o.submitted), name, o.submitted, files);
      MovingKeepsFiles(d, name, false, files);
    }
  }

  lemma {:induction false} PassedIsAccounted(base: Dirs, d: Dirs, listing: seq<(Name, Outcome)>, files: map<Name, File>)
    requires Accounted(base, d, true) && Holds(d, files)
    ensures var (d', ok) := Passed(d, listing); Accounted(base, d', ok) && Holds(d', files)
    decreases |listing|
  {
    hide Accounted, Holds, Handled;
    if listing != [] {
      HandledIsAccounted(base, d, listing[0].0, listing[0].1, files);
      var (d', ok) := Handled(d, listing[0].0, listing[0].1);
      if ok {
        PassedIsAccounted(base, d', listing[1..], files);
      }
    }
  }

  /** Newly named files only add to what is pending. */
  lemma ArrivalIsAccounted(base: Dirs, d: Dirs, arrivals: map<Name, File>, files: map<Name, File>)
    requires Accounted(base, d, true) && Holds(d, files) && arrivals.Keys !! files.Keys
    ensures Accounted(base, Arrived(d, arrivals), true)
  {
    var d' := Arrived(d, arrivals);
    assert d'.pending.Keys == d.pending.Keys + arrivals.Keys;
    assert d.complete.Keys <= files.Keys && d.failed.Keys <= files.Keys;
    assert Disjoint(d');
  }

  lemma ArrivalKeepsFiles(d: Dirs, arrivals: map<Name, File>, files: map<Name, File>)
    requires Holds(d, files) && arrivals.Keys !! files.Keys
    ensures Holds(Arrived(d, arrivals), files + arrivals)
  {
    var d' := Arrived(d, arrivals);
    assert d'.pending.Keys == d.pending.Keys + arrivals.Keys;
    assert d.complete.Keys <= files.Keys && d.failed.Keys <= files.Keys && d.pending.Keys <= files.Keys;
  }

  /** Every round's files have names that no earlier file had. */
  ghost predicate FreshNames(files: map<Name, File>, rounds: seq<Round>)
    decreases |rounds|
  {
    rounds == [] ||
    (rounds[0].arrivals.Keys !! files.Keys && FreshNames(files + rounds[0].arrivals, rounds[1..]))
  }

  lemma {:induction false} LoopedFrom(base: Dirs, d: Dirs, rounds: seq<Round>, files: map<Name, File>)
    returns (seen: map<Name, File>)
    requires Accounted(base, d, true) && Holds(d, files) && FreshNames(files, rounds)
    ensures var (d', running) := Looped(d, rounds); Accounted(base, d', running) && Holds(d', seen)
    ensures files.Keys <= seen.Keys && forall n :: n in files ==> seen[n] == files[n]
    decreases |rounds|
  {
    hide Accounted, Holds, Passed;
    seen := files;
    if rounds != [] {
      var d1 := Arrived(d, rounds[0].arrivals);
      var files1 := files + rounds[0].arrivals;
      ArrivalIsAccounted(base, d, rounds[0].arrivals, files);
      ArrivalKeepsFiles(d, rounds[0].arrivals, files);
      StoppingIsAccounted(base, d1);
      PassedIsAccounted(base, d1, rounds[0].listing, files1);
      var (d2, ok) := Passed(d1, rounds[0].listing);
      if rounds[0].listed && ok {
        seen := LoopedFrom(base, d2, rounds[1..], files1);
      } else {
        seen := files1;
      }
    }
  }

  /** Over any run from directories with distinct file names, with newly named arrivals and whatever the I/O does:
      no file is lost, changed or in two directories; no file's transaction is submitted twice; a file is newly in
      `complete` only if its submission succeeded; and a successful submission's file is in `complete`, unless it is the
      very last one of a run that a failed rename ended. */
  lemma QueueGuarantee(d: Dirs, rounds: seq<Round>, files: map<Name, File>) returns (seen: map<Name, File>)
    requires Disjoint(d) && d.submissions == [] && Holds(d, files) && FreshNames(files, rounds)
    ensures var (d', running) := Looped(d, rounds);
            && Disjoint(d') && Holds(d', seen)
            && (forall n :: n in files ==> n in seen && seen[n] == files[n])
            && (forall i, j :: 0 <= i < j < |d'.submissions| ==> d'.submissions[i].name != d'.submissions[j].name)
            && (forall n :: n in d'.complete && n !in d.complete ==> Submission(n, true) in d'.submissions)
            && (forall i :: 0 <= i < |d'.submissions| && d'.submissions[i].ok ==>
                  d'.submissions[i].name in d'.complete ||
                  (!running && i == |d'.submissions| - 1 && d'.submissions[i].name in d'.pending))
  {
    assert Accounted(d, d, true);
    seen := LoopedFrom(d, d, rounds, files);
  }

  // ---- What a pass does with what it lists ----

  /** The listed entry is one the pass submits or discards: a JSON file that is still there and can be opened. */
  ghost predicate Takes(d: Dirs, name: Name, o: Outcome) {
    && name != "complete" && name != "failed"
    && name in d.pending && d.pending[name].isFile && d.pending[name].isJson && o.canOpen
  }

  /** No I/O error ends the pass at the listed entry. */
  ghost predicate Works(d: Dirs, name: Name, o: Outcome) {
    && o.entryRead
    && (name == "complete" || name == "failed" || o.typeRead)
    && (Takes(d, name, o) ==> o.renamed)
  }

  /** The submissions a pass makes: one for each file it takes that parses, in the order of the listing. */
  ghost function Submitted(d: Dirs, listing: seq<(Name, Outcome)>): seq<Submission> {
    if listing == [] then []
    else
      var (name, o) := listing[0];
      (if Takes(d, name, o) && o.parsed then [Submission(name, o.submitted)] else []) + Submitted(d, listing[1..])
  }

  /** Where a listed file is after the pass: where its submission's result calls for, in `failed` if it does not parse, and
      still pending if the pass does not take it. */
  ghost predicate Settled(d: Dirs, d': Dirs, name: Name, o: Outcome) {
    name in d.pending ==>
      if !Takes(d, name, o) then name in d'.pending && d'.pending[name] == d.pending[name]
      else if o.parsed && o.submitted then name !in d'.pending && name in d'.complete && d'.complete[name] == d.pending[name]
      else name !in d'.pending && name in d'.failed && d'.failed[name] == d.pending[name]
  }

  /** Both directories hold the name alike. */
  ghost predicate SameAt(d: Dirs, d': Dirs, name: Name) {
    && (name in d.pending <==> name in d'.pending) && (name in d.pending ==> d.pending[name] == d'.pending[name])
    && (name in d.complete <==> name in d'.complete) && (name in d.complete ==> d.complete[name] == d'.complete[name])
    && (name in d.failed <==> name in d'.failed) && (name in d.failed ==> d.failed[name] == d'.failed[name])
  }

  ghost predicate Listed(listing: seq<(Name, Outcome)>, name: Name) {
    exists i :: 0 <= i < |listing| && listing[i].0 == name
  }

  ghost predicate NamesDiffer(listing: seq<(Name, Outcome)>) {
    forall i, j :: 0 <= i < j < |listing| ==> listing[i].0 != listing[j].0
  }

  lemma HandledMeans(d: Dirs, name: Name, o: Outcome)
    ensures var (d', ok) := Handled(d, name, o);
            && (ok <==> Works(d, name, o))
            && (ok ==> Settled(d, d', name, o) && d'.submissions == d.submissions + Submitted(d, [(name, o)]))
            && (forall n :: n != name ==> SameAt(d, d', n))
  {
    assert [(name, o)][0] == (name, o) && [(name, o)][1..] == [];
  }

  /** Entries of other names are not affected. */
  lemma {:induction false} ElsewhereTheSame(d: Dirs, d': Dirs, listing: seq<(Name, Outcome)>)
    requires forall i :: 0 <= i < |listing| ==> SameAt(d, d', listing[i].0)
    ensures Submitted(d, listing) == Submitted(d', listing)
    ensures forall i :: 0 <= i < |listing| ==> (Works(d, listing[i].0, listing[i].1) <==> Works(d', listing[i].0, listing[i].1))
  {
    if listing != [] {
      assert SameAt(d, d', listing[0].0);
      ElsewhereTheSame(d, d', listing[1..]);
      assert forall i :: 0 < i < |listing| ==> listing[i] == listing[1..][i - 1];
    }
  }

  lemma SettledLater(d: Dirs, d1: Dirs, d2: Dirs, name: Name, o: Outcome)
    requires (SameAt(d, d1, name) && Settled(d1, d2, name, o)) || (Settled(d, d1, name, o) && SameAt(d1, d2, name))
    ensures Settled(d, d2, name, o)
  {
  }

  ghost predicate AllWork(d: Dirs, listing: seq<(Name, Outcome)>) {
    forall i :: 0 <= i < |listing| ==> Works(d, listing[i].0, listing[i].1)
  }

  ghost predicate AllSettled(d: Dirs, d': Dirs, listing: seq<(Name, Outcome)>) {
    forall i :: 0 <= i < |listing| ==> Settled(d, d', listing[i].0, listing[i].1)
  }

  ghost predicate OthersTheSame(d: Dirs, d': Dirs, listing: seq<(Name, Outcome)>) {
    forall n :: !Listed(listing, n) ==> SameAt(d, d', n)
  }

  lemma HeadAndRestSettled(d: Dirs, d1: Dirs, d2: Dirs, listing: seq<(Name, Outcome)>)
    requires listing != [] && NamesDiffer(listing) && Settled(d, d1, listing[0].0, listing[0].1)
    requires forall n :: n != listing[0].0 ==> SameAt(d, d1, n)
    requires AllSettled(d1, d2, listing[1..]) && OthersTheSame(d1, d2, listing[1..])
    ensures AllSettled(d, d2, listing)
  {
    hide Settled, SameAt;
    forall i | 0 <= i < |listing| ensures Settled(d, d2, listing[i].0, listing[i].1) {
      if i > 0 {
        assert listing[i] == listing[1..][i - 1];
      }
      SettledLater(d, d1, d2, listing[i].0, listing[i].1);
    }
  }

  lemma HeadAndRestTheSame(d: Dirs, d1: Dirs, d2: Dirs, listing: seq<(Name, Outcome)>)
    requires listing != [] && (forall n :: n != listing[0].0 ==> SameAt(d, d1, n)) && OthersTheSame(d1, d2, listing[1..])
    ensures OthersTheSame(d, d2, listing)
  {
    forall n | !Listed(listing, n) ensures SameAt(d, d2, n) {
      assert !Listed(listing[1..], n) by {
        assert forall i :: 0 <= i < |listing| - 1 ==> listing[1..][i] == listing[i + 1];
      }
      assert SameAt(d, d1, n) && SameAt(d1, d2, n);
    }
  }

  lemma HeadOnlyTheSame(d: Dirs, d1: Dirs, listing: seq<(Name, Outcome)>)
    requires listing != [] && forall n :: n != listing[0].0 ==> SameAt(d, d1, n)
    ensures OthersTheSame(d, d1, listing)
  {
    hide SameAt;
  }

  lemma HeadAndRestWork(d: Dirs, d1: Dirs, listing: seq<(Name, Outcome)>)
    requires listing != [] && NamesDiffer(listing) && forall n :: n != listing[0].0 ==> SameAt(d, d1, n)
    ensures AllWork(d, listing) <==> Works(d, listing[0].0, listing[0].1) && AllWork(d1, listing[1..])
    ensures Submitted(d, listing) == Submitted(d, [listing[0]]) + Submitted(d1, listing[1..])
  {
    hide SameAt, Works, Takes;
    var rest := listing[1..];
    forall i | 0 <= i < |rest| ensures rest[i] == listing[i + 1] && SameAt(d, d1, rest[i].0) {
    }
    ElsewhereTheSame(d, d1, rest);
    assert [listing[0]][1..] == [] && Submitted(d, []) == [];
    assert AllWork(d, listing) <==> Works(d, listing[0].0, listing[0].1) && AllWork(d, rest);
  }

  /** The pass succeeds exactly when no entry ends it. Then every listed JSON file that could be opened has left `pending`,
      submitted once if it parses, and is where the result calls for; and nothing else changed. */
  lemma {:induction false} PassSettlesListing(d: Dirs, listing: seq<(Name, Outcome)>)
    requires NamesDiffer(listing)
    ensures var (d', ok) := Passed(d, listing);
            && (ok <==> AllWork(d, listing))
            && (ok ==> d'.submissions == d.submissions + Submitted(d, listing) && AllSettled(d, d', listing))
            && OthersTheSame(d, d', listing)
    decreases |listing|
  {
    if listing != [] {
      hide Handled, SameAt, Settled, Works, Submitted, AllWork, AllSettled, OthersTheSame;
      var (d1, ok) := Handled(d, listing[0].0, listing[0].1);
      HandledMeans(d, listing[0].0, listing[0].1);
      HeadAndRestWork(d, d1, listing);
      HeadOnlyTheSame(d, d1, listing);
      if ok {
        var d2 := Passed(d1, listing[1..]).0;
        PassSettlesListing(d1, listing[1..]);
        HeadAndRestTheSame(d, d1, d2, listing);
        if AllWork(d, listing) {
          HeadAndRestSettled(d, d1, d2, listing);
        }
      }
    }
  }

  /** One more round goes on from where the loop stands; after an I/O error nothing happens any more. */
  lemma {:induction false} LoopGoesOn(d: Dirs, rounds: seq<Round>, r: Round)
    ensures var (d1, running) := Looped(d, rounds);
            Looped(d, rounds + [r]) ==
            if !running then (d1, false)
            else if !r.listed then (Arrived(d1, r.arrivals), false)
            else Passed(Arrived(d1, r.arrivals), r.listing)
    decreases |rounds|
  {
    hide Passed, Arrived;
    if rounds == [] {
      assert rounds + [r] == [r] && [r][1..] == [];
      assert forall e :: Looped(e, []) == (e, true);
    } else {
      assert (rounds + [r])[1..] == rounds[1..] + [r];
      var (d2, ok) := Passed(Arrived(d, rounds[0].arrivals), rounds[0].listing);
      LoopGoesOn(d2, rounds[1..], r);
    }
  }
}
