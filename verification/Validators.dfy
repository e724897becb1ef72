/** Composition of transaction validators. Models applications/tari_validator_node/src/validator.rs and the two pipelines
    built in applications/tari_validator_node/src/bootstrap.rs. */
module Validators {

  type Error = string

  datatype Validation = Accepted | Rejected(error: Error)

  /** A pipeline over contexts of type `C` and inputs of type `T`. A change of context type is a function on one type of
      contexts here. */
  datatype Validator<!C, !T> =
    | Check(check: (C, T) -> Validation)
    | AndThen(first: Validator<C, T>, second: Validator<C, T>)
    | MapContext(first: Validator<C, T>, second: Validator<C, T>, mapper: C -> C)

  function Validate<C, T>(v: Validator<C, T>, context: C, input: T): Validation {
    match v
    case Check(check) => check(context, input)
    case AndThen(first, second) =>
      var r := Validate(first, context, input);
      if r.Rejected? then r else Validate(second, context, input)
    case MapContext(first, second, mapper) =>
      var r := Validate(first, context, input);
      if r.Rejected? then r else Validate(second, mapper(context), input)
  }

  /** The checks of a pipeline from left to right, each with the context it is run in. */
  function Stages<C, T>(v: Validator<C, T>, context: C): seq<((C, T) -> Validation, C)> {
    match v
    case Check(check) => [(check, context)]
    case AndThen(first, second) => Stages(first, context) + Stages(second, context)
    case MapContext(first, second, mapper) => Stages(first, context) + Stages(second, mapper(context))
  }

  /** The first failing stage decides. */
  function FirstFailure<C, T>(stages: seq<((C, T) -> Validation, C)>, input: T): Validation {
    if stages == [] then Accepted
    else
      var (check, context) := stages[0];
      var r := check(context, input);
      if r.Rejected? then r else FirstFailure(stages[1..], input)
  }

  lemma {:induction false} FirstFailureConcat<C, T>(a: seq<((C, T) -> Validation, C)>, b: seq<((C, T) -> Validation, C)>, input: T)
    ensures FirstFailure(a + b, input) ==
            if FirstFailure(a, input).Rejected? then FirstFailure(a, input) else FirstFailure(b, input)
  {
    if a == [] {
      assert a + b == b;
    } else {
      assert (a + b)[1..] == a[1..] + b;
      FirstFailureConcat(a[1..], b, input);
    }
  }

  /** However a pipeline is nested, it runs its flattened stages from left to right and stops at the first failure. */
  lemma {:induction false} ValidateRunsStages<C, T>(v: Validator<C, T>, context: C, input: T)
    ensures Validate(v, context, input) == FirstFailure(Stages(v, context), input)
  {
    match v
    case Check(check) =>
      assert Stages(v, context)[1..] == [];
    case AndThen(first, second) =>
      ValidateRunsStages(first, context, input);
      ValidateRunsStages(second, context, input);
      FirstFailureConcat(Stages(first, context), Stages(second, context), input);
    case MapContext(first, second, mapper) =>
      ValidateRunsStages(first, context, input);
      ValidateRunsStages(second, mapper(context), input);
      FirstFailureConcat(Stages(first, context), Stages(second, mapper(context)), input);
  }

  // ---- The node's pipelines ----

  datatype Context = NoContext | ValidationContext(currentEpoch: nat) | EpochContext(epoch: nat)

  /** The mempool's checks without context, then the epoch range. */
  function ConsensusValidator<T>(mempool: Validator<Context, T>, epochRange: (Context, T) -> Validation): Validator<Context, T> {
    MapContext(
      MapContext(Check((c: Context, t: T) => Accepted), mempool, (c: Context) => NoContext),
      Check(epochRange),
      (c: Context) => if c.ValidationContext? then EpochContext(c.currentEpoch) else c)
  }

  /** Consensus accepts exactly the transactions that the mempool accepts and whose epoch range holds; for any other it
      reports the error of the leftmost failing check, the mempool's checks first. */
  lemma ConsensusExtendsMempool<T>(mempool: Validator<Context, T>, epochRange: (Context, T) -> Validation, epoch: nat, t: T)
    ensures Validate(ConsensusValidator(mempool, epochRange), ValidationContext(epoch), t)
         == FirstFailure(Stages(mempool, NoContext) + [(epochRange, EpochContext(epoch))], t)
    ensures Validate(ConsensusValidator(mempool, epochRange), ValidationContext(epoch), t).Accepted?
       <==> Validate(mempool, NoContext, t).Accepted? && epochRange(EpochContext(epoch), t).Accepted?
  {
    var context, epochStage := ValidationContext(epoch), [(epochRange, EpochContext(epoch))];
    var inner := MapContext(Check((c: Context, t: T) => Accepted), mempool, (c: Context) => NoContext);
    assert Validate(inner, context, t) == Validate(mempool, NoContext, t);
    ValidateRunsStages(mempool, NoContext, t);
    FirstFailureConcat(Stages(mempool, NoContext), epochStage, t);
    assert epochStage[1..] == [];
  }
}
