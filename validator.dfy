/**
 * Model of validator.go: a validator materialises one rule per creator and runs them in
 * creator order, either all of them (failures aggregated under one node) or up to the first
 * failure (returned as it is).
 *
 * Errors built during a call are placed at addresses counted up from `addr`: the failure of
 * rule i at addr + i, the aggregating node at addr + |rules|, an internal error at addr.
 */
module Validators {
  import opened Wrappers
  import opened ValidationErrors
  import opened Rules

  /** ValidatorMode (validator.go:8): a Go uint, 64 bits wide on a 64-bit platform. */
  newtype ValidatorMode = m: int | 0 <= m < 0x1_0000_0000_0000_0000

  /** RUN_ALL and STOP_ON_FIRST_FAIL (validator.go:10-17), numbered by iota. */
  const RunAll: ValidatorMode := 0
  const StopOnFirstFail: ValidatorMode := 1

  /** Validator[T] (validator.go:23-29): its only state is the mode. */
  datatype Validator = Validator(mode: ValidatorMode)

  /** The zero value `var v Validator[T]`. */
  const ZeroValidator: Validator := Validator(0)

  /** The zero value validates in RUN_ALL mode (validator.go:22). */
  lemma ZeroValueRunsAll()
    ensures ZeroValidator.mode == RunAll
  {
  }

  predicate IsKnownMode(m: ValidatorMode)
  {
    m == RunAll || m == StopOnFirstFail
  }

  const ValidationFailedMessage := "validation has failed"

  /** The rules the creators make for `target`. */
  function Materialize<T>(target: T, creators: seq<T -> Rule<T>>): seq<Rule<T>>
  {
    seq(|creators|, i requires 0 <= i < |creators| => creators[i](target))
  }

  /** What checking each rule in turn yields, the failure of rule i built at address addr + i. */
  function Outcomes<T>(rules: seq<Rule<T>>, target: T, addr: nat): (outs: seq<Option<Error>>)
    ensures |outs| == |rules|
    ensures forall i :: 0 <= i < |rules| ==> outs[i] == Check(rules[i], target, addr + i)
  {
    seq(|rules|, i requires 0 <= i < |rules| => Check(rules[i], target, addr + i))
  }

  /**
   * The result of runAllValidation (validator.go:47-59): nil exactly when every rule passes;
   * otherwise a fresh node with message "validation has failed" whose children are exactly the
   * failures, in rule order.
   */
  function RunAllResult<T>(rules: seq<Rule<T>>, target: T, addr: nat): (r: Option<Error>)
    ensures r.None? <==> forall i :: 0 <= i < |rules| ==> rules[i].check(target)
    ensures r.Some? ==> r.value.Tree? && r.value.node.msg == ValidationFailedMessage
                        && r.value.node.original.None? && r.value.node.errs == NonNil(Outcomes(rules, target, addr))
  {
    var failed := NonNil(Outcomes(rules, target, addr));
    NonNilEmpty(Outcomes(rules, target, addr));
    if |failed| != 0 then Some(Tree(ValidationError(addr + |rules|, None, ValidationFailedMessage, failed)))
    else None
  }

  /** The result of stopOnFirstFailValidation (validator.go:61-68): the first failure, or nil. */
  function FirstFailure(outs: seq<Option<Error>>): (r: Option<Error>)
    ensures r.None? <==> forall i :: 0 <= i < |outs| ==> outs[i].None?
    ensures r.Some? ==> exists k :: 0 <= k < |outs| && outs[k] == r && forall j :: 0 <= j < k ==> outs[j].None?
  {
    if outs == [] then None
    else if outs[0].Some? then outs[0]
    else
      var r := FirstFailure(outs[1..]);
      assert forall k :: 1 <= k < |outs| ==> outs[k] == outs[1..][k - 1];
      r
  }

  /** A failure preceded only by passes is the first failure. */
  lemma FirstFailureAt(outs: seq<Option<Error>>, k: nat)
    requires k < |outs| && outs[k].Some?
    requires forall j :: 0 <= j < k ==> outs[j].None?
    ensures FirstFailure(outs) == outs[k]
  {
  }

  /** The internal error of validator.go:43, at address `addr`. */
  function InternalError(mode: ValidatorMode, addr: nat): (e: Error)
    ensures Is(e, ErrInternal) && !Is(e, ErrValidation)
  {
    Wrapped(addr, ErrInternal, Text(ErrInternal) + ": no such mode " + Decimal(mode as nat) + " for validator")
  }

  /** The decimal digits of n, as the %d verb prints it. */
  function Decimal(n: nat): string
  {
    (if n < 10 then "" else Decimal(n / 10)) + ["0123456789"[n % 10]]
  }

  /** extractRules (validator.go:71-77): one rule per creator, in creator order, each made for `target`. */
  method ExtractRules<T>(target: T, creators: seq<T -> Rule<T>>) returns (rules: seq<Rule<T>>)
    ensures |rules| == |creators|
    ensures forall i :: 0 <= i < |creators| ==> rules[i] == creators[i](target)
    ensures rules == Materialize(target, creators)
  {
    rules := [];
    for i := 0 to |creators|
      invariant |rules| == i
      invariant forall j :: 0 <= j < i ==> rules[j] == creators[j](target)
    {
      rules := rules + [creators[i](target)];
    }
  }

  /**
   * runAllValidation (validator.go:47-59): checks every rule, in order, and aggregates the
   * failures. `calls` counts the Check calls made.
   */
  method RunAllValidation<T>(target: T, rules: seq<Rule<T>>, addr: nat) returns (r: Option<Error>, ghost calls: nat)
    ensures r == RunAllResult(rules, target, addr)
    ensures calls == |rules|
  {
    ghost var outs := Outcomes(rules, target, addr);
    var failedErrs: seq<Error> := [];
    calls := 0;
    for i := 0 to |rules|
      invariant calls == i
      invariant failedErrs == NonNil(outs[..i])
    {
      var err := Check(rules[i], target, addr + i);
      calls := calls + 1;
      assert outs[..i + 1][..i] == outs[..i];
      if err.Some? {
        failedErrs := failedErrs + [err.value];
      }
    }
    assert outs[..|rules|] == outs;
    assert failedErrs == NonNil(Outcomes(rules, target, addr));
    if |failedErrs| != 0 {
      NonNilOfPresent(failedErrs);
      var node := NewValidationError(addr + |rules|, ValidationFailedMessage, Present(failedErrs));
      assert node == ValidationError(addr + |rules|, None, ValidationFailedMessage, failedErrs);
      r := Some(Tree(node));
    } else {
      r := None;
    }
  }

  /**
   * stopOnFirstFailValidation (validator.go:61-68): checks rules in order and returns the first
   * failure unwrapped. `calls` counts the Check calls made: none after the failing rule.
   */
  method StopOnFirstFailValidation<T>(target: T, rules: seq<Rule<T>>, addr: nat) returns (r: Option<Error>, ghost calls: nat)
    ensures r == FirstFailure(Outcomes(rules, target, addr))
    ensures calls <= |rules|
    ensures r.None? ==> calls == |rules|
    ensures r.Some? ==> 0 < calls && r == Check(rules[calls - 1], target, addr + calls - 1)
    ensures forall j :: 0 <= j < calls - 1 ==> rules[j].check(target)
  {
    ghost var outs := Outcomes(rules, target, addr);
    calls := 0;
    for i := 0 to |rules|
      invariant calls == i
      invariant forall j :: 0 <= j < i ==> rules[j].check(target)
    {
      var err := Check(rules[i], target, addr + i);
      calls := calls + 1;
      if err.Some? {
        FirstFailureAt(outs, i);
        return err, calls;
      }
    }
    return None, calls;
  }

  /**
   * (*Validator).Validate (validator.go:34-45): the rules are made first, in every mode; then the
   * mode decides. An unknown mode yields an error wrapping ErrInternal and checks no rule.
   */
  method Validate<T>(v: Validator, target: T, creators: seq<T -> Rule<T>>, addr: nat)
    returns (r: Option<Error>, ghost calls: nat)
    ensures v.mode == RunAll ==> r == RunAllResult(Materialize(target, creators), target, addr) && calls == |creators|
    ensures v.mode == StopOnFirstFail ==>
              r == FirstFailure(Outcomes(Materialize(target, creators), target, addr)) && calls <= |creators|
    ensures !IsKnownMode(v.mode) ==> r == Some(InternalError(v.mode, addr)) && calls == 0
    ensures IsKnownMode(v.mode) ==> (r.None? <==> forall i :: 0 <= i < |creators| ==> creators[i](target).check(target))
    ensures IsKnownMode(v.mode) && r.Some? ==> Is(r.value, ErrValidation) && !Is(r.value, ErrInternal)
    ensures !IsKnownMode(v.mode) ==> r.Some? && Is(r.value, ErrInternal) && !Is(r.value, ErrValidation)
  {
    var rules := ExtractRules(target, creators);
    if v.mode == RunAll {
      r, calls := RunAllValidation(target, rules, addr);
      if r.Some? {
        RunAllMatchesValidationOnly(rules, target, addr);
      }
    } else if v.mode == StopOnFirstFail {
      r, calls := StopOnFirstFailValidation(target, rules, addr);
    } else {
      r, calls := Some(InternalError(v.mode, addr)), 0;
    }
  }

  /** The aggregate matches ErrValidation and never ErrInternal: the two kinds of error stay apart. */
  lemma RunAllMatchesValidationOnly<T>(rules: seq<Rule<T>>, target: T, addr: nat)
    requires RunAllResult(rules, target, addr).Some?
    ensures Is(RunAllResult(rules, target, addr).value, ErrValidation)
    ensures !Is(RunAllResult(rules, target, addr).value, ErrInternal)
  {
    var outs := Outcomes(rules, target, addr);
    var node := RunAllResult(rules, target, addr).value.node;
    forall k | 0 <= k < |node.errs|
      ensures !Is(node.errs[k], ErrInternal)
    {
      assert node.errs[k] in NonNil(outs);
      var i :| 0 <= i < |outs| && outs[i] == Some(node.errs[k]);
    }
    NodeIsIff(node, ErrInternal);
  }

  /** Every failure of RUN_ALL is matched by the aggregate: callers can ask whether a given failure occurred. */
  lemma RunAllMatchesEveryFailure<T>(rules: seq<Rule<T>>, target: T, addr: nat, i: nat)
    requires i < |rules| && !rules[i].check(target)
    ensures RunAllResult(rules, target, addr).Some?
    ensures Is(RunAllResult(rules, target, addr).value, Check(rules[i], target, addr + i).value)
  {
    var outs := Outcomes(rules, target, addr);
    var failure := Check(rules[i], target, addr + i).value;
    assert outs[i] == Some(failure);
    assert failure in NonNil(outs);
    ChildIsMatched(RunAllResult(rules, target, addr).value.node, failure);
  }

  /**
   * The two modes agree: STOP_ON_FIRST_FAIL returns nil exactly when RUN_ALL does, and otherwise
   * the first child of RUN_ALL's aggregate.
   */
  lemma StopReportsFirstOfRunAll<T>(rules: seq<Rule<T>>, target: T, addr: nat)
    ensures FirstFailure(Outcomes(rules, target, addr)).None? <==> RunAllResult(rules, target, addr).None?
    ensures RunAllResult(rules, target, addr).Some? ==>
              FirstFailure(Outcomes(rules, target, addr)) == Some(RunAllResult(rules, target, addr).value.node.errs[0])
  {
    FirstFailureIsFirstNonNil(Outcomes(rules, target, addr));
  }

  lemma {:induction false} FirstFailureIsFirstNonNil(outs: seq<Option<Error>>)
    ensures FirstFailure(outs) == if NonNil(outs) == [] then None else Some(NonNil(outs)[0])
  {
    if outs != [] {
      assert outs == [outs[0]] + outs[1..];
      NonNilConcat([outs[0]], outs[1..]);
      NonNilSingletons(if outs[0].Some? then outs[0].value else ErrValidation);
      FirstFailureIsFirstNonNil(outs[1..]);
    }
  }

  /** With no creators both modes pass. */
  lemma NoCreatorsPass<T>(target: T, addr: nat)
    ensures RunAllResult(Materialize(target, []), target, addr).None?
    ensures FirstFailure(Outcomes(Materialize(target, []), target, addr)).None?
  {
  }
}
