/**
 * Model of rule.go: a rule is a message and a predicate over the validation target; checking
 * it either passes or yields an error wrapping ErrValidation.
 */
module Rules {
  import opened Wrappers
  import opened ValidationErrors

  /**
   * rule[T] (rule.go:21-26). A CheckFunc[T] (rule.go:13) is a total predicate; a rule has no
   * mutable state, so checking it twice on one target gives the same outcome.
   */
  datatype Rule<!T> = Rule(message: string, check: T -> bool)

  /** NewRule (rule.go:29-34). */
  function NewRule<T>(message: string, check: T -> bool): Rule<T>
  {
    Rule(message, check)
  }

  /**
   * rule.buildError (rule.go:47-53): fmt.Errorf("%w", ErrValidation) for an empty message and
   * fmt.Errorf("%w: %s", ErrValidation, Message) otherwise. `id` is the address of the new wrapper.
   */
  function BuildError<T>(r: Rule<T>, id: nat): (e: Error)
    ensures e.Wrapped? && e.inner == ErrValidation
    ensures r.message == "" ==> Text(e) == "validation error"
    ensures r.message != "" ==> Text(e) == "validation error: " + r.message
  {
    if r.message == "" then Wrapped(id, ErrValidation, Text(ErrValidation))
    else Wrapped(id, ErrValidation, Text(ErrValidation) + ": " + r.message)
  }

  /**
   * rule.Check (rule.go:39-45): nil exactly when the predicate holds; otherwise a failure that
   * matches ErrValidation and never ErrInternal. `id` is the address a failure is built at.
   */
  function Check<T>(r: Rule<T>, target: T, id: nat): (res: Option<Error>)
    ensures res.None? <==> r.check(target)
    ensures res.Some? ==> res.value == BuildError(r, id)
    ensures res.Some? ==> Is(res.value, ErrValidation) && !Is(res.value, ErrInternal)
  {
    if r.check(target) then None else Some(BuildError(r, id))
  }

  /** A rule built by NewRule passes exactly the targets its predicate accepts. */
  lemma NewRuleChecksItsPredicate<T>(message: string, check: T -> bool, target: T, id: nat)
    ensures NewRule(message, check).message == message
    ensures Check(NewRule(message, check), target, id).None? <==> check(target)
  {
  }

  /** The failure text always ends with the rule's message, so it contains it. */
  lemma FailureTextEndsWithMessage<T>(r: Rule<T>, id: nat)
    ensures exists prefix :: Text(BuildError(r, id)) == prefix + r.message
  {
    if r.message == "" {
      assert Text(BuildError(r, id)) == Text(BuildError(r, id)) + r.message;
    } else {
      assert Text(BuildError(r, id)) == "validation error: " + r.message;
    }
  }

  /**
   * Checking is repeatable: two checks of one target agree on passing and on the failure text;
   * only the address of the failure differs.
   */
  lemma CheckIsRepeatable<T>(r: Rule<T>, target: T, id1: nat, id2: nat)
    ensures Check(r, target, id1).None? == Check(r, target, id2).None?
    ensures Check(r, target, id1).Some? ==> Text(Check(r, target, id1).value) == Text(Check(r, target, id2).value)
    ensures Check(r, target, id1).Some? && id1 != id2 ==> Check(r, target, id1) != Check(r, target, id2)
  {
  }
}
