/**
 * Cases from the repository's tests and example, restated on the model: each method calls the
 * modelled operations and its proved postconditions state what the test expects.
 */
module Scenarios {
  import opened Wrappers
  import opened ValidationErrors
  import opened Rules
  import opened Validators

  const ErrA: Error := Plain(10, ErrorStringType, "error A")
  const ErrB: Error := Plain(11, ErrorStringType, "error B")
  const ErrC: Error := Plain(12, ErrorStringType, "error C")

  /** Lifting a plain error with nil and non-nil children (error_test.go:64-79). */
  method LiftPlainErrorSkippingNils() returns (v: ValidationError)
    ensures v.errs == [ErrB, ErrC]
    ensures NodeText(v) == "error A:\n\terror B\n\terror C"
    ensures Is(Tree(v), ErrValidation) && Is(Tree(v), ErrA) && Is(Tree(v), ErrB) && Is(Tree(v), ErrC)
  {
    var args := [None, Some(ErrB), None, Some(ErrC), None, None];
    FilterNilArguments(args);
    v := From(13, Some(ErrA), args);
    assert args[1] == Some(ErrB) && args[3] == Some(ErrC);
    LiftedText(v);
  }

  lemma LiftedText(v: ValidationError)
    requires v.msg == "error A" && v.errs == [ErrB, ErrC]
    ensures NodeText(v) == "error A:\n\terror B\n\terror C"
  {
    TwoChildrenLayout(v);
    assert "error A" + ":\n\t" + "error B" + "\n\t" + "error C" == "error A:\n\terror B\n\terror C";
  }

  lemma FilterNilArguments(args: seq<Option<Error>>)
    requires args == [None, Some(ErrB), None, Some(ErrC), None, None]
    ensures NonNil(args) == [ErrB, ErrC]
  {
    var front: seq<Option<Error>> := [None, Some(ErrB), None, Some(ErrC)];
    assert args == front + [None, None];
    NonNilConcat(front, [None, None]);
    TwoNils();
    NoneThenSomeTwice(ErrB, ErrC);
  }

  lemma NoneThenSomeTwice(b: Error, c: Error)
    ensures NonNil([None, Some(b), None, Some(c)]) == [b, c]
  {
    var first: seq<Option<Error>> := [None, Some(b)];
    var second: seq<Option<Error>> := [None, Some(c)];
    assert [None, Some(b), None, Some(c)] == first + second;
    NonNilConcat(first, second);
    NoneThenSome(b);
    NoneThenSome(c);
  }

  lemma NoneThenSome(e: Error)
    ensures NonNil([None, Some(e)]) == [e]
  {
  }

  lemma TwoNils()
    ensures NonNil([None, None]) == []
  {
  }

  /** Two nodes made with the same message are different errors (error_test.go:13-19). */
  method SameMessageDifferentNodes() returns (v1: ValidationError, v2: ValidationError)
    ensures v1.msg == v2.msg && Tree(v1) != Tree(v2)
  {
    v1 := NewValidationError(20, "error epta", []);
    v2 := NewValidationError(21, "error epta", []);
  }

  /**
   * A tree nested two levels deep matches everything below it and nothing else
   * (error_test.go:270-319, the "Complex inner error" case).
   */
  method NestedTreeMatches() returns (root: ValidationError, superComplex: ValidationError, complexBAndC: ValidationError)
    ensures Is(Tree(root), ErrValidation) && Is(Tree(root), ErrB) && Is(Tree(root), ErrC)
    ensures Is(Tree(root), Tree(complexBAndC)) && Is(Tree(root), Tree(superComplex))
    ensures !Is(Tree(root), ErrA)
  {
    complexBAndC := NewValidationError(30, "errComplexBAndC", [Some(ErrB), Some(ErrC)]);
    superComplex := NewValidationError(31, "errSuperComplex", [Some(Tree(complexBAndC))]);
    root := NewValidationError(32, "validation error", [Some(Tree(superComplex))]);
    DeepChildrenMatch(root, superComplex, complexBAndC);
    NoErrABelow(root, superComplex, complexBAndC);
  }

  /** Leaves two levels down, and the inner trees, are matched by the root. */
  lemma DeepChildrenMatch(root: ValidationError, mid: ValidationError, inner: ValidationError)
    requires root.errs == [Tree(mid)] && mid.errs == [Tree(inner)] && inner.errs == [ErrB, ErrC]
    ensures Is(Tree(root), ErrB) && Is(Tree(root), ErrC)
    ensures Is(Tree(root), Tree(inner)) && Is(Tree(root), Tree(mid))
  {
    ChildIsMatched(inner, ErrB);
    ChildIsMatched(inner, ErrC);
    ChildIsMatched(mid, ErrB);
    ChildIsMatched(mid, ErrC);
    ChildIsMatched(mid, Tree(inner));
    ChildIsMatched(root, ErrB);
    ChildIsMatched(root, ErrC);
    ChildIsMatched(root, Tree(inner));
    ChildIsMatched(root, Tree(mid));
  }

  /** Nothing in the three levels is, or holds as original, errA. */
  lemma NoErrABelow(root: ValidationError, mid: ValidationError, inner: ValidationError)
    requires root.errs == [Tree(mid)] && mid.errs == [Tree(inner)] && inner.errs == [ErrB, ErrC]
    requires root.original.None? && mid.original.None? && inner.original.None?
    ensures !Is(Tree(root), ErrA)
  {
    NodeIsIff(inner, ErrA);
    NodeIsIff(mid, ErrA);
    NodeIsIff(root, ErrA);
  }

  /** A mode outside the two known ones yields an internal error (validator_test.go:17-30). */
  method IncorrectModeFails() returns (r: Option<Error>)
    ensures r.Some? && Is(r.value, ErrInternal) && !Is(r.value, ErrValidation)
  {
    ghost var calls;
    r, calls := Validate(Validator(999), "something", [], 40);
  }

  datatype Person = Person(name: string, age: nat, children: nat)

  /** The rule creators of example_test.go:29-63, without the attached error identities. */
  function IsAdult(p: Person): Rule<Person>
  {
    NewRule(p.name + " must be adult. age is " + Decimal(p.age), (q: Person) => q.age >= 18)
  }

  function HasChildren(p: Person): Rule<Person>
  {
    NewRule(p.name + ChildrenMessage, (q: Person) => q.children != 0)
  }

  function InWantedList(p: Person): Rule<Person>
  {
    NewRule(p.name + WantedMessage, (q: Person) => q.name == "Ivan" || q.name == "Jackob")
  }

  const ChildrenMessage := " should has children, but he doesn't"
  const WantedMessage := " should be wanted criminal, but he is not in the list: [Ivan Jackob]"

  /** The failure texts the example expects for John. */
  const ChildrenFailure := "validation error: John" + ChildrenMessage
  const WantedFailure := "validation error: John" + WantedMessage

  const John := Person("John", 18, 0)

  /** Each of the three rules checked on John: the adult check passes, the other two fail. */
  lemma JohnIsAdult()
    ensures Check(IsAdult(John), John, 50) == None
  {
  }

  lemma JohnHasNoChildren()
    ensures Check(HasChildren(John), John, 51) == Some(Wrapped(51, ErrValidation, ChildrenFailure))
  {
    var r := HasChildren(John);
    assert !r.check(John);
    assert r.message == "John" + ChildrenMessage;
    assert Text(ErrValidation) == "validation error";
    calc {
      Text(ErrValidation) + ": " + r.message;
      ("validation error" + ": " + "John") + ChildrenMessage;
      { assert "validation error" + ": " + "John" == "validation error: John"; }
      ChildrenFailure;
    }
  }

  lemma JohnIsNotWanted()
    ensures Check(InWantedList(John), John, 52) == Some(Wrapped(52, ErrValidation, WantedFailure))
  {
    var r := InWantedList(John);
    assert !r.check(John);
    assert r.message == "John" + WantedMessage;
    assert Text(ErrValidation) == "validation error";
    calc {
      Text(ErrValidation) + ": " + r.message;
      ("validation error" + ": " + "John") + WantedMessage;
      { assert "validation error" + ": " + "John" == "validation error: John"; }
      WantedFailure;
    }
  }

  lemma JohnOutcomes(rules: seq<Rule<Person>>)
    requires rules == Materialize(John, [IsAdult, HasChildren, InWantedList])
    ensures Outcomes(rules, John, 50) ==
              [None, Some(Wrapped(51, ErrValidation, ChildrenFailure)), Some(Wrapped(52, ErrValidation, WantedFailure))]
  {
    var creators := [IsAdult, HasChildren, InWantedList];
    assert rules[0] == creators[0](John) == IsAdult(John);
    assert rules[1] == creators[1](John) == HasChildren(John);
    assert rules[2] == creators[2](John) == InWantedList(John);
    JohnIsAdult();
    JohnHasNoChildren();
    JohnIsNotWanted();
  }

  lemma AggregateText(node: ValidationError)
    requires node.msg == ValidationFailedMessage
    requires node.errs == [Wrapped(51, ErrValidation, ChildrenFailure), Wrapped(52, ErrValidation, WantedFailure)]
    ensures NodeText(node) == ValidationFailedMessage + ":\n\t" + ChildrenFailure + "\n\t" + WantedFailure
  {
    TwoChildrenLayout(node);
  }

  /** RUN_ALL on John aggregates the two failures, in creator order, under a node at address 53. */
  lemma JohnRunAll(rules: seq<Rule<Person>>)
    requires rules == Materialize(John, [IsAdult, HasChildren, InWantedList])
    ensures RunAllResult(rules, John, 50) ==
              Some(Tree(ValidationError(53, None, ValidationFailedMessage,
                [Wrapped(51, ErrValidation, ChildrenFailure), Wrapped(52, ErrValidation, WantedFailure)])))
  {
    JohnOutcomes(rules);
    SkipLeadingNil(Wrapped(51, ErrValidation, ChildrenFailure), Wrapped(52, ErrValidation, WantedFailure));
  }

  lemma SkipLeadingNil(e1: Error, e2: Error)
    ensures NonNil([None, Some(e1), Some(e2)]) == [e1, e2]
  {
    var front: seq<Option<Error>> := [None, Some(e1)];
    assert [None, Some(e1), Some(e2)] == front + [Some(e2)];
    NonNilConcat(front, [Some(e2)]);
    NoneThenSome(e1);
    NonNilSingletons(e2);
  }

  /**
   * The call of example_test.go:66-77, with the zero validator (RUN_ALL), made with the rules as
   * rule.go builds them (no attached error, so the example's golden output does not apply): the
   * adult check passes, the other two fail, and the aggregate lists both failures in creator order.
   */
  method ExampleRunAll() returns (r: Option<Error>)
    ensures r.Some?
    ensures Text(r.value) == ValidationFailedMessage + ":\n\t" + ChildrenFailure + "\n\t" + WantedFailure
  {
    var creators := [IsAdult, HasChildren, InWantedList];
    ghost var calls;
    r, calls := Validate(ZeroValidator, John, creators, 50);
    JohnRunAll(Materialize(John, creators));
    AggregateText(r.value.node);
  }

  /** The same call in STOP_ON_FIRST_FAIL mode: the first failure, that of the children rule, comes back unwrapped. */
  method ExampleStopOnFirstFail() returns (r: Option<Error>)
    ensures r == Some(Wrapped(51, ErrValidation, ChildrenFailure))
    ensures Text(r.value) == ChildrenFailure
  {
    var creators := [IsAdult, HasChildren, InWantedList];
    ghost var calls;
    r, calls := Validate(Validator(StopOnFirstFail), John, creators, 50);
    ghost var rules := Materialize(John, creators);
    JohnOutcomes(rules);
    FirstFailureAt(Outcomes(rules, John, 50), 1);
  }
}
