# valdy, modelled in Dafny

valdy is a small Go validation library. It has three parts:

- **Rules.** A rule is a message and a predicate over a target.
- **Validator.** A validator materialises one rule per rule creator for a given target and checks them in creator order. It works in one of two modes:
  - `RUN_ALL` collects every failure under one aggregate error, `*ValidationError`.
  - `STOP_ON_FIRST_FAIL` returns the first failure as it is.
- **Error tree.** `*ValidationError` holds a message, an optional original error and an ordered list of child errors. It renders itself line by line. It takes part in Go's `errors.Is` / `errors.As` chain walk through its own `Is` and `As` methods.

This project models those three files and proves what they promise:

| file | model | covers |
|---|---|---|
| `error.go` | `ValidationErrors` in `error.dfy` | the tree, its constructors, its renderer and the `Is`/`As` queries |
| `rule.go` | `Rules` in `rule.dfy` | `NewRule`, `Check`, `buildError` |
| `validator.go` | `Validators` in `validator.dfy` | the modes, `Validate`, the two strategies, `extractRules` |

`Wrappers` (`wrappers.dfy`) holds `Option`, which stands for a nilable Go value. `Scenarios` (`scenarios.dfy`) restates cases from the repository's tests and example as methods whose postconditions are what those tests expect.

How Go is represented:

- **Errors are values.** Plain errors (`errors.New`), `fmt.Errorf("%w…")` wrappers and `*ValidationError` nodes are the three cases of the datatype `Error`.
- **Pointer identity is an `id`.** Every allocation carries an address (an `id`). A constructor takes as a parameter the fresh address it would get from the allocator. So Go's `==` on two errors is `==` on their models. `nil` is `None`.
- **Type tags replace reflection.** `errors.Is` and `errors.As` are recursive functions over the datatype. The target type of `As` is a `TypeTag`.
- **Go's loops become methods.** These are `WithErrors`, `Error`, `extractRules`, `runAllValidation` and `stopOnFirstFailValidation`. Each method is proved against a specification function (`NonNil`, `NodeText`, `Materialize`, `RunAllResult`, `FirstFailure`). The properties the library promises are proved about those functions as lemmas.
- **Calls to `Check` are counted.** A ghost out-parameter `calls` counts how many times a validation calls `Check`. This is how the model states that `STOP_ON_FIRST_FAIL` checks nothing after the first failure, and that an unknown mode checks nothing.

Where the library's prose and its code differ, the model follows the code:

- `From(nil, errs...)` returns `NewValidationError("")` and drops `errs` (error.go:36-38). It is not `NewValidationError("", errs...)`.
- `(*ValidationError).Is` compares the original with `==` only (error.go:95), so an original that wraps the target does not make the node match it (`OriginalNotUnwrappedByIs`). `As`, in contrast, walks the original's chain (error.go:122).
- A failed `Check` returns a `fmt.Errorf` wrapper of `ErrValidation`, not a tree node (rule.go:47-53). So `RUN_ALL`'s aggregate has wrappers as children.
- With an unknown mode no rule is checked, but the creators are still called to build the rules (validator.go:35).

## Model

| member | source | states |
|---|---|---|
| ValidationErrors.NonNil | error.go:64-70 | the stored children are exactly the non-nil arguments, with no more entries than arguments |
| ValidationErrors.NonNilConcat | error.go:66-70 | filtering nil children distributes over concatenation of the argument lists |
| ValidationErrors.NonNilSingletons | error.go:67-69 | a nil argument is dropped and a non-nil one is kept |
| ValidationErrors.NonNilOfPresent | validator.go:55-56 | handing on a slice of non-nil errors as variadic arguments stores exactly that slice |
| ValidationErrors.NonNilEmpty | error.go:64-73 | no children are stored exactly when every argument is nil, including when there are none |
| ValidationErrors.WithErrors | error.go:64-73 | the loop replaces the node's children with the non-nil arguments in order and changes nothing else |
| ValidationErrors.NewValidationError | error.go:54-59 | a fresh node at the given address with the message, no original and the non-nil children; it matches ErrValidation and every non-nil argument |
| ValidationErrors.From | error.go:35-49 | nil gives an empty childless node; a tree is returned unchanged; any other error becomes the original of a fresh node with that error's text as message and the non-nil children; the result matches ErrValidation, the original, and every non-nil child |
| ValidationErrors.NodeText | error.go:76-89 | the rendering starts with the message, and with children the message is followed by ":"; Render computes it and the layout lemmas below fix the rest |
| ValidationErrors.Lines | error.go:83-85 | each child contributes at least its "\n\t" prefix; LinesConcat and RenderLayout place each child's text |
| ValidationErrors.ErrorOf | error.go:76-89 | the dynamic dispatch of Error() returns the error's text |
| ValidationErrors.Render | error.go:76-89 | the builder loop produces the message, then ":" and one "\n\t"-prefixed line per child when there are children |
| ValidationErrors.LinesConcat | error.go:83-85 | the child lines of two lists of children are the lines of each, in order |
| ValidationErrors.ChildlessRendersMessage | error.go:78-80 | a node without children renders as its message alone |
| ValidationErrors.RenderLayout | error.go:80-86 | child i's text appears verbatim on its own line, after the lines of the children before it and before those after it |
| ValidationErrors.TwoChildrenLayout | error.go:76-89 | a node with two children renders as "msg:\n\tX\n\tY" |
| ValidationErrors.NestedLinesNotReindented | error.go:84 | a nested tree's lines are inserted as they are, not indented one more level |
| ValidationErrors.EqualErrors | error.go:150-160 | equalErrors holds exactly when both slices have the same length and the same errors pointwise |
| ValidationErrors.MatchesNode | error.go:95-106 | the checks (*ValidationError).Is makes before the children: ErrValidation, the original by ==, a tree with equal message and children; characterised inside NodeIsIff |
| ValidationErrors.NodeIs | error.go:94-114 | (*ValidationError).Is: the node's own checks or some child matching; characterised by NodeIsIff and IsIffChainMatches |
| ValidationErrors.AnyChildIs | error.go:108-112 | the child loop of Is from position i; characterised by AnyChildIsIff and AnyChildIsIffChain |
| ValidationErrors.Is | error.go:109 | the errors.Is walk the child loop calls: equality, then a tree's own Is, then a wrapper's inner error; characterised by NodeIsIff and IsIffChainMatches |
| ValidationErrors.AnyChildIsIff | error.go:108-112 | the child loop of Is succeeds exactly when some remaining child matches the target |
| ValidationErrors.NodeIsIff | error.go:94-114 | a node matches exactly: itself, ErrValidation, its original by ==, a tree with the same message and children, or a target some child matches |
| ValidationErrors.TreeIsValidation | error.go:95-96 | every node matches ErrValidation |
| ValidationErrors.ChildIsMatched | error.go:108-112 | a target matched by some child, and in particular every child, is matched by the node |
| ValidationErrors.SameMessageAndChildrenMatch | error.go:99-106 | two nodes with equal messages and identical children match each other, whatever their addresses and originals |
| ValidationErrors.OriginalNotUnwrappedByIs | error.go:95 | a node whose original wraps a plain error does not match that error under Is, though As reaches it |
| ValidationErrors.IsIffChainMatches | error.go:94-114 | errors.Is holds exactly when some error in the chain (down wrappers and into children, never into originals) is the target or is a node whose own checks accept it |
| ValidationErrors.AnyChildIsIffChain | error.go:108-112 | the child loop of Is agrees with the chain of the remaining children |
| ValidationErrors.As | error.go:121-133 | whatever As stores into the target has the target's type |
| ValidationErrors.NodeAs | error.go:121-133 | what the node's As method finds has the target's type |
| ValidationErrors.FirstChildAs | error.go:126-130 | what the child loop of As finds has the target's type |
| ValidationErrors.AsIsFirstVisited | error.go:116-133 | As returns the first error of the preorder walk (the error, its original's chain, then each child's) whose type is the target's |
| ValidationErrors.FirstChildAsIsFirstVisited | error.go:126-130 | the child loop of As returns the first error of the remaining children's preorder walk with the target's type |
| ValidationErrors.AsFindsFirstOfType | error.go:116-133 | As fails exactly when nothing in the walk has the target type, and otherwise returns an error preceded by none of that type |
| ValidationErrors.TreeAsItself | error.go:121-133 | asking a node for a *ValidationError gives the node itself |
| Rules.NewRule | rule.go:28-34 | stores the message and the predicate unchanged; NewRuleChecksItsPredicate states it |
| Rules.BuildError | rule.go:47-53 | the failure wraps ErrValidation; its text is "validation error" for an empty message and "validation error: " + message otherwise |
| Rules.Check | rule.go:39-45 | nil exactly when the predicate holds; otherwise the built failure, which matches ErrValidation and never ErrInternal |
| Rules.NewRuleChecksItsPredicate | rule.go:28-34 | NewRule keeps the message, and the rule passes exactly the targets its predicate accepts |
| Rules.FailureTextEndsWithMessage | rule.go:50-51 | the failure text ends with, so contains, the rule's message |
| Rules.CheckIsRepeatable | rule.go:39-45 | two checks of one target agree on passing and on the failure text; failures built at different addresses are different errors |
| Validators.ZeroValueRunsAll | validator.go:10-22 | the zero-value validator is in RUN_ALL mode |
| Validators.Materialize | validator.go:71-77 | one rule per creator, in creator order, each made for the target; ExtractRules is proved to compute it |
| Validators.RunAllResult | validator.go:47-59 | nil exactly when every rule passes; otherwise a node "validation has failed" with no original whose children are the failures in rule order |
| Validators.FirstFailure | validator.go:61-68 | nil exactly when every outcome is nil; otherwise the outcome at the first failing position |
| Validators.FirstFailureAt | validator.go:62-66 | when position k fails and all before it pass, the first failure is the one at k |
| Validators.InternalError | validator.go:43 | the unknown-mode error matches ErrInternal and not ErrValidation |
| Validators.ExtractRules | validator.go:71-77 | the loop returns Materialize(target, creators): one rule per creator, in creator order, each made for the target |
| Validators.RunAllValidation | validator.go:47-59 | the loop returns RunAllResult and checks every rule once |
| Validators.StopOnFirstFailValidation | validator.go:61-68 | the loop returns the first failure unwrapped, or nil; every rule before the failing one passed and none after it was checked |
| Validators.Validate | validator.go:34-45 | dispatch on the mode: RUN_ALL and STOP_ON_FIRST_FAIL give their strategy's result, nil exactly when all rules pass and otherwise an error matching ErrValidation and not ErrInternal; any other mode gives an error matching ErrInternal and not ErrValidation, with no rule checked |
| Validators.RunAllMatchesValidationOnly | validator.go:55-56 | RUN_ALL's aggregate matches ErrValidation and never ErrInternal |
| Validators.RunAllMatchesEveryFailure | validator.go:47-56 | every rule failure is matched by RUN_ALL's aggregate |
| Validators.StopReportsFirstOfRunAll | validator.go:47-68 | the two modes agree: STOP_ON_FIRST_FAIL gives nil exactly when RUN_ALL does, and otherwise RUN_ALL's first child |
| Validators.FirstFailureIsFirstNonNil | validator.go:61-68 | the first failure is the first of the non-nil outcomes |
| Validators.NoCreatorsPass | validator.go:34-68 | with no creators both modes return nil |
| Scenarios.LiftPlainErrorSkippingNils | error_test.go:64-79 | lifting errA with children nil, errB, nil, errC, nil, nil stores [errB, errC], renders "error A:\n\terror B\n\terror C", and matches ErrValidation, errA, errB, errC |
| Scenarios.SameMessageDifferentNodes | error_test.go:13-19 | two nodes built with the same message are different errors |
| Scenarios.NestedTreeMatches | error_test.go:270-319 | a tree nested two deep matches ErrValidation, the leaves and the inner trees, but not errA |
| Scenarios.DeepChildrenMatch | error_test.go:313-318 | leaves two levels down, and the inner trees themselves, are matched by the root |
| Scenarios.NoErrABelow | error_test.go:313-318 | a tree with no original and no errA anywhere below does not match errA |
| Scenarios.IncorrectModeFails | validator_test.go:17-30 | mode 999 gives an error that matches ErrInternal and not ErrValidation |
| Scenarios.JohnOutcomes | example_test.go:29-77 | for John, aged 18 and without children, the adult rule passes and the other two fail with their texts |
| Scenarios.JohnRunAll | example_test.go:66-77 | RUN_ALL on John gives a node "validation has failed" whose children are the two failures in creator order |
| Scenarios.ExampleRunAll | example_test.go:66-78 | the zero validator yields "validation has failed:" followed by the two failure lines in creator order |
| Scenarios.ExampleStopOnFirstFail | validator.go:61-68 | in STOP_ON_FIRST_FAIL mode the same call yields the children rule's failure, unwrapped |

## Left out

- Update in place and aliasing. `WithErrors` is modelled on values: it returns the updated node instead of assigning `v.errs` through the pointer, so other holders of the same pointer seeing the change is not modelled. The constructors call it only on nodes they have just allocated.
- Allocation. Fresh addresses are parameters (`id`, `addr`) that the caller chooses; that they differ from every live error's address is the caller's obligation, not proved.
- `WithError` and the `Checker` interface are not part of this model: validator.go uses `Checker[T]`, but rule.go defines only `Rule[T]`, so a `Checker[T]` is taken to be a rule. The example's golden output, which relies on `WithError`, is not asserted.
- Reflection in `errors.As`. A target type matches only the exact dynamic type (a `TypeTag`); interface-typed targets and assignability are not modelled.
- Error types supplied by callers that define their own `Is`, `As` or `Unwrap() []error` methods. The model knows plain errors, single-`%w` wrappers and trees only.
- `errors.Is` with a nil target, and Go's comparability check in `errors.Is`. Targets are non-nil errors.
- The `%v` formatting of the wanted-criminals slice in the example's rule messages. The message text is written out.
- Extending modes by embedding `Validator` (validator.go:23-29). It is Go method overriding with no behaviour of its own.
- Concurrency. The library has no synchronisation and no shared mutable state.
- Validators.Validate: only rule.go's implementation of the `Rule[T]` interface (rule.go:17-19) is modelled. A caller's own type with a `Check(T) error` method could return an error that does not wrap ErrValidation, and STOP_ON_FIRST_FAIL would return that error as it is, so it need not match ErrValidation. RUN_ALL's aggregate is a tree and matches it anyway, but could then match ErrInternal. The promises that a known-mode failure matches ErrValidation and never ErrInternal, and that the result is nil exactly when every predicate holds, are made for rules built by NewRule.
- Validators.Validate: its `ensures` bounds STOP_ON_FIRST_FAIL's `calls` by the number of rules. The exact count is stated by StopOnFirstFailValidation.
