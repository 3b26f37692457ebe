/**
 * The error tree of error.go: the `ValidationError` node, its constructors (`From`,
 * `NewValidationError`, `WithErrors`), its renderer (`Error`) and its two queries (`Is`, `As`),
 * together with the part of Go's `errors.Is` / `errors.As` chain walk that those queries call
 * back into for every child.
 *
 * Go errors are values here. An `id` stands for the pointer behind an interface value: every
 * allocation is handed an address that no live error has, so Go's `==` on two errors is `==`
 * on their models.
 */
module ValidationErrors {
  import opened Wrappers

  /** The dynamic type of an error, which `errors.As` compares with the type of its target. */
  datatype TypeTag =
    | WrapErrorType            // *fmt.wrapError, built by fmt.Errorf with one %w verb
    | ValidationErrorType      // *ValidationError
    | PlainType(name: string)  // any other error type, e.g. *errors.errorString

  /** A non-nil Go `error` value. */
  datatype Error =
      // an error with no Is, As or Unwrap method of its own, e.g. one made by errors.New
    | Plain(id: nat, typeName: string, text: string)
      // fmt.Errorf("%w...", inner): its text is fixed when it is built, Unwrap gives inner
    | Wrapped(id: nat, inner: Error, text: string)
      // a *ValidationError
    | Tree(node: ValidationError)

  /**
   * The fields of a *ValidationError (error.go:19-23). The accessors Message, Original and
   * Errors (error.go:136-148) are the destructors msg, original and errs.
   */
  datatype ValidationError = ValidationError(id: nat, original: Option<Error>, msg: string, errs: seq<Error>)

  const ErrorStringType := "*errors.errorString"

  /** The two sentinels of error.go:11 and error.go:13, at the first two addresses. */
  const ErrValidation: Error := Plain(0, ErrorStringType, "validation error")
  const ErrInternal: Error := Plain(1, ErrorStringType, "internal error")

  // ---------------------------------------------------------------------------------------------
  // Filtering nil children

  /** What one variadic argument contributes to the stored children. */
  function Keep(e: Option<Error>): seq<Error>
  {
    if e.Some? then [e.value] else []
  }

  /** The non-nil entries of `errs`, in their order: the children WithErrors stores. */
  function NonNil(errs: seq<Option<Error>>): (r: seq<Error>)
    ensures |r| <= |errs|
    ensures forall e :: e in r <==> Some(e) in errs
  {
    if errs == [] then []
    else
      assert errs == errs[..|errs| - 1] + [errs[|errs| - 1]];
      NonNil(errs[..|errs| - 1]) + Keep(errs[|errs| - 1])
  }

  /** A slice of non-nil errors handed on as the variadic `...error` arguments of a constructor. */
  function Present(xs: seq<Error>): (r: seq<Option<Error>>)
    ensures |r| == |xs|
    ensures forall i :: 0 <= i < |xs| ==> r[i] == Some(xs[i])
  {
    seq(|xs|, i requires 0 <= i < |xs| => Some(xs[i]))
  }

  /** Filtering distributes over concatenation: together with NonNilSingletons this pins NonNil down. */
  lemma {:induction false} NonNilConcat(xs: seq<Option<Error>>, ys: seq<Option<Error>>)
    ensures NonNil(xs + ys) == NonNil(xs) + NonNil(ys)
    decreases |ys|
  {
    if ys == [] {
      assert xs + ys == xs;
    } else {
      var n := |ys| - 1;
      assert (xs + ys)[..|xs + ys| - 1] == xs + ys[..n];
      assert (xs + ys)[|xs + ys| - 1] == ys[n];
      NonNilConcat(xs, ys[..n]);
    }
  }

  /** A nil argument is dropped and a non-nil one is kept as it is. */
  lemma NonNilSingletons(e: Error)
    ensures NonNil([None]) == []
    ensures NonNil([Some(e)]) == [e]
  {
  }

  /** Every argument non-nil: exactly the arguments are stored. */
  lemma {:induction false} NonNilOfPresent(xs: seq<Error>)
    ensures NonNil(Present(xs)) == xs
    decreases |xs|
  {
    if xs != [] {
      var n := |xs| - 1;
      assert Present(xs)[..n] == Present(xs[..n]);
      NonNilOfPresent(xs[..n]);
      assert xs == xs[..n] + [xs[n]];
    }
  }

  /** No argument, or nil arguments only: no child is stored. */
  lemma {:induction false} NonNilEmpty(errs: seq<Option<Error>>)
    ensures NonNil(errs) == [] <==> forall i :: 0 <= i < |errs| ==> errs[i].None?
    decreases |errs|
  {
    if errs != [] {
      var n := |errs| - 1;
      NonNilEmpty(errs[..n]);
      assert forall i :: 0 <= i < n ==> errs[..n][i] == errs[i];
    }
  }

  // ---------------------------------------------------------------------------------------------
  // Constructors

  /**
   * (*ValidationError).WithErrors (error.go:64-73): keeps the non-nil `errs`, in order, as the
   * node's children; the rest of the node is unchanged.
   */
  method WithErrors(v: ValidationError, errs: seq<Option<Error>>) returns (r: ValidationError)
    ensures r == v.(errs := NonNil(errs))
  {
    var nonNilErrs: seq<Error> := [];
    for i := 0 to |errs|
      invariant nonNilErrs == NonNil(errs[..i])
    {
      assert errs[..i + 1][..i] == errs[..i];
      if errs[i].Some? {
        nonNilErrs := nonNilErrs + [errs[i].value];
      }
    }
    assert errs[..|errs|] == errs;
    r := v.(errs := nonNilErrs);
  }

  /**
   * NewValidationError (error.go:54-59): a node at the fresh address `id`, so two calls given
   * different addresses never return the same node, whatever their messages.
   */
  method NewValidationError(id: nat, msg: string, errs: seq<Option<Error>>) returns (v: ValidationError)
    ensures v == ValidationError(id, None, msg, NonNil(errs))
    ensures Is(Tree(v), ErrValidation)
    ensures forall e :: Some(e) in errs ==> Is(Tree(v), e)
  {
    v := ValidationError(id, None, msg, []);
    v := WithErrors(v, errs);
    forall e | Some(e) in errs
      ensures Is(Tree(v), e)
    {
      ChildIsMatched(v, e);
    }
  }

  /**
   * From (error.go:35-49): nil lifts to an empty node (the children given are dropped), a tree
   * is returned as it is, and any other error becomes the original of a fresh node whose
   * message is that error's text.
   */
  method From(id: nat, original: Option<Error>, errs: seq<Option<Error>>) returns (v: ValidationError)
    ensures original.None? ==> v == ValidationError(id, None, "", [])
    ensures original.Some? && original.value.Tree? ==> v == original.value.node
    ensures original.Some? && !original.value.Tree? ==>
              v == ValidationError(id, original, Text(original.value), NonNil(errs))
    ensures Is(Tree(v), ErrValidation)
    ensures original.Some? ==> Is(Tree(v), original.value)
    ensures original.Some? && !original.value.Tree? ==> forall e :: Some(e) in errs ==> Is(Tree(v), e)
  {
    if original.None? {
      v := NewValidationError(id, "", []);
      return;
    }
    if original.value.Tree? {
      return original.value.node;
    }
    var msg := ErrorOf(original.value);
    v := ValidationError(id, original, msg, []);
    v := WithErrors(v, errs);
    forall e | Some(e) in errs
      ensures Is(Tree(v), e)
    {
      ChildIsMatched(v, e);
    }
  }

  // ---------------------------------------------------------------------------------------------
  // Rendering

  /** err.Error() for any error: fixed text for plain errors and wrappers, the tree's rendering otherwise. */
  function Text(e: Error): string
  {
    match e
    case Plain(_, _, text) => text
    case Wrapped(_, _, text) => text
    case Tree(v) => NodeText(v)
  }

  /** The text (*ValidationError).Error() builds (error.go:76-89). */
  function NodeText(v: ValidationError): (r: string)
    ensures |r| >= |v.msg| && r[..|v.msg|] == v.msg
    ensures |v.errs| > 0 ==> |r| > |v.msg| && r[|v.msg|] == ':'
  {
    if |v.errs| == 0 then v.msg else v.msg + ":" + Lines(v.errs)
  }

  /** One line per child: a newline, a tab and the child's text, which is not indented further. */
  function Lines(errs: seq<Error>): (r: string)
    ensures |r| >= 2 * |errs|
  {
    if errs == [] then "" else Lines(errs[..|errs| - 1]) + "\n\t" + Text(errs[|errs| - 1])
  }

  /** The dynamic dispatch of err.Error(). */
  method ErrorOf(e: Error) returns (s: string)
    ensures s == Text(e)
    decreases e
  {
    match e
    case Plain(_, _, text) => s := text;
    case Wrapped(_, _, text) => s := text;
    case Tree(v) => s := Render(v);
  }

  /** (*ValidationError).Error() (error.go:76-89), writing into a builder child by child. */
  method Render(v: ValidationError) returns (s: string)
    ensures s == NodeText(v)
    decreases v
  {
    s := v.msg;
    if |v.errs| > 0 {
      s := s + ":";
      for i := 0 to |v.errs|
        invariant s == v.msg + ":" + Lines(v.errs[..i])
      {
        var line := ErrorOf(v.errs[i]);
        assert v.errs[..i + 1][..i] == v.errs[..i];
        s := s + "\n\t" + line;
      }
      assert v.errs[..|v.errs|] == v.errs;
    }
  }

  lemma {:induction false} LinesConcat(xs: seq<Error>, ys: seq<Error>)
    ensures Lines(xs + ys) == Lines(xs) + Lines(ys)
    decreases |ys|
  {
    if ys == [] {
      assert xs + ys == xs;
    } else {
      var n := |ys| - 1;
      assert (xs + ys)[..|xs + ys| - 1] == xs + ys[..n];
      assert (xs + ys)[|xs + ys| - 1] == ys[n];
      LinesConcat(xs, ys[..n]);
    }
  }

  /** A node without children renders as its message alone. */
  lemma ChildlessRendersMessage(v: ValidationError)
    requires v.errs == []
    ensures NodeText(v) == v.msg
  {
  }

  /**
   * With children, the rendering is the message, a colon, and one line per child in order; the
   * child at position i appears verbatim on its own line, after the lines of the children before it.
   */
  lemma {:induction false} RenderLayout(v: ValidationError, i: nat)
    requires i < |v.errs|
    ensures NodeText(v) == v.msg + ":" + Lines(v.errs[..i]) + "\n\t" + Text(v.errs[i]) + Lines(v.errs[i + 1..])
  {
    var errs := v.errs;
    assert errs == (errs[..i] + [errs[i]]) + errs[i + 1..];
    LinesConcat(errs[..i] + [errs[i]], errs[i + 1..]);
    assert (errs[..i] + [errs[i]])[..i] == errs[..i];
  }

  /** Two children: "msg:\n\tX\n\tY", the layout of the aggregated validation failure. */
  lemma TwoChildrenLayout(v: ValidationError)
    requires |v.errs| == 2
    ensures NodeText(v) == v.msg + ":\n\t" + Text(v.errs[0]) + "\n\t" + Text(v.errs[1])
  {
    assert v.errs[..1][..0] == [];
    assert v.errs[..2 - 1] == [v.errs[0]];
    assert Lines(v.errs[..1]) == "\n\t" + Text(v.errs[0]);
    assert ":" + "\n\t" == ":\n\t";
  }

  /**
   * A nested tree's own lines are inserted as they are: its children carry one tab, like the
   * outer node's, instead of being indented one level deeper.
   */
  lemma NestedLinesNotReindented(v: ValidationError, w: ValidationError)
    requires v.errs == [Tree(w)] && |w.errs| == 1
    ensures NodeText(v) == v.msg + ":\n\t" + w.msg + ":\n\t" + Text(w.errs[0])
  {
    assert v.errs[..0] == [] && w.errs[..0] == [];
    assert Lines(w.errs) == "\n\t" + Text(w.errs[0]);
    assert Text(Tree(w)) == w.msg + ":" + "\n\t" + Text(w.errs[0]);
    assert Lines(v.errs) == "\n\t" + Text(Tree(w));
    assert ":" + "\n\t" == ":\n\t";
  }

  // ---------------------------------------------------------------------------------------------
  // Is

  /** equalErrors (error.go:150-160): the same length and pointwise the same errors. */
  function EqualErrors(s1: seq<Error>, s2: seq<Error>): (r: bool)
    ensures r <==> s1 == s2
  {
    if |s1| != |s2| then false
    else if s1 == [] then true
    else
      assert s1 == [s1[0]] + s1[1..] && s2 == [s2[0]] + s2[1..];
      s1[0] == s2[0] && EqualErrors(s1[1..], s2[1..])
  }

  /** The tests (*ValidationError).Is makes before it looks at the children (error.go:95-106). */
  predicate MatchesNode(v: ValidationError, target: Error)
  {
    || target == ErrValidation
    || v.original == Some(target)
    || (target.Tree? && v.msg == target.node.msg && EqualErrors(v.errs, target.node.errs))
  }

  /**
   * errors.Is(err, target) for a non-nil target: the error itself, then its Is method if it
   * has one (a tree), then, for a wrapper, the error it unwraps to. A tree has no Unwrap method.
   */
  function Is(err: Error, target: Error): bool
    decreases err
  {
    || err == target
    || match err
       case Plain(_, _, _) => false
       case Wrapped(_, inner, _) => Is(inner, target)
       case Tree(v) => NodeIs(v, target)
  }

  /** (*ValidationError).Is (error.go:94-114). */
  function NodeIs(v: ValidationError, target: Error): bool
    decreases v
  {
    MatchesNode(v, target) || AnyChildIs(v, target, 0)
  }

  /** The loop of error.go:108-112 from child i on. */
  function AnyChildIs(v: ValidationError, target: Error, i: nat): bool
    requires i <= |v.errs|
    decreases v, |v.errs| - i
  {
    i < |v.errs| && (Is(v.errs[i], target) || AnyChildIs(v, target, i + 1))
  }

  lemma {:induction false} AnyChildIsIff(v: ValidationError, target: Error, i: nat)
    requires i <= |v.errs|
    ensures AnyChildIs(v, target, i) <==> exists k :: i <= k < |v.errs| && Is(v.errs[k], target)
    decreases |v.errs| - i
  {
    if i < |v.errs| {
      AnyChildIsIff(v, target, i + 1);
    }
  }

  /**
   * A tree matches a target exactly when the target is ErrValidation, its original (compared
   * with == only), a tree with the same message and the same children, or is matched by one of
   * its children.
   */
  lemma NodeIsIff(v: ValidationError, target: Error)
    ensures Is(Tree(v), target) <==>
              || Tree(v) == target
              || target == ErrValidation
              || v.original == Some(target)
              || (target.Tree? && v.msg == target.node.msg && v.errs == target.node.errs)
              || exists k :: 0 <= k < |v.errs| && Is(v.errs[k], target)
  {
    AnyChildIsIff(v, target, 0);
  }

  /** Every tree matches ErrValidation. */
  lemma TreeIsValidation(v: ValidationError)
    ensures Is(Tree(v), ErrValidation)
  {
  }

  /** A target matched by a child is matched by the tree; in particular every child is. */
  lemma ChildIsMatched(v: ValidationError, target: Error)
    ensures (exists c :: c in v.errs && Is(c, target)) ==> Is(Tree(v), target)
    ensures target in v.errs ==> Is(Tree(v), target)
  {
    NodeIsIff(v, target);
    if target in v.errs {
      var k :| 0 <= k < |v.errs| && v.errs[k] == target;
      assert Is(v.errs[k], target);
    }
  }

  /**
   * Matching a tree against another tree compares their messages and children and nothing
   * else: not their addresses, not their originals.
   */
  lemma SameMessageAndChildrenMatch(v: ValidationError, w: ValidationError)
    requires v.msg == w.msg && v.errs == w.errs
    ensures Is(Tree(v), Tree(w)) && Is(Tree(w), Tree(v))
  {
  }

  /**
   * The original is compared with == only: a node lifted from a wrapper does not match what
   * the wrapper wraps, although As finds it.
   */
  lemma OriginalNotUnwrappedByIs(id: nat, w: nat, inner: Error, text: string, msg: string)
    requires inner.Plain? && inner != ErrValidation
    ensures !Is(Tree(ValidationError(id, Some(Wrapped(w, inner, text)), msg, [])), inner)
    ensures As(Tree(ValidationError(id, Some(Wrapped(w, inner, text)), msg, [])), TypeOf(inner)) == Some(inner)
  {
    var v := ValidationError(id, Some(Wrapped(w, inner, text)), msg, []);
    assert !MatchesNode(v, inner);
    assert !AnyChildIs(v, inner, 0);
    assert As(Wrapped(w, inner, text), TypeOf(inner)) == Some(inner);
    assert NodeAs(v, TypeOf(inner)) == Some(inner);
  }

  /** The errors errors.Is examines, in order: down the wrappers and into every child, never into an original. */
  function Chain(e: Error): seq<Error>
  {
    [e] + match e
          case Plain(_, _, _) => []
          case Wrapped(_, inner, _) => Chain(inner)
          case Tree(v) => ChainAll(v.errs)
  }

  function ChainAll(errs: seq<Error>): seq<Error>
  {
    if errs == [] then [] else Chain(errs[0]) + ChainAll(errs[1..])
  }

  /** What errors.Is tests at one error: equality with the target, then the error's own Is method. */
  predicate MatchesAt(x: Error, target: Error)
  {
    x == target || (x.Tree? && MatchesNode(x.node, target))
  }

  predicate SomeMatch(s: seq<Error>, target: Error)
  {
    exists k :: 0 <= k < |s| && MatchesAt(s[k], target)
  }

  lemma SomeMatchConcat(a: seq<Error>, b: seq<Error>, target: Error)
    ensures SomeMatch(a + b, target) <==> SomeMatch(a, target) || SomeMatch(b, target)
  {
    if SomeMatch(a + b, target) {
      var k :| 0 <= k < |a + b| && MatchesAt((a + b)[k], target);
      if k >= |a| {
        assert b[k - |a|] == (a + b)[k];
      }
    }
    if SomeMatch(b, target) {
      var k :| 0 <= k < |b| && MatchesAt(b[k], target);
      assert (a + b)[|a| + k] == b[k];
    }
    if SomeMatch(a, target) {
      var k :| 0 <= k < |a| && MatchesAt(a[k], target);
      assert (a + b)[k] == a[k];
    }
  }

  /** errors.Is holds exactly when some error of the chain matches the target where it stands. */
  lemma {:induction false} IsIffChainMatches(e: Error, target: Error)
    ensures Is(e, target) <==> SomeMatch(Chain(e), target)
    decreases e
  {
    var rest := match e
                case Plain(_, _, _) => []
                case Wrapped(_, inner, _) => Chain(inner)
                case Tree(v) => ChainAll(v.errs);
    assert Chain(e) == [e] + rest;
    SomeMatchConcat([e], rest, target);
    assert [e][0] == e;
    assert SomeMatch([e], target) <==> MatchesAt(e, target);
    match e
    case Plain(_, _, _) =>
    case Wrapped(_, inner, _) =>
      IsIffChainMatches(inner, target);
    case Tree(v) =>
      AnyChildIsIffChain(v, target, 0);
      assert v.errs[0..] == v.errs;
  }

  lemma {:induction false} AnyChildIsIffChain(v: ValidationError, target: Error, i: nat)
    requires i <= |v.errs|
    ensures AnyChildIs(v, target, i) <==> SomeMatch(ChainAll(v.errs[i..]), target)
    decreases v, |v.errs| - i
  {
    if i < |v.errs| {
      assert v.errs[i..][0] == v.errs[i] && v.errs[i..][1..] == v.errs[i + 1..];
      IsIffChainMatches(v.errs[i], target);
      AnyChildIsIffChain(v, target, i + 1);
      SomeMatchConcat(Chain(v.errs[i]), ChainAll(v.errs[i + 1..]), target);
    }
  }

  // ---------------------------------------------------------------------------------------------
  // As

  function TypeOf(e: Error): TypeTag
  {
    match e
    case Plain(_, name, _) => PlainType(name)
    case Wrapped(_, _, _) => WrapErrorType
    case Tree(_) => ValidationErrorType
  }

  /**
   * errors.As(err, &target) for a target of type `tag`: the error stored into the target, or
   * None where As returns false. The error itself is tried first, then its As method (a
   * tree), then, for a wrapper, the error it unwraps to.
   */
  function As(err: Error, tag: TypeTag): (r: Option<Error>)
    ensures r.Some? ==> TypeOf(r.value) == tag
    decreases err
  {
    if TypeOf(err) == tag then Some(err)
    else
      match err
      case Plain(_, _, _) => None
      case Wrapped(_, inner, _) => As(inner, tag)
      case Tree(v) => NodeAs(v, tag)
  }

  /** (*ValidationError).As (error.go:121-133): the original's chain, then each child's; errors.As(nil, _) is false. */
  function NodeAs(v: ValidationError, tag: TypeTag): (r: Option<Error>)
    ensures r.Some? ==> TypeOf(r.value) == tag
    decreases v
  {
    var fromOriginal := if v.original.Some? then As(v.original.value, tag) else None;
    if fromOriginal.Some? then fromOriginal else FirstChildAs(v, tag, 0)
  }

  /** The loop of error.go:126-130 from child i on. */
  function FirstChildAs(v: ValidationError, tag: TypeTag, i: nat): (r: Option<Error>)
    requires i <= |v.errs|
    ensures r.Some? ==> TypeOf(r.value) == tag
    decreases v, |v.errs| - i
  {
    if i == |v.errs| then None
    else
      var found := As(v.errs[i], tag);
      if found.Some? then found else FirstChildAs(v, tag, i + 1)
  }

  /** The errors errors.As examines, in order: preorder, a node's original before its children. */
  function Visits(e: Error): seq<Error>
  {
    [e] + match e
          case Plain(_, _, _) => []
          case Wrapped(_, inner, _) => Visits(inner)
          case Tree(v) => (if v.original.Some? then Visits(v.original.value) else []) + VisitsAll(v.errs)
  }

  function VisitsAll(errs: seq<Error>): seq<Error>
  {
    if errs == [] then [] else Visits(errs[0]) + VisitsAll(errs[1..])
  }

  /** The first error of `s` whose type is `tag`. */
  function FirstOfType(s: seq<Error>, tag: TypeTag): (r: Option<Error>)
    ensures r.None? <==> forall k :: 0 <= k < |s| ==> TypeOf(s[k]) != tag
    ensures r.Some? ==> exists k :: 0 <= k < |s| && s[k] == r.value && TypeOf(s[k]) == tag &&
                                    forall j :: 0 <= j < k ==> TypeOf(s[j]) != tag
  {
    if s == [] then None
    else if TypeOf(s[0]) == tag then Some(s[0])
    else
      var r := FirstOfType(s[1..], tag);
      assert forall k :: 1 <= k < |s| ==> s[k] == s[1..][k - 1];
      r
  }

  lemma {:induction false} FirstOfTypeConcat(a: seq<Error>, b: seq<Error>, tag: TypeTag)
    ensures FirstOfType(a + b, tag) == if FirstOfType(a, tag).Some? then FirstOfType(a, tag) else FirstOfType(b, tag)
    decreases |a|
  {
    if a == [] {
      assert a + b == b;
    } else {
      assert (a + b)[0] == a[0] && (a + b)[1..] == a[1..] + b;
      FirstOfTypeConcat(a[1..], b, tag);
    }
  }

  /** errors.As on a tree returns the first error of the preorder walk that has the target's type. */
  lemma {:induction false} AsIsFirstVisited(e: Error, tag: TypeTag)
    ensures As(e, tag) == FirstOfType(Visits(e), tag)
    decreases e, 1
  {
    var rest := match e
                case Plain(_, _, _) => []
                case Wrapped(_, inner, _) => Visits(inner)
                case Tree(v) => (if v.original.Some? then Visits(v.original.value) else []) + VisitsAll(v.errs);
    assert Visits(e) == [e] + rest;
    FirstOfTypeConcat([e], rest, tag);
    match e
    case Plain(_, _, _) =>
    case Wrapped(_, inner, _) =>
      AsIsFirstVisited(inner, tag);
    case Tree(v) =>
      var fromOriginal := if v.original.Some? then Visits(v.original.value) else [];
      if v.original.Some? {
        AsIsFirstVisited(v.original.value, tag);
      }
      FirstOfTypeConcat(fromOriginal, VisitsAll(v.errs), tag);
      FirstChildAsIsFirstVisited(v, tag, 0);
      assert v.errs[0..] == v.errs;
  }

  lemma {:induction false} FirstChildAsIsFirstVisited(v: ValidationError, tag: TypeTag, i: nat)
    requires i <= |v.errs|
    ensures FirstChildAs(v, tag, i) == FirstOfType(VisitsAll(v.errs[i..]), tag)
    decreases v, 0, |v.errs| - i
  {
    if i < |v.errs| {
      assert v.errs[i..][0] == v.errs[i] && v.errs[i..][1..] == v.errs[i + 1..];
      AsIsFirstVisited(v.errs[i], tag);
      FirstChildAsIsFirstVisited(v, tag, i + 1);
      FirstOfTypeConcat(Visits(v.errs[i]), VisitsAll(v.errs[i + 1..]), tag);
    }
  }

  /**
   * As fails exactly when nothing in the tree (the error, originals, children, and what
   * wrappers wrap) has the target's type; when it succeeds it returns the first such error of
   * the preorder walk.
   */
  lemma AsFindsFirstOfType(e: Error, tag: TypeTag)
    ensures As(e, tag).None? <==> forall k :: 0 <= k < |Visits(e)| ==> TypeOf(Visits(e)[k]) != tag
    ensures As(e, tag).Some? ==>
              exists k :: 0 <= k < |Visits(e)| && Visits(e)[k] == As(e, tag).value &&
                          forall j :: 0 <= j < k ==> TypeOf(Visits(e)[j]) != tag
  {
    AsIsFirstVisited(e, tag);
  }

  /** Every tree can be stored into a *ValidationError target: itself. */
  lemma TreeAsItself(v: ValidationError)
    ensures As(Tree(v), ValidationErrorType) == Some(Tree(v))
  {
  }
}
