/**
 * `WhenChangedGenerator`: turns `WhenChanged(x => x.a.b.c)` call sites into method and class data.
 * Roslyn's syntax trees become the `Expr` datatype; its semantic model becomes `SemanticModel`, a record
 * of the few queries the generator makes.
 */
module WhenChangedGenerator {
  import opened Wrappers
  import opened Seqs
  import opened Text
  import opened CodeAnalysis
  import opened Datums

  /** The display string of the extension class whose `WhenChanged` overloads are analysed. */
  const ExtensionClassFullName: string := "NotifyPropertyChangedExtensions"

  /** A type symbol handle; equal handles are the same symbol. */
  type TypeId = nat

  /** The expression syntax a lambda body is made of; `id` tells apart nodes with the same shape. */
  datatype Expr =
    | MemberAccess(id: nat, expression: Expr, name: string)   // `expression.name`
    | IdentifierName(id: nat, identifier: string)
    | OtherExpression(id: nat)                                 // a call, indexer, literal, cast, ...

  /** A lambda `parameterName => body` (simple or parenthesised; only its first parameter matters). */
  datatype LambdaExpression = LambdaExpression(parameterName: string, body: Expr)

  /** The expression of one call argument: an inline lambda, or anything else (a variable, a call, ...). */
  datatype ArgumentExpression = InlineLambda(lambda: LambdaExpression) | NotInline

  datatype Argument = Argument(id: nat, expression: ArgumentExpression)

  datatype InvocationExpression = InvocationExpression(id: nat, arguments: seq<Argument>)

  /** The method a call resolves to: its containing type's display string and its type arguments. */
  datatype MethodSymbol = MethodSymbol(containingTypeDisplayString: string, typeArguments: seq<TypeId>)

  /** What the generator reads about a monitored type to declare a partial class for it. */
  datatype TypeDeclarationInfo = TypeDeclarationInfo(
    fullName: string, namespaceName: string, name: string, accessModifier: Accessibility,
    ancestorClasses: seq<AncestorClassInfo>)

  /** The semantic-model queries the generator makes, as total functions. */
  datatype SemanticModel = SemanticModel(
    methodSymbolOf: InvocationExpression -> Option<MethodSymbol>, // GetSymbolInfo(invocation).Symbol as IMethodSymbol
    argumentTypeName: Argument -> string,          // GetTypeInfo(argument.Expression).ConvertedType.Name
    typeOf: Expr -> TypeId,                        // GetTypeInfo(expression).Type (= ConvertedType here)
    memberTypeOf: Expr -> TypeId,                  // GetTypeInfo(memberAccess.Name).Type
    memberAccessibility: Expr -> Accessibility,    // DeclaredAccessibility of the member a member access names
    typeAccessibility: TypeId -> Accessibility,    // DeclaredAccessibility of a type
    displayString: TypeId -> string,               // ToDisplayString()
    declarationInfo: TypeId -> TypeDeclarationInfo,
    variableName: TypeId -> string,                // GetVariableName()
    sourceText: Expr -> string,                    // ToString() of a syntax node
    isNamedType: TypeId -> bool,                   // the type is an INamedTypeSymbol (not an array, a type parameter, dynamic, ...)
    declaredInSource: Expr -> bool,                // the member a member access names has a declaring syntax reference
    invariantCultureEquals: (string, string) -> bool) // string.Equals(a, b, StringComparison.InvariantCulture)

  datatype DiagnosticKind = OnlyPropertyAndFieldAccessAllowed | LambdaParameterMustBeUsed | ExpressionMustBeInline

  /** A reported diagnostic and the id of the node it is reported at. */
  datatype Diagnostic = Diagnostic(kind: DiagnosticKind, location: nat)

  // ---------------------------------------------------------------------------------------------
  // Expression chains

  /** The expression the member-access walk stops at. */
  function Innermost(e: Expr): (r: Expr)
    ensures !r.MemberAccess?
  {
    if e.MemberAccess? then Innermost(e.expression) else e
  }

  /** The link one member-access node contributes. */
  function LinkOf(m: Expr, model: SemanticModel): Link
    requires m.MemberAccess?
  {
    Link(m.name, model.displayString(model.typeOf(m.expression)), model.displayString(model.memberTypeOf(m)))
  }

  /** The links of the member accesses of `e`, root to leaf. */
  function ChainLinks(e: Expr, model: SemanticModel): seq<Link>
  {
    if e.MemberAccess? then ChainLinks(e.expression, model) + [LinkOf(e, model)] else []
  }

  /** The nodes from the innermost expression out to `e`: the root, then one member access per hop. */
  function NodesOf(e: Expr): (nodes: seq<Expr>)
    ensures |nodes| > 0 && nodes[0] == Innermost(e) && nodes[|nodes| - 1] == e
  {
    if e.MemberAccess? then NodesOf(e.expression) + [e] else [e]
  }

  /** The member access `m` has a target or a member whose type is not a named type: `as INamedTypeSymbol` gives null. */
  predicate UnnamedHop(m: Expr, model: SemanticModel)
  {
    m.MemberAccess? && (!model.isNamedType(model.typeOf(m.expression)) || !model.isNamedType(model.memberTypeOf(m)))
  }

  /** The walk from `e` inwards meets an unnamed hop. */
  predicate WalkThrows(e: Expr, model: SemanticModel)
  {
    e.MemberAccess? && (UnnamedHop(e, model) || WalkThrows(e.expression, model))
  }

  /** The walk throws exactly when one of the nodes of `e` is an unnamed hop. */
  lemma {:induction false} WalkThrowsIffUnnamedNode(e: Expr, model: SemanticModel)
    ensures WalkThrows(e, model) <==> exists k :: 0 <= k < |NodesOf(e)| && UnnamedHop(NodesOf(e)[k], model)
  {
    if e.MemberAccess? {
      WalkThrowsIffUnnamedNode(e.expression, model);
      var front := NodesOf(e.expression);
      assert NodesOf(e) == front + [e];
      if WalkThrows(e.expression, model) {
        var k :| 0 <= k < |front| && UnnamedHop(front[k], model);
        assert NodesOf(e)[k] == front[k];
      }
      if exists k :: 0 <= k < |NodesOf(e)| && UnnamedHop(NodesOf(e)[k], model) {
        var k :| 0 <= k < |NodesOf(e)| && UnnamedHop(NodesOf(e)[k], model);
        if k < |front| {
          assert NodesOf(e)[k] == front[k];
        }
      }
    }
  }

  /**
   * `GetExpressionChain`: throws `NullReferenceException` when some hop has an unnamed type; otherwise the
   * links root to leaf when the walk ends at an identifier equal (in the invariant culture) to the lambda
   * parameter's name, and otherwise the diagnostic it reports.
   */
  function ExpressionChain(lambda: LambdaExpression, model: SemanticModel): (r: Outcome<Result<seq<Link>, Diagnostic>>)
    ensures r.Threw? <==> WalkThrows(lambda.body, model)
    ensures r.Threw? ==> r.exception == NullReferenceException
    ensures r.Returned? ==>
              (r.value.Success? <==>
                 Innermost(lambda.body).IdentifierName? &&
                 model.invariantCultureEquals(lambda.parameterName, Innermost(lambda.body).identifier))
    ensures r.Returned? && r.value.Success? ==> r.value.value == ChainLinks(lambda.body, model)
    ensures r.Returned? && r.value.Failure? && !Innermost(lambda.body).IdentifierName? ==>
              r.value.error == Diagnostic(OnlyPropertyAndFieldAccessAllowed, Innermost(lambda.body).id)
    ensures r.Returned? && r.value.Failure? && Innermost(lambda.body).IdentifierName? ==>
              r.value.error == Diagnostic(LambdaParameterMustBeUsed, lambda.body.id)
  {
    var first := Innermost(lambda.body);
    if WalkThrows(lambda.body, model) then Threw(NullReferenceException)
    else if !first.IdentifierName? then Returned(Failure(Diagnostic(OnlyPropertyAndFieldAccessAllowed, first.id)))
    else if model.invariantCultureEquals(lambda.parameterName, first.identifier) then Returned(Success(ChainLinks(lambda.body, model)))
    else Returned(Failure(Diagnostic(LambdaParameterMustBeUsed, lambda.body.id)))
  }

  /** The walk of `GetExpressionChain`: collect leaf to root, then reverse. */
  method GetExpressionChain(lambda: LambdaExpression, model: SemanticModel) returns (r: Outcome<Result<seq<Link>, Diagnostic>>)
    ensures r == ExpressionChain(lambda, model)
  {
    var members: seq<Link> := [];
    var expression := lambda.body;
    while expression.MemberAccess?
      invariant ChainLinks(lambda.body, model) == ChainLinks(expression, model) + Reversed(members)
      invariant Innermost(expression) == Innermost(lambda.body)
      invariant WalkThrows(lambda.body, model) <==> WalkThrows(expression, model)
      decreases expression
    {
      var name := expression.name;
      var inputType := model.typeOf(expression.expression);
      var outputType := model.memberTypeOf(expression);
      if !model.isNamedType(inputType) || !model.isNamedType(outputType) {
        return Threw(NullReferenceException);
      }
      var link := Link(name, model.displayString(inputType), model.displayString(outputType));
      ReversedSnoc(members, link);
      members := members + [link];
      expression := expression.expression;
    }
    if !expression.IdentifierName? {
      return Returned(Failure(Diagnostic(OnlyPropertyAndFieldAccessAllowed, expression.id)));
    }
    if model.invariantCultureEquals(lambda.parameterName, expression.identifier) {
      assert ChainLinks(expression, model) + Reversed(members) == Reversed(members);
      members := Reversed(members);
      return Returned(Success(members));
    }
    return Returned(Failure(Diagnostic(LambdaParameterMustBeUsed, lambda.body.id)));
  }

  /** Each link is the link of the member access at the same depth, whose target is the node before it. */
  lemma {:induction false} ChainLinksFollowNodes(e: Expr, model: SemanticModel)
    ensures |NodesOf(e)| == |ChainLinks(e, model)| + 1
    ensures forall k :: 1 <= k < |NodesOf(e)| ==>
              NodesOf(e)[k].MemberAccess? && NodesOf(e)[k].expression == NodesOf(e)[k - 1] &&
              ChainLinks(e, model)[k - 1] == LinkOf(NodesOf(e)[k], model)
  {
    if e.MemberAccess? {
      ChainLinksFollowNodes(e.expression, model);
    }
  }

  /** `root.n0.n1...`: the member-access expression that names `names` in order. */
  function AccessPath(root: Expr, names: seq<string>): (e: Expr)
    ensures Innermost(e) == Innermost(root)
  {
    if names == [] then root else MemberAccess(|names|, AccessPath(root, names[..|names| - 1]), names[|names| - 1])
  }

  function LinkNames(links: seq<Link>): (names: seq<string>)
    ensures |names| == |links|
    ensures forall i :: 0 <= i < |links| ==> names[i] == links[i].name
  {
    seq(|links|, i requires 0 <= i < |links| => links[i].name)
  }

  /**
   * Writing a member path on the lambda parameter and extracting its chain gives the path back, unless
   * the walk throws on a hop whose type is not a named type.
   */
  lemma {:induction false} ChainRoundTrip(p: string, rootId: nat, names: seq<string>, model: SemanticModel)
    requires model.invariantCultureEquals(p, p)
    ensures var r := ExpressionChain(LambdaExpression(p, AccessPath(IdentifierName(rootId, p), names)), model);
            r.Returned? ==> r.value.Success? && LinkNames(r.value.value) == names
  {
    PathLinkNames(IdentifierName(rootId, p), names, model);
  }

  lemma {:induction false} PathLinkNames(root: Expr, names: seq<string>, model: SemanticModel)
    requires !root.MemberAccess?
    ensures LinkNames(ChainLinks(AccessPath(root, names), model)) == names
    decreases |names|
  {
    if names != [] {
      var front := names[..|names| - 1];
      PathLinkNames(root, front, model);
      assert front + [names[|names| - 1]] == names;
    }
  }

  /** `x => x` is a valid chain without links: there is no hop to throw on. */
  lemma IdentityLambdaHasEmptyChain(p: string, rootId: nat, model: SemanticModel)
    requires model.invariantCultureEquals(p, p)
    ensures ExpressionChain(LambdaExpression(p, IdentifierName(rootId, p)), model) == Returned(Success([]))
  {
  }

  /** A lambda that does not start at its own parameter is rejected, however its body continues. */
  lemma OtherRootRejected(p: string, q: string, rootId: nat, names: seq<string>, model: SemanticModel)
    requires !model.invariantCultureEquals(p, q)
    ensures var r := ExpressionChain(LambdaExpression(p, AccessPath(IdentifierName(rootId, q), names)), model);
            r.Returned? ==> r.value == Failure(Diagnostic(LambdaParameterMustBeUsed, AccessPath(IdentifierName(rootId, q), names).id))
  {
  }

  // ---------------------------------------------------------------------------------------------
  // Visibility classification

  /**
   * `ContainsPrivateOrProtectedMember`: some member accessed on an expression of the root's type (the
   * type of the innermost expression) is declared protected or narrower. Hops on other types are not looked at.
   */
  predicate ContainsPrivateOrProtectedMemberSpec(lambda: LambdaExpression, model: SemanticModel)
  {
    var nodes := NodesOf(lambda.body);
    exists i :: 1 <= i < |nodes| && RestrictedHop(nodes, i, model)
  }

  /** Hop `i` starts from a node of the root's type: the only hops the scan looks at. */
  predicate RootTypeHop(nodes: seq<Expr>, i: int, model: SemanticModel)
    requires 1 <= i < |nodes|
  {
    model.typeOf(nodes[i - 1]) == model.typeOf(nodes[0])
  }

  /** Hop `i` goes from a node of the root's type to a member declared protected or narrower. */
  predicate RestrictedHop(nodes: seq<Expr>, i: int, model: SemanticModel)
    requires 1 <= i < |nodes|
  {
    RootTypeHop(nodes, i, model) && AtMostProtected(model.memberAccessibility(nodes[i]))
  }

  /** Every root-type hop after `i` is declared in source and wider than protected: the scan passes it by. */
  predicate PassedOver(nodes: seq<Expr>, i: int, model: SemanticModel)
    requires 0 <= i < |nodes|
  {
    forall j :: i < j < |nodes| && RootTypeHop(nodes, j, model) ==>
      model.declaredInSource(nodes[j]) && !AtMostProtected(model.memberAccessibility(nodes[j]))
  }

  /**
   * The scan from hop `i` down to hop 1 throws: it reaches a root-type hop whose member has no declaring
   * syntax (it comes from metadata), where `DeclaringSyntaxReferences.First()` throws, before any root-type
   * hop to a restricted member, where it returns.
   */
  predicate ScanThrowsFrom(nodes: seq<Expr>, i: int, model: SemanticModel)
    requires 0 <= i < |nodes|
    decreases i
  {
    if i == 0 then false
    else if !RootTypeHop(nodes, i, model) then ScanThrowsFrom(nodes, i - 1, model)
    else !model.declaredInSource(nodes[i]) ||
         (!AtMostProtected(model.memberAccessibility(nodes[i])) && ScanThrowsFrom(nodes, i - 1, model))
  }

  /** The whole scan, from the leaf down, throws. */
  predicate ScanThrows(nodes: seq<Expr>, model: SemanticModel)
    requires |nodes| > 0
  {
    ScanThrowsFrom(nodes, |nodes| - 1, model)
  }

  /**
   * Hop `k` has a member declared only in metadata, and every root-type hop after it up to `i` is declared
   * in source and wider than protected.
   */
  predicate ThrowsAt(nodes: seq<Expr>, k: int, i: int, model: SemanticModel)
    requires i < |nodes|
  {
    1 <= k <= i && RootTypeHop(nodes, k, model) && !model.declaredInSource(nodes[k]) &&
    forall j :: k < j <= i && RootTypeHop(nodes, j, model) ==>
      model.declaredInSource(nodes[j]) && !AtMostProtected(model.memberAccessibility(nodes[j]))
  }

  /** The scan from hop `i` down throws exactly when some hop `k` up to `i` is such a hop. */
  lemma {:induction false} ScanThrowsIff(nodes: seq<Expr>, i: int, model: SemanticModel)
    requires 0 <= i < |nodes|
    ensures ScanThrowsFrom(nodes, i, model) <==> exists k :: ThrowsAt(nodes, k, i, model)
    decreases i
  {
    if i > 0 {
      ScanThrowsIff(nodes, i - 1, model);
      var root := RootTypeHop(nodes, i, model);
      var declared := model.declaredInSource(nodes[i]);
      var restricted := AtMostProtected(model.memberAccessibility(nodes[i]));
      if root && !declared {
        assert ThrowsAt(nodes, i, i, model);
      } else if root && restricted {
        forall k ensures !ThrowsAt(nodes, k, i, model) {
          if 1 <= k < i && RootTypeHop(nodes, k, model) && !model.declaredInSource(nodes[k]) {
            assert !(model.declaredInSource(nodes[i]) && !AtMostProtected(model.memberAccessibility(nodes[i])));
          }
        }
      } else {
        assert root ==> declared && !restricted;
        assert ScanThrowsFrom(nodes, i, model) == ScanThrowsFrom(nodes, i - 1, model);
        forall k ensures ThrowsAt(nodes, k, i, model) <==> ThrowsAt(nodes, k, i - 1, model) {
          if 1 <= k < i {
            assert (forall j :: k < j <= i && RootTypeHop(nodes, j, model) ==>
                      model.declaredInSource(nodes[j]) && !AtMostProtected(model.memberAccessibility(nodes[j]))) <==>
                   (forall j :: k < j <= i - 1 && RootTypeHop(nodes, j, model) ==>
                      model.declaredInSource(nodes[j]) && !AtMostProtected(model.memberAccessibility(nodes[j])));
          }
        }
        if ScanThrowsFrom(nodes, i - 1, model) {
          var k :| ThrowsAt(nodes, k, i - 1, model);
          assert ThrowsAt(nodes, k, i, model);
        }
        if exists k :: ThrowsAt(nodes, k, i, model) {
          var k :| ThrowsAt(nodes, k, i, model);
          assert ThrowsAt(nodes, k, i - 1, model);
        }
      }
    }
  }

  predicate ContainsPrivateOrProtectedMemberThrows(lambda: LambdaExpression, model: SemanticModel)
  {
    ScanThrows(NodesOf(lambda.body), model)
  }

  /**
   * The walk of `ContainsPrivateOrProtectedMember`: collect the nodes, reverse, test hops from the leaf
   * down; it throws `InvalidOperationException` when the scan reaches a member declared only in metadata.
   */
  method ContainsPrivateOrProtectedMember(lambda: LambdaExpression, model: SemanticModel) returns (r: Outcome<bool>)
    ensures r.Threw? <==> ContainsPrivateOrProtectedMemberThrows(lambda, model)
    ensures r.Threw? ==> r.exception == InvalidOperationException
    ensures r.Returned? ==> r.value == ContainsPrivateOrProtectedMemberSpec(lambda, model)
  {
    var members := CollectNodes(lambda.body);
    r := AnyRestrictedHop(members, model);
  }

  /** The first loop: walk down to the innermost expression, collecting every node, then reverse. */
  method CollectNodes(body: Expr) returns (members: seq<Expr>)
    ensures members == NodesOf(body)
  {
    members := [];
    var expression := body;
    while expression.MemberAccess?
      invariant NodesOf(body) == NodesOf(expression) + Reversed(members)
      decreases expression
    {
      ReversedSnoc(members, expression);
      members := members + [expression];
      expression := expression.expression;
    }
    ReversedSnoc(members, expression);
    members := members + [expression];
    members := Reversed(members);
  }

  /** The second loop: from the leaf down, look for a hop on the root's type to a restricted member. */
  method AnyRestrictedHop(members: seq<Expr>, model: SemanticModel) returns (r: Outcome<bool>)
    requires |members| > 0
    ensures r.Threw? <==> ScanThrows(members, model)
    ensures r.Threw? ==> r.exception == InvalidOperationException
    ensures r.Returned? ==> (r.value <==> exists i :: 1 <= i < |members| && RestrictedHop(members, i, model))
  {
    var inputType := model.typeOf(members[0]);
    var i := |members| - 1;
    while i > 0
      invariant 0 <= i < |members|
      invariant PassedOver(members, i, model)
      invariant ScanThrows(members, model) == ScanThrowsFrom(members, i, model)
    {
      var parent := members[i - 1];
      var child := members[i];
      if model.typeOf(parent) == inputType {
        if !model.declaredInSource(child) {
          assert RootTypeHop(members, i, model);
          return Threw(InvalidOperationException);
        }
        if AtMostProtected(model.memberAccessibility(child)) {
          assert RestrictedHop(members, i, model);
          return Returned(true);
        }
      }
      i := i - 1;
    }
    return Returned(false);
  }

  /** The restricted flag of an expression argument: the root type, or a root-type hop, is protected or narrower. */
  predicate IsRestricted(inputType: TypeId, lambda: LambdaExpression, model: SemanticModel)
  {
    AtMostProtected(model.typeAccessibility(inputType)) || ContainsPrivateOrProtectedMemberSpec(lambda, model)
  }

  /** `||` evaluates the scan only when the root type is wider than protected; only then can it throw. */
  predicate RestrictionThrows(inputType: TypeId, lambda: LambdaExpression, model: SemanticModel)
  {
    !AtMostProtected(model.typeAccessibility(inputType)) && ContainsPrivateOrProtectedMemberThrows(lambda, model)
  }

  /** The two models agree on the accessibility of every member reached from the root's type. */
  predicate SameOnRootTypeHops(nodes: seq<Expr>, model: SemanticModel, model': SemanticModel)
    requires |nodes| > 0
  {
    forall i :: 1 <= i < |nodes| && model.typeOf(nodes[i - 1]) == model.typeOf(nodes[0]) ==>
      model'.memberAccessibility(nodes[i]) == model.memberAccessibility(nodes[i])
  }

  /** Only hops on the root's type count: changing the accessibility of members reached from other types changes nothing. */
  lemma OnlyRootTypeHopsMatter(lambda: LambdaExpression, model: SemanticModel, model': SemanticModel)
    requires model'.typeOf == model.typeOf
    requires SameOnRootTypeHops(NodesOf(lambda.body), model, model')
    ensures ContainsPrivateOrProtectedMemberSpec(lambda, model') == ContainsPrivateOrProtectedMemberSpec(lambda, model)
  {
    var nodes := NodesOf(lambda.body);
    if ContainsPrivateOrProtectedMemberSpec(lambda, model) {
      var i :| 1 <= i < |nodes| && RestrictedHop(nodes, i, model);
      assert model'.memberAccessibility(nodes[i]) == model.memberAccessibility(nodes[i]);
      assert RestrictedHop(nodes, i, model');
    }
    if ContainsPrivateOrProtectedMemberSpec(lambda, model') {
      var i :| 1 <= i < |nodes| && RestrictedHop(nodes, i, model');
      assert model'.memberAccessibility(nodes[i]) == model.memberAccessibility(nodes[i]);
      assert RestrictedHop(nodes, i, model);
    }
  }

  /** For `x => x.m`, the only hop is on the root's type: the member's own accessibility decides. */
  lemma SingleHopClassification(p: string, rootId: nat, m: string, id: nat, model: SemanticModel)
    ensures var body := MemberAccess(id, IdentifierName(rootId, p), m);
            ContainsPrivateOrProtectedMemberSpec(LambdaExpression(p, body), model) <==>
              AtMostProtected(model.memberAccessibility(body))
    ensures var body := MemberAccess(id, IdentifierName(rootId, p), m);
            ContainsPrivateOrProtectedMemberThrows(LambdaExpression(p, body), model) <==> !model.declaredInSource(body)
  {
    var body := MemberAccess(id, IdentifierName(rootId, p), m);
    var nodes := NodesOf(body);
    assert NodesOf(IdentifierName(rootId, p)) == [IdentifierName(rootId, p)];
    assert nodes == [IdentifierName(rootId, p), body];
    if AtMostProtected(model.memberAccessibility(body)) {
      assert RestrictedHop(nodes, 1, model);
    }
    assert RootTypeHop(nodes, 1, model);
  }

  // ---------------------------------------------------------------------------------------------
  // Collecting the expression arguments of every WhenChanged call

  /** One collected lambda argument; `expressionChain` is `None` (C# `null`) for a rejected chain. */
  datatype ExpressionArgument = ExpressionArgument(
    lambdaBodyString: string, expressionChain: Option<seq<Link>>, inputType: TypeId, outputType: TypeId,
    containsPrivateOrProtectedMember: bool)

  /** What `ExtractWhenChangedInvocationInfo` collects, with the diagnostics it reports, in order. */
  datatype WhenChangedInvocationInfo = WhenChangedInvocationInfo(
    allExpressionArgumentsAreValid: bool, expressionArguments: seq<ExpressionArgument>,
    multiExpressionMethodData: seq<MethodDatum>, diagnostics: seq<Diagnostic>)

  const InitialInfo := WhenChangedInvocationInfo(true, [], [], [])

  /** `HashSet<T>.Add`, the set held in insertion order: `x` joins unless an equal element is there. */
  function HashSetAdd<T(==)>(s: seq<T>, x: T): (r: seq<T>)
    ensures x in r
    ensures forall y <- s :: y in r
    ensures forall y <- r :: y in s || y == x
    ensures (forall i, j :: 0 <= i < j < |s| ==> s[i] != s[j]) ==> forall i, j :: 0 <= i < j < |r| ==> r[i] != r[j]
  {
    if x in s then s else s + [x]
  }

  /** The call resolves to a method of the `NotifyPropertyChangedExtensions` class. */
  predicate IsWhenChangedMethod(model: SemanticModel, invocation: InvocationExpression)
  {
    model.methodSymbolOf(invocation).Some? &&
    model.methodSymbolOf(invocation).value.containingTypeDisplayString == ExtensionClassFullName
  }

  /** The `WhenChanged` overloads are generic in the monitored type: `TypeArguments[0]` exists. */
  predicate HasInputType(model: SemanticModel, invocation: InvocationExpression)
  {
    IsWhenChangedMethod(model, invocation) ==> |model.methodSymbolOf(invocation).value.typeArguments| > 0
  }

  predicate WellFormed(invocations: seq<InvocationExpression>, model: SemanticModel)
  {
    forall i :: 0 <= i < |invocations| ==> HasInputType(model, invocations[i])
  }

  /** The argument converts to `Expression<...>`. */
  predicate IsExpressionArgument(model: SemanticModel, argument: Argument)
  {
    model.argumentTypeName(argument) == "Expression"
  }

  /** The collected datum for one inline lambda argument (meaningful when neither its walk nor its scan throws). */
  function ExpressionArgumentOf(symbol: MethodSymbol, lambda: LambdaExpression, model: SemanticModel): ExpressionArgument
    requires |symbol.typeArguments| > 0
  {
    var inputType := symbol.typeArguments[0];
    var chain := ExpressionChain(lambda, model);
    ExpressionArgument(model.sourceText(lambda.body), if chain.Returned? && chain.value.Success? then Some(chain.value.value) else None,
                       inputType, model.typeOf(lambda.body), IsRestricted(inputType, lambda, model))
  }

  /** What one argument throws, if anything: the chain walk runs first, then (maybe) the scan. */
  function ExceptionOfArgument(symbol: MethodSymbol, argument: Argument, model: SemanticModel): Option<Exception>
    requires |symbol.typeArguments| > 0
  {
    if !IsExpressionArgument(model, argument) || argument.expression.NotInline? then None
    else if ExpressionChain(argument.expression.lambda, model).Threw? then Some(NullReferenceException)
    else if RestrictionThrows(symbol.typeArguments[0], argument.expression.lambda, model) then Some(InvalidOperationException)
    else None
  }

  /** The inner loop body: one argument of a WhenChanged call. */
  function AddArgument(info: WhenChangedInvocationInfo, symbol: MethodSymbol, argument: Argument, model: SemanticModel): Outcome<WhenChangedInvocationInfo>
    requires |symbol.typeArguments| > 0
  {
    var exception := ExceptionOfArgument(symbol, argument, model);
    if exception.Some? then Threw(exception.value)
    else if !IsExpressionArgument(model, argument) then Returned(info)
    else match argument.expression
      case InlineLambda(lambda) =>
        var chain := ExpressionChain(lambda, model).value;
        Returned(info.(allExpressionArgumentsAreValid := info.allExpressionArgumentsAreValid && chain.Success?,
                       expressionArguments := HashSetAdd(info.expressionArguments, ExpressionArgumentOf(symbol, lambda, model)),
                       diagnostics := info.diagnostics + (if chain.Failure? then [chain.error] else [])))
      case NotInline =>
        Returned(info.(allExpressionArgumentsAreValid := false,
                       diagnostics := info.diagnostics + [Diagnostic(ExpressionMustBeInline, argument.id)]))
  }

  /** The inner loop as a function of the arguments seen so far; the first exception ends it. */
  function AddArguments(info: WhenChangedInvocationInfo, symbol: MethodSymbol, arguments: seq<Argument>, model: SemanticModel): (r: Outcome<WhenChangedInvocationInfo>)
    requires |symbol.typeArguments| > 0
    ensures r.Returned? ==> r.value.multiExpressionMethodData == info.multiExpressionMethodData
  {
    if arguments == [] then Returned(info)
    else match AddArguments(info, symbol, arguments[..|arguments| - 1], model)
      case Threw(e) => Threw(e)
      case Returned(mid) => AddArgument(mid, symbol, arguments[|arguments| - 1], model)
  }

  /** Once the inner loop has thrown, the rest of the arguments do not matter. */
  lemma {:induction false} AddArgumentsThrewStays(info: WhenChangedInvocationInfo, symbol: MethodSymbol, arguments: seq<Argument>, k: nat, model: SemanticModel)
    requires |symbol.typeArguments| > 0 && k <= |arguments|
    requires AddArguments(info, symbol, arguments[..k], model).Threw?
    ensures AddArguments(info, symbol, arguments, model) == AddArguments(info, symbol, arguments[..k], model)
  {
    if k < |arguments| {
      var n := |arguments| - 1;
      assert arguments[..n][..k] == arguments[..k];
      AddArgumentsThrewStays(info, symbol, arguments[..n], k, model);
    } else {
      assert arguments[..k] == arguments;
    }
  }

  /** The declared accessibility of each type argument. */
  function TypeAccessibilities(types: seq<TypeId>, model: SemanticModel): (r: seq<Accessibility>)
    ensures |r| == |types|
    ensures forall i :: 0 <= i < |types| ==> r[i] == model.typeAccessibility(types[i])
  {
    seq(|types|, i requires 0 <= i < |types| => model.typeAccessibility(types[i]))
  }

  /** The display string of each type argument. */
  function TypeDisplayNames(types: seq<TypeId>, model: SemanticModel): (r: seq<string>)
    ensures |r| == |types|
    ensures forall i :: 0 <= i < |types| ==> r[i] == model.displayString(types[i])
  {
    seq(|types|, i requires 0 <= i < |types| => model.displayString(types[i]))
  }

  /** The accessibilities listed are exactly those of the type arguments. */
  lemma AccessibilitiesOfArguments(arguments: seq<TypeId>, model: SemanticModel)
    ensures forall t <- arguments :: model.typeAccessibility(t) in TypeAccessibilities(arguments, model)
    ensures forall a <- TypeAccessibilities(arguments, model) :: exists t <- arguments :: a == model.typeAccessibility(t)
  {
    var accessibilities := TypeAccessibilities(arguments, model);
    forall t <- arguments ensures model.typeAccessibility(t) in accessibilities {
      var i :| 0 <= i < |arguments| && arguments[i] == t;
      assert accessibilities[i] == model.typeAccessibility(t);
    }
    forall a <- accessibilities ensures exists t <- arguments :: a == model.typeAccessibility(t) {
      var i :| 0 <= i < |accessibilities| && accessibilities[i] == a;
      assert arguments[i] in arguments;
    }
  }

  /**
   * The combinator datum of a call with more than two type arguments: its accessibility is the least
   * type-argument accessibility, and it is private exactly when some type argument is protected or narrower.
   */
  function MultiExpressionMethodDatumOf(symbol: MethodSymbol, model: SemanticModel): (d: MethodDatum)
    requires |symbol.typeArguments| > 2
    ensures d.MultiExpressionMethodDatum?
    ensures exists t <- symbol.typeArguments :: d.accessModifier == model.typeAccessibility(t)
    ensures forall t <- symbol.typeArguments :: AtMost(d.accessModifier, model.typeAccessibility(t))
    ensures d.containsPrivateOrProtectedTypeArgument <==>
              exists t <- symbol.typeArguments :: AtMostProtected(model.typeAccessibility(t))
    ensures [d.inputTypeFullName] + d.tempReturnTypes + [d.outputTypeName] == TypeDisplayNames(symbol.typeArguments, model)
  {
    var arguments := symbol.typeArguments;
    var accessibilities := TypeAccessibilities(arguments, model);
    var minAccessibility := MinAccessibility(accessibilities);
    MinAtMostProtected(accessibilities);
    AccessibilitiesOfArguments(arguments, model);
    NewMultiExpressionMethodDatum(minAccessibility, TypeDisplayNames(arguments, model), AtMostProtected(minAccessibility))
  }

  function SymbolOf(model: SemanticModel, invocation: InvocationExpression): MethodSymbol
    requires IsWhenChangedMethod(model, invocation)
  {
    model.methodSymbolOf(invocation).value
  }

  /** The outer loop body: one WhenChanged call site. */
  function AddInvocation(info: WhenChangedInvocationInfo, invocation: InvocationExpression, model: SemanticModel): Outcome<WhenChangedInvocationInfo>
    requires HasInputType(model, invocation)
  {
    if !IsWhenChangedMethod(model, invocation) then Returned(info)
    else
      var symbol := SymbolOf(model, invocation);
      match AddArguments(info, symbol, invocation.arguments, model)
      case Threw(e) => Threw(e)
      case Returned(afterArguments) =>
        if |symbol.typeArguments| > 2 then
          Returned(afterArguments.(multiExpressionMethodData :=
            HashSetAdd(afterArguments.multiExpressionMethodData, MultiExpressionMethodDatumOf(symbol, model))))
        else Returned(afterArguments)
  }

  /** `ExtractWhenChangedInvocationInfo` as a function of the call sites seen so far; the first exception ends it. */
  function ExtractInvocations(invocations: seq<InvocationExpression>, model: SemanticModel): Outcome<WhenChangedInvocationInfo>
    requires WellFormed(invocations, model)
  {
    if invocations == [] then Returned(InitialInfo)
    else match ExtractInvocations(invocations[..|invocations| - 1], model)
      case Threw(e) => Threw(e)
      case Returned(info) => AddInvocation(info, invocations[|invocations| - 1], model)
  }

  /** Once the outer loop has thrown, the rest of the call sites do not matter. */
  lemma {:induction false} ExtractThrewStays(invocations: seq<InvocationExpression>, k: nat, model: SemanticModel)
    requires WellFormed(invocations, model) && k <= |invocations|
    requires ExtractInvocations(invocations[..k], model).Threw?
    ensures ExtractInvocations(invocations, model) == ExtractInvocations(invocations[..k], model)
  {
    if k < |invocations| {
      var n := |invocations| - 1;
      assert invocations[..n][..k] == invocations[..k];
      ExtractThrewStays(invocations[..n], k, model);
    } else {
      assert invocations[..k] == invocations;
    }
  }

  /** The inner loop of `ExtractWhenChangedInvocationInfo`, over the arguments of one WhenChanged call. */
  method ExtractArguments(info: WhenChangedInvocationInfo, methodSymbol: MethodSymbol, arguments: seq<Argument>, model: SemanticModel)
    returns (r: Outcome<WhenChangedInvocationInfo>)
    requires |methodSymbol.typeArguments| > 0
    ensures r == AddArguments(info, methodSymbol, arguments, model)
  {
    var allExpressionArgumentsAreValid := info.allExpressionArgumentsAreValid;
    var expressionArguments := info.expressionArguments;
    var diagnostics := info.diagnostics;
    for j := 0 to |arguments|
      invariant AddArguments(info, methodSymbol, arguments[..j], model) ==
                  Returned(WhenChangedInvocationInfo(allExpressionArgumentsAreValid, expressionArguments,
                                                     info.multiExpressionMethodData, diagnostics))
    {
      var argument := arguments[j];
      var current := WhenChangedInvocationInfo(allExpressionArgumentsAreValid, expressionArguments,
                                               info.multiExpressionMethodData, diagnostics);
      assert arguments[..j + 1][..j] == arguments[..j];
      assert AddArguments(info, methodSymbol, arguments[..j + 1], model) == AddArgument(current, methodSymbol, argument, model);
      if model.argumentTypeName(argument) == "Expression" {
        match argument.expression {
          case InlineLambda(lambdaExpression) =>
            var lambdaInputType := methodSymbol.typeArguments[0];
            var lambdaOutputType := model.typeOf(lambdaExpression.body);
            var expressionChain := GetExpressionChain(lambdaExpression, model);
            if expressionChain.Threw? {
              AddArgumentsThrewStays(info, methodSymbol, arguments, j + 1, model);
              return Threw(expressionChain.exception);
            }
            var chain := expressionChain.value;
            if chain.Failure? {
              diagnostics := diagnostics + [chain.error];
            }
            var containsPrivateOrProtectedMember := AtMostProtected(model.typeAccessibility(lambdaInputType));
            if !containsPrivateOrProtectedMember {
              var scan := ContainsPrivateOrProtectedMember(lambdaExpression, model);
              if scan.Threw? {
                AddArgumentsThrewStays(info, methodSymbol, arguments, j + 1, model);
                return Threw(scan.exception);
              }
              containsPrivateOrProtectedMember := scan.value;
            }
            var datum := ExpressionArgument(model.sourceText(lambdaExpression.body), if chain.Success? then Some(chain.value) else None,
                                            lambdaInputType, lambdaOutputType, containsPrivateOrProtectedMember);
            assert containsPrivateOrProtectedMember == IsRestricted(lambdaInputType, lambdaExpression, model);
            assert datum == ExpressionArgumentOf(methodSymbol, lambdaExpression, model);
            expressionArguments := HashSetAdd(expressionArguments, datum);
            allExpressionArgumentsAreValid := allExpressionArgumentsAreValid && chain.Success?;
            assert ExceptionOfArgument(methodSymbol, argument, model).None?;
            assert current.diagnostics + [] == current.diagnostics;
          case NotInline =>
            diagnostics := diagnostics + [Diagnostic(ExpressionMustBeInline, argument.id)];
            allExpressionArgumentsAreValid := false;
        }
      }
    }
    assert arguments[..|arguments|] == arguments;
    r := Returned(WhenChangedInvocationInfo(allExpressionArgumentsAreValid, expressionArguments,
                                            info.multiExpressionMethodData, diagnostics));
  }

  /** `ExtractWhenChangedInvocationInfo`: the outer loop, over every call site in the compilation. */
  method ExtractWhenChangedInvocationInfo(invocations: seq<InvocationExpression>, model: SemanticModel)
    returns (r: Outcome<WhenChangedInvocationInfo>)
    requires WellFormed(invocations, model)
    ensures r == ExtractInvocations(invocations, model)
  {
    var info := InitialInfo;
    for i := 0 to |invocations|
      invariant ExtractInvocations(invocations[..i], model) == Returned(info)
    {
      var invocation := invocations[i];
      assert invocations[..i + 1][..i] == invocations[..i];
      assert HasInputType(model, invocation);
      var symbol := model.methodSymbolOf(invocation);
      if symbol.None? || symbol.value.containingTypeDisplayString != ExtensionClassFullName {
        continue;
      }
      var methodSymbol := symbol.value;
      var afterArguments := ExtractArguments(info, methodSymbol, invocation.arguments, model);
      if afterArguments.Threw? {
        ExtractThrewStays(invocations, i + 1, model);
        return Threw(afterArguments.exception);
      }
      info := afterArguments.value;
      if |methodSymbol.typeArguments| > 2 {
        var accessibilities := TypeAccessibilities(methodSymbol.typeArguments, model);
        var minAccessibility := MinAccessibility(accessibilities);
        var containsPrivateOrProtectedTypeArgument := AtMostProtected(minAccessibility);
        var typeNames := TypeDisplayNames(methodSymbol.typeArguments, model);
        info := info.(multiExpressionMethodData := HashSetAdd(info.multiExpressionMethodData,
          NewMultiExpressionMethodDatum(minAccessibility, typeNames, containsPrivateOrProtectedTypeArgument)));
      }
    }
    assert invocations[..|invocations|] == invocations;
    r := Returned(info);
  }

  // ---------------------------------------------------------------------------------------------
  // What the extraction guarantees

  /** The argument is a valid WhenChanged expression: an inline lambda whose chain is accepted. */
  predicate ArgumentValid(model: SemanticModel, argument: Argument)
  {
    IsExpressionArgument(model, argument) ==>
      argument.expression.InlineLambda? &&
      ExpressionChain(argument.expression.lambda, model).Returned? &&
      ExpressionChain(argument.expression.lambda, model).value.Success?
  }

  /** Every expression argument of every WhenChanged call is valid. */
  predicate AllArgumentsValid(invocations: seq<InvocationExpression>, model: SemanticModel)
  {
    forall i, j ::
      (0 <= i < |invocations| && IsWhenChangedMethod(model, invocations[i]) && 0 <= j < |invocations[i].arguments|) ==>
        ArgumentValid(model, invocations[i].arguments[j])
  }

  /** The validity flag is kept exactly when no diagnostic has been reported. */
  predicate FlagMatchesDiagnostics(info: WhenChangedInvocationInfo)
  {
    info.allExpressionArgumentsAreValid <==> info.diagnostics == []
  }

  /** When the flag is set, every collected argument carries its chain. */
  predicate ValidChainsPresent(info: WhenChangedInvocationInfo)
  {
    info.allExpressionArgumentsAreValid ==> forall a <- info.expressionArguments :: a.expressionChain.Some?
  }

  lemma {:induction false} AddArgumentsKeepsInvariants(info: WhenChangedInvocationInfo, symbol: MethodSymbol, arguments: seq<Argument>, model: SemanticModel)
    requires |symbol.typeArguments| > 0
    requires FlagMatchesDiagnostics(info) && ValidChainsPresent(info)
    ensures var r := AddArguments(info, symbol, arguments, model);
      r.Returned? ==>
        FlagMatchesDiagnostics(r.value) && ValidChainsPresent(r.value) &&
        (r.value.allExpressionArgumentsAreValid <==>
           info.allExpressionArgumentsAreValid && forall j :: 0 <= j < |arguments| ==> ArgumentValid(model, arguments[j]))
  {
    if arguments != [] {
      var init := arguments[..|arguments| - 1];
      AddArgumentsKeepsInvariants(info, symbol, init, model);
      assert forall j :: 0 <= j < |init| ==> init[j] == arguments[j];
    }
  }

  lemma {:induction false} ExtractKeepsInvariants(invocations: seq<InvocationExpression>, model: SemanticModel)
    requires WellFormed(invocations, model)
    ensures var r := ExtractInvocations(invocations, model);
      r.Returned? ==>
        FlagMatchesDiagnostics(r.value) && ValidChainsPresent(r.value) &&
        (r.value.allExpressionArgumentsAreValid <==> AllArgumentsValid(invocations, model))
  {
    if invocations != [] {
      var n := |invocations| - 1;
      var init := invocations[..n];
      ExtractKeepsInvariants(init, model);
      AllArgumentsValidSnoc(invocations, model);
      var front := ExtractInvocations(init, model);
      var last := invocations[n];
      if front.Returned? && IsWhenChangedMethod(model, last) {
        AddArgumentsKeepsInvariants(front.value, SymbolOf(model, last), last.arguments, model);
      }
    }
  }

  /** All arguments are valid when those of the earlier calls are and those of the last call are. */
  lemma AllArgumentsValidSnoc(invocations: seq<InvocationExpression>, model: SemanticModel)
    requires |invocations| > 0
    ensures var n := |invocations| - 1;
            AllArgumentsValid(invocations, model) <==>
              AllArgumentsValid(invocations[..n], model) &&
              (IsWhenChangedMethod(model, invocations[n]) ==>
                 forall j :: 0 <= j < |invocations[n].arguments| ==> ArgumentValid(model, invocations[n].arguments[j]))
  {
    var n := |invocations| - 1;
    assert forall i :: 0 <= i < n ==> invocations[..n][i] == invocations[i];
  }

  /** A pass that does not throw is valid exactly when every expression argument of every WhenChanged call is valid. */
  lemma ValidIffAllArgumentsValid(invocations: seq<InvocationExpression>, model: SemanticModel)
    requires WellFormed(invocations, model)
    ensures var r := ExtractInvocations(invocations, model);
      r.Returned? ==> (r.value.allExpressionArgumentsAreValid <==> AllArgumentsValid(invocations, model))
  {
    ExtractKeepsInvariants(invocations, model);
  }

  /** A pass that does not throw is valid exactly when it reports no diagnostic. */
  lemma ValidIffNoDiagnostics(invocations: seq<InvocationExpression>, model: SemanticModel)
    requires WellFormed(invocations, model)
    ensures var r := ExtractInvocations(invocations, model);
      r.Returned? ==> (r.value.allExpressionArgumentsAreValid <==> r.value.diagnostics == [])
  {
    ExtractKeepsInvariants(invocations, model);
  }

  /** A valid pass has an expression chain for every collected argument. */
  lemma ValidMeansChainsPresent(invocations: seq<InvocationExpression>, model: SemanticModel)
    requires WellFormed(invocations, model)
    requires ExtractInvocations(invocations, model).Returned?
    requires ExtractInvocations(invocations, model).value.allExpressionArgumentsAreValid
    ensures forall a <- ExtractInvocations(invocations, model).value.expressionArguments :: a.expressionChain.Some?
  {
    ExtractKeepsInvariants(invocations, model);
  }

  /** Argument `j` is the first of `arguments` to throw, and it throws `e`. */
  predicate FirstThrowAt(symbol: MethodSymbol, arguments: seq<Argument>, j: int, e: Exception, model: SemanticModel)
    requires |symbol.typeArguments| > 0
  {
    0 <= j < |arguments| && ExceptionOfArgument(symbol, arguments[j], model) == Some(e) &&
    forall j' :: 0 <= j' < j ==> ExceptionOfArgument(symbol, arguments[j'], model).None?
  }

  /** The inner loop throws exactly when some argument throws, and then with the first one's exception. */
  lemma {:induction false} AddArgumentsThrowsIff(info: WhenChangedInvocationInfo, symbol: MethodSymbol, arguments: seq<Argument>, model: SemanticModel)
    requires |symbol.typeArguments| > 0
    ensures var r := AddArguments(info, symbol, arguments, model);
      (r.Threw? <==> exists j :: 0 <= j < |arguments| && ExceptionOfArgument(symbol, arguments[j], model).Some?) &&
      (r.Threw? ==> exists j :: FirstThrowAt(symbol, arguments, j, r.exception, model))
  {
    if arguments != [] {
      var n := |arguments| - 1;
      var init := arguments[..n];
      AddArgumentsThrowsIff(info, symbol, init, model);
      assert forall j :: 0 <= j < n ==> init[j] == arguments[j];
      var mid := AddArguments(info, symbol, init, model);
      if mid.Threw? {
        var j :| FirstThrowAt(symbol, init, j, mid.exception, model);
        assert FirstThrowAt(symbol, arguments, j, mid.exception, model);
      } else if ExceptionOfArgument(symbol, arguments[n], model).Some? {
        assert FirstThrowAt(symbol, arguments, n, ExceptionOfArgument(symbol, arguments[n], model).value, model);
      }
    }
  }

  /** The call is a WhenChanged call one of whose arguments throws. */
  predicate CallThrows(model: SemanticModel, invocation: InvocationExpression)
    requires HasInputType(model, invocation)
  {
    IsWhenChangedMethod(model, invocation) &&
    exists j :: 0 <= j < |invocation.arguments| && ExceptionOfArgument(SymbolOf(model, invocation), invocation.arguments[j], model).Some?
  }

  /**
   * The pass throws exactly when some argument of some WhenChanged call throws, and then with the
   * exception of the first such argument of the first such call.
   */
  lemma {:induction false} ExtractThrowsIff(invocations: seq<InvocationExpression>, model: SemanticModel)
    requires WellFormed(invocations, model)
    ensures var r := ExtractInvocations(invocations, model);
      (r.Threw? <==> exists i :: 0 <= i < |invocations| && CallThrows(model, invocations[i])) &&
      (r.Threw? ==> exists i :: FirstThrowingCall(invocations, i, r.exception, model))
  {
    if invocations != [] {
      var n := |invocations| - 1;
      var init := invocations[..n];
      ExtractThrowsIff(init, model);
      var front := ExtractInvocations(init, model);
      ExtractThrowsSnoc(invocations, model);
      if front.Threw? {
        var i :| FirstThrowingCall(init, i, front.exception, model);
        FirstThrowingCallExtends(invocations, n, i, front.exception, model);
      } else {
        assert forall i :: 0 <= i < n ==> init[i] == invocations[i];
        var r := ExtractInvocations(invocations, model);
        if r.Threw? {
          var j :| 0 <= j < |invocations[n].arguments| &&
                   FirstThrowAt(SymbolOf(model, invocations[n]), invocations[n].arguments, j, r.exception, model);
          assert FirstThrowingCall(invocations, n, r.exception, model);
        }
      }
    }
  }

  /** Call `i` is the first call to throw, and its first throwing argument throws `e`. */
  predicate FirstThrowingCall(invocations: seq<InvocationExpression>, i: int, e: Exception, model: SemanticModel)
    requires WellFormed(invocations, model)
  {
    0 <= i < |invocations| && CallThrows(model, invocations[i]) &&
    (forall i' :: 0 <= i' < i ==> !CallThrows(model, invocations[i'])) &&
    exists j :: 0 <= j < |invocations[i].arguments| && FirstThrowAt(SymbolOf(model, invocations[i]), invocations[i].arguments, j, e, model)
  }

  /** The first throwing call of a prefix is the first throwing call of the whole sequence. */
  lemma FirstThrowingCallExtends(invocations: seq<InvocationExpression>, k: nat, i: int, e: Exception, model: SemanticModel)
    requires WellFormed(invocations, model) && k <= |invocations|
    requires FirstThrowingCall(invocations[..k], i, e, model)
    ensures FirstThrowingCall(invocations, i, e, model)
  {
    var prefix := invocations[..k];
    assert prefix[i] == invocations[i];
    forall i' | 0 <= i' < i ensures !CallThrows(model, invocations[i']) {
      assert prefix[i'] == invocations[i'];
    }
  }

  /** One more call site: the pass throws when the earlier ones did, or else when this one does. */
  lemma ExtractThrowsSnoc(invocations: seq<InvocationExpression>, model: SemanticModel)
    requires WellFormed(invocations, model) && |invocations| > 0
    ensures var n := |invocations| - 1;
      var front := ExtractInvocations(invocations[..n], model);
      var r := ExtractInvocations(invocations, model);
      (front.Threw? ==> r == front) &&
      (front.Returned? ==> (r.Threw? <==> CallThrows(model, invocations[n]))) &&
      (front.Returned? && r.Threw? ==>
         exists j :: 0 <= j < |invocations[n].arguments| && FirstThrowAt(SymbolOf(model, invocations[n]), invocations[n].arguments, j, r.exception, model))
  {
    var n := |invocations| - 1;
    var front := ExtractInvocations(invocations[..n], model);
    var last := invocations[n];
    if front.Returned? && IsWhenChangedMethod(model, last) {
      AddArgumentsThrowsIff(front.value, SymbolOf(model, last), last.arguments, model);
    }
  }

  /** `a` is the datum of one of the inline lambda arguments `arguments`. */
  predicate FromArguments(a: ExpressionArgument, symbol: MethodSymbol, arguments: seq<Argument>, model: SemanticModel)
    requires |symbol.typeArguments| > 0
  {
    exists j :: 0 <= j < |arguments| && IsExpressionArgument(model, arguments[j]) &&
      arguments[j].expression.InlineLambda? && a == ExpressionArgumentOf(symbol, arguments[j].expression.lambda, model)
  }

  /** `a` is the datum of an inline lambda argument of one of the WhenChanged calls. */
  predicate FromInvocations(a: ExpressionArgument, invocations: seq<InvocationExpression>, model: SemanticModel)
    requires WellFormed(invocations, model)
  {
    exists i :: 0 <= i < |invocations| && IsWhenChangedMethod(model, invocations[i]) &&
      FromArguments(a, SymbolOf(model, invocations[i]), invocations[i].arguments, model)
  }

  /** What `AddArgumentsCollects` states of the collected arguments `r`, against those of `info`. */
  ghost predicate CollectsFrom(before: seq<ExpressionArgument>, r: seq<ExpressionArgument>, symbol: MethodSymbol, arguments: seq<Argument>, model: SemanticModel)
    requires |symbol.typeArguments| > 0
  {
    (forall a <- before :: a in r) &&
    (forall a <- r :: a in before || FromArguments(a, symbol, arguments, model)) &&
    (forall a :: FromArguments(a, symbol, arguments, model) ==> a in r)
  }

  lemma {:induction false} AddArgumentsCollects(info: WhenChangedInvocationInfo, symbol: MethodSymbol, arguments: seq<Argument>, model: SemanticModel)
    requires |symbol.typeArguments| > 0
    ensures var r := AddArguments(info, symbol, arguments, model);
      r.Returned? ==> CollectsFrom(info.expressionArguments, r.value.expressionArguments, symbol, arguments, model)
  {
    var result := AddArguments(info, symbol, arguments, model);
    if arguments != [] && result.Returned? {
      var n := |arguments| - 1;
      var init := arguments[..n];
      AddArgumentsCollects(info, symbol, init, model);
      var mid := AddArguments(info, symbol, init, model);
      assert mid.Returned?;
      var last := arguments[n];
      assert result == AddArgument(mid.value, symbol, last, model);
      ArgumentCollects(mid.value, symbol, last, model);
      assert arguments == init + [last];
      CollectsSnoc(info.expressionArguments, mid.value.expressionArguments, result.value.expressionArguments, symbol, init, last, model);
    }
  }

  /** One more argument keeps `CollectsFrom`, when it adds exactly its own datum, if any. */
  lemma CollectsSnoc(before: seq<ExpressionArgument>, mid: seq<ExpressionArgument>, r: seq<ExpressionArgument>,
                     symbol: MethodSymbol, init: seq<Argument>, last: Argument, model: SemanticModel)
    requires |symbol.typeArguments| > 0
    requires CollectsFrom(before, mid, symbol, init, model)
    requires r == if IsExpressionArgument(model, last) && last.expression.InlineLambda?
                  then HashSetAdd(mid, ExpressionArgumentOf(symbol, last.expression.lambda, model))
                  else mid
    ensures CollectsFrom(before, r, symbol, init + [last], model)
  {
    var arguments := init + [last];
    var n := |init|;
    forall a | FromArguments(a, symbol, init, model) ensures FromArguments(a, symbol, arguments, model) {
      var j :| 0 <= j < |init| && IsExpressionArgument(model, init[j]) && init[j].expression.InlineLambda? &&
               a == ExpressionArgumentOf(symbol, init[j].expression.lambda, model);
      assert init[j] == arguments[j];
    }
    if IsExpressionArgument(model, last) && last.expression.InlineLambda? {
      assert arguments[n] == last;
      assert FromArguments(ExpressionArgumentOf(symbol, last.expression.lambda, model), symbol, arguments, model);
    }
    forall a | FromArguments(a, symbol, arguments, model) ensures a in r {
      var j :| 0 <= j < |arguments| && IsExpressionArgument(model, arguments[j]) && arguments[j].expression.InlineLambda? &&
               a == ExpressionArgumentOf(symbol, arguments[j].expression.lambda, model);
      if j < n {
        assert init[j] == arguments[j];
        assert FromArguments(a, symbol, init, model);
      }
    }
  }

  /** One argument adds its datum when it is an inline lambda expression argument, and nothing else. */
  lemma ArgumentCollects(info: WhenChangedInvocationInfo, symbol: MethodSymbol, argument: Argument, model: SemanticModel)
    requires |symbol.typeArguments| > 0
    ensures var r := AddArgument(info, symbol, argument, model);
      r.Returned? ==>
        r.value.expressionArguments ==
          if IsExpressionArgument(model, argument) && argument.expression.InlineLambda?
          then HashSetAdd(info.expressionArguments, ExpressionArgumentOf(symbol, argument.expression.lambda, model))
          else info.expressionArguments
  {
  }

  /**
   * When the pass does not throw, the collected arguments are exactly the data of the inline lambda
   * arguments of the WhenChanged calls: nothing else is collected and none of them is missed.
   */
  lemma {:induction false} CollectedArgumentsComeFromInvocations(invocations: seq<InvocationExpression>, model: SemanticModel)
    requires WellFormed(invocations, model)
    ensures var r := ExtractInvocations(invocations, model);
      r.Returned? ==>
        (forall a <- r.value.expressionArguments :: FromInvocations(a, invocations, model)) &&
        (forall a :: FromInvocations(a, invocations, model) ==> a in r.value.expressionArguments)
  {
    var result := ExtractInvocations(invocations, model);
    if invocations != [] && result.Returned? {
      var n := |invocations| - 1;
      var init := invocations[..n];
      CollectedArgumentsComeFromInvocations(init, model);
      var front := ExtractInvocations(init, model);
      assert front.Returned?;
      var info := front.value;
      var last := invocations[n];
      assert result == AddInvocation(info, last, model);
      var r := result.value.expressionArguments;
      assert forall i :: 0 <= i < n ==> init[i] == invocations[i];
      if IsWhenChangedMethod(model, last) {
        AddArgumentsCollects(info, SymbolOf(model, last), last.arguments, model);
      }
      forall a <- r ensures FromInvocations(a, invocations, model) {
        if a in info.expressionArguments {
          assert FromInvocations(a, init, model);
          var i :| 0 <= i < n && IsWhenChangedMethod(model, init[i]) &&
                   FromArguments(a, SymbolOf(model, init[i]), init[i].arguments, model);
          assert invocations[i] == init[i];
        } else {
          assert FromArguments(a, SymbolOf(model, last), last.arguments, model);
        }
      }
      forall a | FromInvocations(a, invocations, model) ensures a in r {
        var i :| 0 <= i < |invocations| && IsWhenChangedMethod(model, invocations[i]) &&
                 FromArguments(a, SymbolOf(model, invocations[i]), invocations[i].arguments, model);
        if i < n {
          assert init[i] == invocations[i];
          assert FromInvocations(a, init, model);
        }
      }
    }
  }

  /** Every datum of `multi` is the combinator datum of a WhenChanged call with more than two type arguments. */
  ghost predicate MultiDataSound(multi: seq<MethodDatum>, invocations: seq<InvocationExpression>, model: SemanticModel)
    requires WellFormed(invocations, model)
  {
    forall d <- multi ::
      exists i :: 0 <= i < |invocations| && IsWhenChangedMethod(model, invocations[i]) &&
        |SymbolOf(model, invocations[i]).typeArguments| > 2 &&
        d == MultiExpressionMethodDatumOf(SymbolOf(model, invocations[i]), model)
  }

  /** Every WhenChanged call with more than two type arguments has its combinator datum in `multi`. */
  ghost predicate MultiDataComplete(multi: seq<MethodDatum>, invocations: seq<InvocationExpression>, model: SemanticModel)
    requires WellFormed(invocations, model)
  {
    forall i :: (0 <= i < |invocations| && IsWhenChangedMethod(model, invocations[i]) &&
                 |SymbolOf(model, invocations[i]).typeArguments| > 2) ==>
      MultiExpressionMethodDatumOf(SymbolOf(model, invocations[i]), model) in multi
  }

  /**
   * Every combinator datum belongs to a WhenChanged call with more than two type arguments, and each
   * such call has one.
   */
  lemma {:induction false} MultiDataComeFromInvocations(invocations: seq<InvocationExpression>, model: SemanticModel)
    requires WellFormed(invocations, model)
    ensures var r := ExtractInvocations(invocations, model);
      r.Returned? ==>
        MultiDataSound(r.value.multiExpressionMethodData, invocations, model) &&
        MultiDataComplete(r.value.multiExpressionMethodData, invocations, model)
  {
    var result := ExtractInvocations(invocations, model);
    if invocations != [] && result.Returned? {
      var n := |invocations| - 1;
      MultiDataComeFromInvocations(invocations[..n], model);
      var front := ExtractInvocations(invocations[..n], model);
      assert front.Returned?;
      assert result == AddInvocation(front.value, invocations[n], model);
      InvocationMultiData(front.value, invocations[n], model);
      MultiDataSoundSnoc(front.value.multiExpressionMethodData, result.value.multiExpressionMethodData, invocations, model);
      MultiDataCompleteSnoc(front.value.multiExpressionMethodData, result.value.multiExpressionMethodData, invocations, model);
    }
  }

  /** The combinator datum call `i` contributes, if it has more than two type arguments. */
  function CallDatum(invocations: seq<InvocationExpression>, i: int, model: SemanticModel): Option<MethodDatum>
    requires WellFormed(invocations, model) && 0 <= i < |invocations|
  {
    if IsWhenChangedMethod(model, invocations[i]) && |SymbolOf(model, invocations[i]).typeArguments| > 2
    then Some(MultiExpressionMethodDatumOf(SymbolOf(model, invocations[i]), model))
    else None
  }

  /** One more call site keeps soundness when it adds exactly its own combinator datum, if any. */
  lemma MultiDataSoundSnoc(before: seq<MethodDatum>, after: seq<MethodDatum>, invocations: seq<InvocationExpression>, model: SemanticModel)
    requires WellFormed(invocations, model) && |invocations| > 0
    requires MultiDataSound(before, invocations[..|invocations| - 1], model)
    requires var d := CallDatum(invocations, |invocations| - 1, model);
      after == if d.Some? then HashSetAdd(before, d.value) else before
    ensures MultiDataSound(after, invocations, model)
  {
    var n := |invocations| - 1;
    var init := invocations[..n];
    forall d <- after
      ensures exists i :: 0 <= i < |invocations| && IsWhenChangedMethod(model, invocations[i]) &&
                |SymbolOf(model, invocations[i]).typeArguments| > 2 &&
                d == MultiExpressionMethodDatumOf(SymbolOf(model, invocations[i]), model)
    {
      if d in before {
        var i :| 0 <= i < |init| && IsWhenChangedMethod(model, init[i]) && |SymbolOf(model, init[i]).typeArguments| > 2 &&
                 d == MultiExpressionMethodDatumOf(SymbolOf(model, init[i]), model);
        assert init[i] == invocations[i];
      }
    }
  }

  /** One more call site keeps completeness when it adds its own combinator datum, if any. */
  lemma MultiDataCompleteSnoc(before: seq<MethodDatum>, after: seq<MethodDatum>, invocations: seq<InvocationExpression>, model: SemanticModel)
    requires WellFormed(invocations, model) && |invocations| > 0
    requires MultiDataComplete(before, invocations[..|invocations| - 1], model)
    requires var d := CallDatum(invocations, |invocations| - 1, model);
      after == if d.Some? then HashSetAdd(before, d.value) else before
    ensures MultiDataComplete(after, invocations, model)
  {
    var n := |invocations| - 1;
    var init := invocations[..n];
    forall i | 0 <= i < |invocations| && IsWhenChangedMethod(model, invocations[i]) &&
               |SymbolOf(model, invocations[i]).typeArguments| > 2
      ensures MultiExpressionMethodDatumOf(SymbolOf(model, invocations[i]), model) in after
    {
      if i < n {
        assert init[i] == invocations[i];
      }
    }
  }

  /** A call site adds its combinator datum when it has more than two type arguments, and nothing else. */
  lemma InvocationMultiData(info: WhenChangedInvocationInfo, invocation: InvocationExpression, model: SemanticModel)
    requires HasInputType(model, invocation)
    ensures var r := AddInvocation(info, invocation, model);
      r.Returned? ==>
        r.value.multiExpressionMethodData ==
          if IsWhenChangedMethod(model, invocation) && |SymbolOf(model, invocation).typeArguments| > 2
          then HashSetAdd(info.multiExpressionMethodData, MultiExpressionMethodDatumOf(SymbolOf(model, invocation), model))
          else info.multiExpressionMethodData
  {
  }

  // ---------------------------------------------------------------------------------------------
  // Grouping the collected arguments into the data of the generated classes

  function InputTypeOf(a: ExpressionArgument): TypeId { a.inputType }

  function OutputTypeOf(a: ExpressionArgument): TypeId { a.outputType }

  /** The arguments observing one monitored type, grouped by the type they produce. */
  datatype InputTypeGroup = InputTypeGroup(inputType: TypeId, outputTypeGroups: seq<Grouping<TypeId, ExpressionArgument>>)

  /** `a` lies in output group `j` of input group `i`. */
  predicate InGroup(groups: seq<InputTypeGroup>, i: int, j: int, a: ExpressionArgument)
  {
    0 <= i < |groups| && 0 <= j < |groups[i].outputTypeGroups| && a in groups[i].outputTypeGroups[j].elements
  }

  /** `GroupBy(InputType)` and, inside each input group, `GroupBy(OutputType)`. */
  function ToInputTypeGroups(arguments: seq<ExpressionArgument>): (groups: seq<InputTypeGroup>)
    ensures |groups| == |GroupBy(arguments, InputTypeOf)|
    ensures forall i :: 0 <= i < |groups| ==>
              groups[i].inputType == GroupBy(arguments, InputTypeOf)[i].key &&
              groups[i].outputTypeGroups == GroupBy(GroupBy(arguments, InputTypeOf)[i].elements, OutputTypeOf)
  {
    var byInput := GroupBy(arguments, InputTypeOf);
    seq(|byInput|, i requires 0 <= i < |byInput| => InputTypeGroup(byInput[i].key, GroupBy(byInput[i].elements, OutputTypeOf)))
  }

  /** Each group holds exactly the arguments of its input type and its output type. */
  lemma {:induction false} InGroupIff(arguments: seq<ExpressionArgument>)
    ensures var groups := ToInputTypeGroups(arguments);
      forall i, j, a :: InGroup(groups, i, j, a) <==>
        (0 <= i < |groups| && 0 <= j < |groups[i].outputTypeGroups| && a in arguments &&
         a.inputType == groups[i].inputType && a.outputType == groups[i].outputTypeGroups[j].key)
  {
    var byInput := GroupBy(arguments, InputTypeOf);
    GroupMembership(arguments, InputTypeOf);
    var groups := ToInputTypeGroups(arguments);
    forall i, j, a | 0 <= i < |groups| && 0 <= j < |groups[i].outputTypeGroups|
      ensures a in groups[i].outputTypeGroups[j].elements <==>
                a in arguments && a.inputType == groups[i].inputType && a.outputType == groups[i].outputTypeGroups[j].key
    {
      GroupMembership(byInput[i].elements, OutputTypeOf);
    }
  }

  /**
   * The two groupings partition the arguments: the groups are non-empty, their keys are distinct,
   * each holds exactly the arguments of its two types, and every argument lies in exactly one of them.
   */
  lemma {:induction false} GroupsPartitionArguments(arguments: seq<ExpressionArgument>)
    ensures var groups := ToInputTypeGroups(arguments);
      (forall i, k :: 0 <= i < k < |groups| ==> groups[i].inputType != groups[k].inputType) &&
      (forall i, j, k :: 0 <= i < |groups| && 0 <= j < k < |groups[i].outputTypeGroups| ==>
         groups[i].outputTypeGroups[j].key != groups[i].outputTypeGroups[k].key) &&
      (forall i :: 0 <= i < |groups| ==> |groups[i].outputTypeGroups| > 0) &&
      (forall i, j :: 0 <= i < |groups| && 0 <= j < |groups[i].outputTypeGroups| ==>
         |groups[i].outputTypeGroups[j].elements| > 0) &&
      (forall i, j, a :: InGroup(groups, i, j, a) <==>
         (0 <= i < |groups| && 0 <= j < |groups[i].outputTypeGroups| && a in arguments &&
          a.inputType == groups[i].inputType && a.outputType == groups[i].outputTypeGroups[j].key)) &&
      (forall a <- arguments :: exists i, j :: InGroup(groups, i, j, a)) &&
      (forall i, j, i', j', a :: InGroup(groups, i, j, a) && InGroup(groups, i', j', a) ==> i == i' && j == j')
  {
    InGroupIff(arguments);
    GroupsNonEmpty(arguments);
    GroupsCoverArguments(arguments);
  }

  lemma GroupsNonEmpty(arguments: seq<ExpressionArgument>)
    ensures var groups := ToInputTypeGroups(arguments);
      forall i :: 0 <= i < |groups| ==> |groups[i].outputTypeGroups| > 0
  {
    var byInput := GroupBy(arguments, InputTypeOf);
    var groups := ToInputTypeGroups(arguments);
    forall i | 0 <= i < |groups|
      ensures |groups[i].outputTypeGroups| > 0
    {
      assert byInput[i].elements[0] in byInput[i].elements;
    }
  }

  lemma GroupsCoverArguments(arguments: seq<ExpressionArgument>)
    ensures var groups := ToInputTypeGroups(arguments);
      forall a <- arguments :: exists i, j :: InGroup(groups, i, j, a)
  {
    forall a <- arguments ensures exists i, j :: InGroup(ToInputTypeGroups(arguments), i, j, a) {
      GroupCoversArgument(arguments, a);
    }
  }

  lemma GroupCoversArgument(arguments: seq<ExpressionArgument>, a: ExpressionArgument)
    requires a in arguments
    ensures exists i, j :: InGroup(ToInputTypeGroups(arguments), i, j, a)
  {
    var byInput := GroupBy(arguments, InputTypeOf);
    var groups := ToInputTypeGroups(arguments);
    var i :| 0 <= i < |byInput| && byInput[i].key == InputTypeOf(a);
    GroupMembership(arguments, InputTypeOf);
    assert a in byInput[i].elements;
    var outputGroups := GroupBy(byInput[i].elements, OutputTypeOf);
    assert outputGroups == groups[i].outputTypeGroups;
    var j :| 0 <= j < |outputGroups| && outputGroups[j].key == OutputTypeOf(a);
    GroupMembership(byInput[i].elements, OutputTypeOf);
    assert a in outputGroups[j].elements;
    assert InGroup(groups, i, j, a);
  }

  /** A group's method is at most as accessible as either of its two types. */
  function MethodAccessibility(inputType: TypeId, outputType: TypeId, model: SemanticModel): (a: Accessibility)
    ensures a == model.typeAccessibility(inputType) || a == model.typeAccessibility(outputType)
    ensures AtMost(a, model.typeAccessibility(inputType)) && AtMost(a, model.typeAccessibility(outputType))
  {
    if Less(model.typeAccessibility(outputType), model.typeAccessibility(inputType)) then model.typeAccessibility(outputType)
    else model.typeAccessibility(inputType)
  }

  function MapName(inputType: TypeId, outputType: TypeId, model: SemanticModel): string
  {
    "__generated" + model.variableName(inputType) + model.variableName(outputType) + "Map"
  }

  predicate ChainsPresent(arguments: seq<ExpressionArgument>)
  {
    forall a <- arguments :: a.expressionChain.Some?
  }

  /** The dispatch entry of one argument: its lambda body text mapped to its chain. */
  function MapEntryOf(a: ExpressionArgument): MapEntryDatum
    requires a.expressionChain.Some?
  {
    MapEntryDatum(a.lambdaBodyString, a.expressionChain.value)
  }

  /**
   * The method generated for one output group: an optimized single-chain method when the group has
   * one argument, otherwise a dictionary keyed by lambda body text with one entry per argument in order.
   */
  function SingleExpressionMethodDatum(group: Grouping<TypeId, ExpressionArgument>, model: SemanticModel): (d: MethodDatum)
    requires |group.elements| > 0 && ChainsPresent(group.elements)
    ensures d.SingleExpressionOptimizedImplMethodDatum? <==> |group.elements| == 1
    ensures d.SingleExpressionDictionaryImplMethodDatum? <==> |group.elements| > 1
    ensures var first := group.elements[0];
      d.inputTypeName == model.displayString(first.inputType) &&
      d.outputTypeName == model.displayString(first.outputType) &&
      d.accessModifier == MethodAccessibility(first.inputType, first.outputType, model)
    ensures d.SingleExpressionOptimizedImplMethodDatum? ==> d.members == group.elements[0].expressionChain.value
    ensures d.SingleExpressionDictionaryImplMethodDatum? ==>
              d.mapDatum.mapName == MapName(group.elements[0].inputType, group.elements[0].outputType, model) &&
              |d.mapDatum.entries| == |group.elements| &&
              forall i :: 0 <= i < |group.elements| ==> d.mapDatum.entries[i] == MapEntryOf(group.elements[i])
  {
    var first := group.elements[0];
    var inputTypeName := model.displayString(first.inputType);
    var outputTypeName := model.displayString(first.outputType);
    var accessModifier := MethodAccessibility(first.inputType, first.outputType, model);
    if |group.elements| == 1 then
      SingleExpressionOptimizedImplMethodDatum(inputTypeName, outputTypeName, accessModifier, first.expressionChain.value)
    else
      var entries := seq(|group.elements|, i requires 0 <= i < |group.elements| => MapEntryOf(group.elements[i]));
      SingleExpressionDictionaryImplMethodDatum(inputTypeName, outputTypeName, accessModifier,
        MapDatum(MapName(first.inputType, first.outputType, model), entries))
  }

  /** `CreateSingleExpressionMethodDatum`, with its loop over the group's arguments. */
  method CreateSingleExpressionMethodDatum(group: Grouping<TypeId, ExpressionArgument>, model: SemanticModel)
    returns (methodDatum: MethodDatum)
    requires |group.elements| > 0 && ChainsPresent(group.elements)
    ensures methodDatum == SingleExpressionMethodDatum(group, model)
  {
    var first := group.elements[0];
    var inputTypeName := model.displayString(first.inputType);
    var outputTypeName := model.displayString(first.outputType);
    var accessModifier := model.typeAccessibility(first.inputType);
    if Less(model.typeAccessibility(first.outputType), model.typeAccessibility(first.inputType)) {
      accessModifier := model.typeAccessibility(first.outputType);
    }
    if |group.elements| == 1 {
      methodDatum := SingleExpressionOptimizedImplMethodDatum(inputTypeName, outputTypeName, accessModifier,
                                                             first.expressionChain.value);
    } else {
      var mapName := "__generated" + model.variableName(first.inputType) + model.variableName(first.outputType) + "Map";
      var entries: seq<MapEntryDatum> := [];
      for i := 0 to |group.elements|
        invariant |entries| == i
        invariant forall k :: 0 <= k < i ==> entries[k] == MapEntryOf(group.elements[k])
      {
        var argumentDatum := group.elements[i];
        assert argumentDatum in group.elements;
        entries := entries + [MapEntryDatum(argumentDatum.lambdaBodyString, argumentDatum.expressionChain.value)];
      }
      methodDatum := SingleExpressionDictionaryImplMethodDatum(inputTypeName, outputTypeName, accessModifier,
                                                               MapDatum(mapName, entries));
    }
  }

  /** The datum serves `a`: it has `a`'s two types and `a`'s chain, directly or as a dispatch entry. */
  predicate Serves(d: MethodDatum, a: ExpressionArgument, model: SemanticModel)
    requires a.expressionChain.Some?
  {
    match d
    case SingleExpressionOptimizedImplMethodDatum(inputTypeName, outputTypeName, _, members) =>
      inputTypeName == model.displayString(a.inputType) && outputTypeName == model.displayString(a.outputType) &&
      members == a.expressionChain.value
    case SingleExpressionDictionaryImplMethodDatum(inputTypeName, outputTypeName, _, mapDatum) =>
      inputTypeName == model.displayString(a.inputType) && outputTypeName == model.displayString(a.outputType) &&
      MapEntryOf(a) in mapDatum.entries
    case MultiExpressionMethodDatum(_, _, _, _, _) => false
  }

  /** Every argument of an output group is served by that group's method. */
  lemma GroupMethodServesEveryArgument(group: Grouping<TypeId, ExpressionArgument>, model: SemanticModel, a: ExpressionArgument)
    requires |group.elements| > 0 && ChainsPresent(group.elements)
    requires forall b <- group.elements :: b.inputType == group.elements[0].inputType && b.outputType == group.elements[0].outputType
    requires a in group.elements
    ensures a.expressionChain.Some? && Serves(SingleExpressionMethodDatum(group, model), a, model)
  {
    var d := SingleExpressionMethodDatum(group, model);
    var i :| 0 <= i < |group.elements| && group.elements[i] == a;
    if |group.elements| > 1 {
      assert d.mapDatum.entries[i] == MapEntryOf(a);
    }
  }

  /** `Restricted`/`Unrestricted`: the two `Where` filters that pick a side. */
  function Restricted(a: ExpressionArgument): bool { a.containsPrivateOrProtectedMember }

  function Unrestricted(a: ExpressionArgument): bool { !a.containsPrivateOrProtectedMember }

  /** The GroupJoin of a group with the combinator data of its type, then the side's `Where` on the flag. */
  function MatchesCombinator(fullName: string, restricted: bool): MethodDatum -> bool
  {
    (d: MethodDatum) => d.MultiExpressionMethodDatum? && d.inputTypeFullName == fullName && d.containsPrivateOrProtectedTypeArgument == restricted
  }

  /** The single-expression methods of one input group, one per output group. */
  function SingleData(group: InputTypeGroup, model: SemanticModel): (data: seq<MethodDatum>)
    requires forall j :: 0 <= j < |group.outputTypeGroups| ==>
               |group.outputTypeGroups[j].elements| > 0 && ChainsPresent(group.outputTypeGroups[j].elements)
    ensures |data| == |group.outputTypeGroups|
    ensures forall d <- data :: !d.MultiExpressionMethodDatum?
  {
    seq(|group.outputTypeGroups|, j requires 0 <= j < |group.outputTypeGroups| =>
          SingleExpressionMethodDatum(group.outputTypeGroups[j], model))
  }

  /** Groups whose arguments all carry chains fit `SingleData`. */
  lemma GroupsFit(arguments: seq<ExpressionArgument>)
    requires ChainsPresent(arguments)
    ensures var groups := ToInputTypeGroups(arguments);
      forall i, j :: 0 <= i < |groups| && 0 <= j < |groups[i].outputTypeGroups| ==>
        |groups[i].outputTypeGroups[j].elements| > 0 && ChainsPresent(groups[i].outputTypeGroups[j].elements)
  {
    var groups := ToInputTypeGroups(arguments);
    GroupsPartitionArguments(arguments);
    forall i, j | 0 <= i < |groups| && 0 <= j < |groups[i].outputTypeGroups|
      ensures ChainsPresent(groups[i].outputTypeGroups[j].elements)
    {
      forall a <- groups[i].outputTypeGroups[j].elements ensures a.expressionChain.Some? {
        assert InGroup(groups, i, j, a);
      }
    }
  }

  function PartialClassDatumOf(group: InputTypeGroup, multiExpressionMethodData: seq<MethodDatum>, model: SemanticModel): PartialClassDatum
    requires forall j :: 0 <= j < |group.outputTypeGroups| ==>
               |group.outputTypeGroups[j].elements| > 0 && ChainsPresent(group.outputTypeGroups[j].elements)
  {
    var declaration := model.declarationInfo(group.inputType);
    PartialClassDatum(declaration.namespaceName, declaration.name, declaration.accessModifier, declaration.ancestorClasses,
      SingleData(group, model) + Filter(multiExpressionMethodData, MatchesCombinator(declaration.fullName, true)))
  }

  function ExtensionClassDatumOf(group: InputTypeGroup, multiExpressionMethodData: seq<MethodDatum>, model: SemanticModel): ExtensionClassDatum
    requires forall j :: 0 <= j < |group.outputTypeGroups| ==>
               |group.outputTypeGroups[j].elements| > 0 && ChainsPresent(group.outputTypeGroups[j].elements)
  {
    var declaration := model.declarationInfo(group.inputType);
    ExtensionClassDatum(declaration.name,
      SingleData(group, model) + Filter(multiExpressionMethodData, MatchesCombinator(declaration.fullName, false)))
  }

  /** The partial-class side: restricted arguments and combinators, one datum per monitored type. */
  function PartialClassData(info: WhenChangedInvocationInfo, model: SemanticModel): (data: seq<PartialClassDatum>)
    requires ChainsPresent(info.expressionArguments)
    ensures |data| == |ToInputTypeGroups(Filter(info.expressionArguments, Restricted))|
  {
    var arguments := Filter(info.expressionArguments, Restricted);
    var groups := ToInputTypeGroups(arguments);
    GroupsFit(arguments);
    seq(|groups|, i requires 0 <= i < |groups| => PartialClassDatumOf(groups[i], info.multiExpressionMethodData, model))
  }

  /** The extension-class side: unrestricted arguments and combinators, one datum per monitored type. */
  function ExtensionClassData(info: WhenChangedInvocationInfo, model: SemanticModel): (data: seq<ExtensionClassDatum>)
    requires ChainsPresent(info.expressionArguments)
    ensures |data| == |ToInputTypeGroups(Filter(info.expressionArguments, Unrestricted))|
  {
    var arguments := Filter(info.expressionArguments, Unrestricted);
    var groups := ToInputTypeGroups(arguments);
    GroupsFit(arguments);
    seq(|groups|, i requires 0 <= i < |groups| => ExtensionClassDatumOf(groups[i], info.multiExpressionMethodData, model))
  }
  /** The input groups of one side. */
  function SideGroups(info: WhenChangedInvocationInfo, restricted: bool): seq<InputTypeGroup>
  {
    ToInputTypeGroups(Filter(info.expressionArguments, if restricted then Restricted else Unrestricted))
  }

  /** A member of a group is an argument of the group's two types. */
  lemma GroupMemberFacts(arguments: seq<ExpressionArgument>, i: int, j: int, a: ExpressionArgument)
    requires InGroup(ToInputTypeGroups(arguments), i, j, a)
    ensures var groups := ToInputTypeGroups(arguments);
      a in arguments && a.inputType == groups[i].inputType && a.outputType == groups[i].outputTypeGroups[j].key
  {
    var byInput := GroupBy(arguments, InputTypeOf);
    var groups := ToInputTypeGroups(arguments);
    var outputGroups := GroupBy(byInput[i].elements, OutputTypeOf);
    assert a in outputGroups[j].elements;
    assert HasKey(OutputTypeOf, outputGroups[j].key)(a);
    assert a in byInput[i].elements;
    assert HasKey(InputTypeOf, byInput[i].key)(a);
  }

  /** An argument is in some group exactly when it is one of the grouped arguments. */
  lemma InSomeGroupIff(arguments: seq<ExpressionArgument>, a: ExpressionArgument)
    ensures (exists i, j :: InGroup(ToInputTypeGroups(arguments), i, j, a)) <==> a in arguments
  {
    if a in arguments {
      GroupCoversArgument(arguments, a);
    }
    if i, j :| InGroup(ToInputTypeGroups(arguments), i, j, a) {
      GroupMemberFacts(arguments, i, j, a);
    }
  }

  /** Each collected argument is grouped on exactly the side its classification names. */
  lemma SidesPartitionArguments(info: WhenChangedInvocationInfo, a: ExpressionArgument)
    requires a in info.expressionArguments
    ensures (exists i, j :: InGroup(SideGroups(info, true), i, j, a)) <==> a.containsPrivateOrProtectedMember
    ensures (exists i, j :: InGroup(SideGroups(info, false), i, j, a)) <==> !a.containsPrivateOrProtectedMember
  {
    var restricted := Filter(info.expressionArguments, Restricted);
    var unrestricted := Filter(info.expressionArguments, Unrestricted);
    assert SideGroups(info, true) == ToInputTypeGroups(restricted);
    assert SideGroups(info, false) == ToInputTypeGroups(unrestricted);
    InSomeGroupIff(restricted, a);
    InSomeGroupIff(unrestricted, a);
    assert a in restricted <==> a.containsPrivateOrProtectedMember;
    assert a in unrestricted <==> !a.containsPrivateOrProtectedMember;
  }

  /** Every restricted argument is served by a method of the partial class of its monitored type. */
  lemma RestrictedArgumentServed(info: WhenChangedInvocationInfo, model: SemanticModel, a: ExpressionArgument)
    requires ChainsPresent(info.expressionArguments)
    requires a in info.expressionArguments && a.containsPrivateOrProtectedMember
    ensures var data := PartialClassData(info, model);
      exists i, j :: 0 <= i < |data| && 0 <= j < |data[i].methodData| &&
        data[i].name == model.declarationInfo(a.inputType).name && Serves(data[i].methodData[j], a, model)
  {
    var arguments := Filter(info.expressionArguments, Restricted);
    var groups := ToInputTypeGroups(arguments);
    var data := PartialClassData(info, model);
    GroupCoversArgument(arguments, a);
    var i, j :| InGroup(groups, i, j, a);
    GroupServesArgument(arguments, model, i, j, a);
    GroupsFit(arguments);
    assert data[i] == PartialClassDatumOf(groups[i], info.multiExpressionMethodData, model);
    assert data[i].methodData[j] == SingleData(groups[i], model)[j];
  }

  /** Every unrestricted argument is served by a method of the extension class of its monitored type. */
  lemma UnrestrictedArgumentServed(info: WhenChangedInvocationInfo, model: SemanticModel, a: ExpressionArgument)
    requires ChainsPresent(info.expressionArguments)
    requires a in info.expressionArguments && !a.containsPrivateOrProtectedMember
    ensures var data := ExtensionClassData(info, model);
      exists i, j :: 0 <= i < |data| && 0 <= j < |data[i].methodData| &&
        data[i].name == model.declarationInfo(a.inputType).name && Serves(data[i].methodData[j], a, model)
  {
    var arguments := Filter(info.expressionArguments, Unrestricted);
    var groups := ToInputTypeGroups(arguments);
    var data := ExtensionClassData(info, model);
    GroupCoversArgument(arguments, a);
    var i, j :| InGroup(groups, i, j, a);
    GroupServesArgument(arguments, model, i, j, a);
    GroupsFit(arguments);
    assert data[i] == ExtensionClassDatumOf(groups[i], info.multiExpressionMethodData, model);
    assert data[i].methodData[j] == SingleData(groups[i], model)[j];
  }

  /** The method of an output group serves each of its arguments. */
  lemma GroupServesArgument(arguments: seq<ExpressionArgument>, model: SemanticModel, i: int, j: int, a: ExpressionArgument)
    requires ChainsPresent(arguments)
    requires InGroup(ToInputTypeGroups(arguments), i, j, a)
    ensures var groups := ToInputTypeGroups(arguments);
      a.inputType == groups[i].inputType &&
      |groups[i].outputTypeGroups[j].elements| > 0 && ChainsPresent(groups[i].outputTypeGroups[j].elements) &&
      Serves(SingleExpressionMethodDatum(groups[i].outputTypeGroups[j], model), a, model)
  {
    var groups := ToInputTypeGroups(arguments);
    InGroupIff(arguments);
    GroupsFit(arguments);
    var group := groups[i].outputTypeGroups[j];
    assert InGroup(groups, i, j, group.elements[0]);
    forall b <- group.elements
      ensures b.inputType == group.elements[0].inputType && b.outputType == group.elements[0].outputType
    {
      assert InGroup(groups, i, j, b);
    }
    GroupMethodServesEveryArgument(group, model, a);
  }

  /**
   * A partial class carries exactly the combinators of its full name whose type arguments are restricted;
   * an extension class exactly those of its full name whose type arguments are not.
   */
  lemma CombinatorsOfClass(info: WhenChangedInvocationInfo, model: SemanticModel, d: MethodDatum)
    requires ChainsPresent(info.expressionArguments)
    ensures var data := PartialClassData(info, model); var groups := SideGroups(info, true);
      forall i :: 0 <= i < |data| ==>
        (d.MultiExpressionMethodDatum? && d in data[i].methodData <==>
         d in info.multiExpressionMethodData && d.MultiExpressionMethodDatum? && d.containsPrivateOrProtectedTypeArgument &&
         d.inputTypeFullName == model.declarationInfo(groups[i].inputType).fullName)
    ensures var data := ExtensionClassData(info, model); var groups := SideGroups(info, false);
      forall i :: 0 <= i < |data| ==>
        (d.MultiExpressionMethodDatum? && d in data[i].methodData <==>
         d in info.multiExpressionMethodData && d.MultiExpressionMethodDatum? && !d.containsPrivateOrProtectedTypeArgument &&
         d.inputTypeFullName == model.declarationInfo(groups[i].inputType).fullName)
  {
  }

  /** Some argument on the given side observes a type with this full name. */
  predicate SideHasType(info: WhenChangedInvocationInfo, model: SemanticModel, restricted: bool, fullName: string)
  {
    exists a <- info.expressionArguments ::
      a.containsPrivateOrProtectedMember == restricted && model.declarationInfo(a.inputType).fullName == fullName
  }

  /** The combinator datum `d` lands in some generated class. */
  predicate CombinatorEmitted(info: WhenChangedInvocationInfo, model: SemanticModel, d: MethodDatum)
    requires ChainsPresent(info.expressionArguments)
  {
    (exists i :: 0 <= i < |PartialClassData(info, model)| && d in PartialClassData(info, model)[i].methodData) ||
    (exists i :: 0 <= i < |ExtensionClassData(info, model)| && d in ExtensionClassData(info, model)[i].methodData)
  }

  /** An input group of a side exists exactly when an argument of that side observes the type. */
  lemma {:induction false} SideGroupFor(info: WhenChangedInvocationInfo, model: SemanticModel, restricted: bool, fullName: string)
    ensures (exists i :: 0 <= i < |SideGroups(info, restricted)| &&
               model.declarationInfo(SideGroups(info, restricted)[i].inputType).fullName == fullName) <==>
            SideHasType(info, model, restricted, fullName)
  {
    var arguments := Filter(info.expressionArguments, if restricted then Restricted else Unrestricted);
    var groups := SideGroups(info, restricted);
    InGroupIff(arguments);
    GroupsNonEmpty(arguments);
    if i :| 0 <= i < |groups| && model.declarationInfo(groups[i].inputType).fullName == fullName {
      var a := groups[i].outputTypeGroups[0].elements[0];
      assert |groups[i].outputTypeGroups[0].elements| > 0;
      assert InGroup(groups, i, 0, a);
    }
    if SideHasType(info, model, restricted, fullName) {
      var a :| a in info.expressionArguments && a.containsPrivateOrProtectedMember == restricted &&
               model.declarationInfo(a.inputType).fullName == fullName;
      assert a in arguments;
      GroupCoversArgument(arguments, a);
      var i, j :| InGroup(groups, i, j, a);
    }
  }

  /**
   * A combinator is generated exactly when some argument on the side its type arguments choose observes a
   * type of its full name; otherwise it is dropped without a diagnostic.
   */
  lemma CombinatorEmittedIff(info: WhenChangedInvocationInfo, model: SemanticModel, d: MethodDatum)
    requires ChainsPresent(info.expressionArguments)
    requires d in info.multiExpressionMethodData && d.MultiExpressionMethodDatum?
    ensures CombinatorEmitted(info, model, d) <==>
              SideHasType(info, model, d.containsPrivateOrProtectedTypeArgument, d.inputTypeFullName)
  {
    CombinatorsOfClass(info, model, d);
    SideGroupFor(info, model, d.containsPrivateOrProtectedTypeArgument, d.inputTypeFullName);
  }

  // ---------------------------------------------------------------------------------------------
  // Emission

  /** What one `AddSource` call receives: the hint name and the datum the class creator renders. */
  datatype GeneratedSource =
    | ExtensionClassSource(hintName: string, extensionClass: ExtensionClassDatum)
    | PartialClassSource(hintName: string, partialClass: PartialClassDatum)

  function ExtensionHintName(name: string, i: nat): string { "WhenChanged." + name + NatToString(i) + ".g.cs" }

  function PartialHintName(name: string, i: nat): string { name + NatToString(i) + ".WhenChanged.g.cs" }

  /** The extension sources, each numbered by its position. */
  function ExtensionSources(data: seq<ExtensionClassDatum>): (sources: seq<GeneratedSource>)
    ensures |sources| == |data|
  {
    seq(|data|, i requires 0 <= i < |data| => ExtensionClassSource(ExtensionHintName(data[i].name, i), data[i]))
  }

  /** The partial-class sources, each numbered by its position. */
  function PartialSources(data: seq<PartialClassDatum>): (sources: seq<GeneratedSource>)
    ensures |sources| == |data|
  {
    seq(|data|, i requires 0 <= i < |data| => PartialClassSource(PartialHintName(data[i].name, i), data[i]))
  }

  /** All extension sources first, then all partial-class sources. */
  function WhenChangedSources(info: WhenChangedInvocationInfo, model: SemanticModel): seq<GeneratedSource>
    requires ChainsPresent(info.expressionArguments)
  {
    ExtensionSources(ExtensionClassData(info, model)) + PartialSources(PartialClassData(info, model))
  }

  /**
   * Roslyn's `AddSource` compares hint names with `StringComparer.OrdinalIgnoreCase`: two names are the same
   * when they agree once `upper` (standing for `char.ToUpperInvariant`) is applied to each character.
   */
  predicate SameHintName(h: string, h': string, upper: char -> char)
  {
    MapChars(h, upper) == MapChars(h', upper)
  }

  /** Two of the sources have the same hint name. */
  predicate HintNameRepeats(sources: seq<GeneratedSource>, upper: char -> char)
  {
    exists i, j | 0 <= i < j < |sources| :: SameHintName(sources[i].hintName, sources[j].hintName, upper)
  }

  /** `context.AddSource`: `ArgumentException` when the hint name was added before, otherwise one more source. */
  function AddSource(added: seq<GeneratedSource>, source: GeneratedSource, upper: char -> char)
    : (r: Outcome<seq<GeneratedSource>>)
    ensures r.Threw? <==> exists i | 0 <= i < |added| :: SameHintName(added[i].hintName, source.hintName, upper)
    ensures r.Threw? ==> r.exception == ArgumentException
    ensures r.Returned? ==> r.value == added + [source]
  {
    if exists i | 0 <= i < |added| :: SameHintName(added[i].hintName, source.hintName, upper)
    then Threw(ArgumentException)
    else Returned(added + [source])
  }

  /** The sources passed to `AddSource` one at a time; the first refusal ends the run. */
  function AddSources(sources: seq<GeneratedSource>, upper: char -> char): Outcome<seq<GeneratedSource>>
  {
    if sources == [] then Returned([])
    else match AddSources(sources[..|sources| - 1], upper)
      case Threw(e) => Threw(e)
      case Returned(added) => AddSource(added, sources[|sources| - 1], upper)
  }

  /** One more source: `AddSources` takes one more `AddSource` step. */
  lemma AddSourcesSnoc(front: seq<GeneratedSource>, last: GeneratedSource, upper: char -> char)
    ensures AddSources(front + [last], upper) ==
            match AddSources(front, upper)
              case Threw(e) => Threw(e)
              case Returned(added) => AddSource(added, last, upper)
  {
    assert (front + [last])[..|front|] == front;
  }

  /** A repeat among `front + [last]` is a repeat among `front` or a name in `front` that `last` repeats. */
  lemma RepeatsSnoc(front: seq<GeneratedSource>, last: GeneratedSource, upper: char -> char)
    ensures HintNameRepeats(front + [last], upper) <==>
            HintNameRepeats(front, upper) ||
            exists i | 0 <= i < |front| :: SameHintName(front[i].hintName, last.hintName, upper)
  {
    var sources := front + [last];
    if HintNameRepeats(sources, upper) && !HintNameRepeats(front, upper) {
      var i, j :| 0 <= i < j < |sources| && SameHintName(sources[i].hintName, sources[j].hintName, upper);
      assert j == |front| && SameHintName(front[i].hintName, last.hintName, upper);
    }
    if HintNameRepeats(front, upper) {
      var i, j :| 0 <= i < j < |front| && SameHintName(front[i].hintName, front[j].hintName, upper);
      assert sources[i] == front[i] && sources[j] == front[j];
    }
    if exists i | 0 <= i < |front| :: SameHintName(front[i].hintName, last.hintName, upper) {
      var i :| 0 <= i < |front| && SameHintName(front[i].hintName, last.hintName, upper);
      assert sources[i] == front[i] && sources[|front|] == last;
    }
  }

  /** Adding the sources one by one throws exactly when two hint names coincide; otherwise all are added, in order. */
  lemma {:induction false} AddSourcesThrowsIff(sources: seq<GeneratedSource>, upper: char -> char)
    ensures AddSources(sources, upper) ==
            if HintNameRepeats(sources, upper) then Threw(ArgumentException) else Returned(sources)
  {
    if sources != [] {
      var front, last := sources[..|sources| - 1], sources[|sources| - 1];
      assert sources == front + [last];
      AddSourcesThrowsIff(front, upper);
      AddSourcesSnoc(front, last, upper);
      RepeatsSnoc(front, last, upper);
    }
  }

  /** Once `AddSource` has thrown, later sources change nothing. */
  lemma {:induction false} AddSourcesThrewStays(front: seq<GeneratedSource>, rest: seq<GeneratedSource>,
                                                upper: char -> char)
    requires AddSources(front, upper).Threw?
    ensures AddSources(front + rest, upper) == AddSources(front, upper)
    decreases |rest|
  {
    if rest == [] {
      assert front + rest == front;
    } else {
      assert (front + rest)[..|front + rest| - 1] == front + rest[..|rest| - 1];
      AddSourcesThrewStays(front, rest[..|rest| - 1], upper);
    }
  }

  /** Lengthening a prefix by one element (a fact about sequences, used by both emission loops). */
  lemma PrefixSnoc<T>(added: seq<T>, emitted: seq<T>, i: nat)
    requires i < |emitted|
    ensures added + emitted[..i + 1] == (added + emitted[..i]) + [emitted[i]]
  {
    assert emitted[..i + 1] == emitted[..i] + [emitted[i]];
  }

  /** A prefix and the rest make up the whole (a fact about sequences, used by both emission loops). */
  lemma PrefixRest<T>(added: seq<T>, emitted: seq<T>, k: nat)
    requires k <= |emitted|
    ensures added + emitted[..k] + emitted[k..] == added + emitted
  {
    assert emitted[..k] + emitted[k..] == emitted;
  }

  /** The first emission loop of `GenerateWhenChanged`, continuing from the sources `added` so far. */
  method AddExtensionSources(added: seq<GeneratedSource>, extensionClassData: seq<ExtensionClassDatum>,
                             upper: char -> char)
    returns (r: Outcome<seq<GeneratedSource>>)
    requires AddSources(added, upper) == Returned(added)
    ensures r == AddSources(added + ExtensionSources(extensionClassData), upper)
  {
    var sources := added;
    ghost var emitted := ExtensionSources(extensionClassData);
    assert added + emitted[..0] == added;
    for i := 0 to |extensionClassData|
      invariant AddSources(added + emitted[..i], upper) == Returned(sources)
    {
      var source := ExtensionClassSource("WhenChanged." + extensionClassData[i].name + NatToString(i) + ".g.cs",
                                         extensionClassData[i]);
      assert emitted[i] == source;
      PrefixSnoc(added, emitted, i);
      AddSourcesSnoc(added + emitted[..i], source, upper);
      var step := AddSource(sources, source, upper);
      if step.Threw? {
        AddSourcesThrewStays(added + emitted[..i + 1], emitted[i + 1..], upper);
        PrefixRest(added, emitted, i + 1);
        return step;
      }
      sources := step.value;
    }
    assert emitted[..|extensionClassData|] == emitted;
    r := Returned(sources);
  }

  /** The second emission loop of `GenerateWhenChanged`, continuing from the sources `added` so far. */
  method AddPartialSources(added: seq<GeneratedSource>, partialClassData: seq<PartialClassDatum>, upper: char -> char)
    returns (r: Outcome<seq<GeneratedSource>>)
    requires AddSources(added, upper) == Returned(added)
    ensures r == AddSources(added + PartialSources(partialClassData), upper)
  {
    var sources := added;
    ghost var emitted := PartialSources(partialClassData);
    assert added + emitted[..0] == added;
    for i := 0 to |partialClassData|
      invariant AddSources(added + emitted[..i], upper) == Returned(sources)
    {
      var source := PartialClassSource(partialClassData[i].name + NatToString(i) + ".WhenChanged.g.cs",
                                       partialClassData[i]);
      assert emitted[i] == source;
      PrefixSnoc(added, emitted, i);
      AddSourcesSnoc(added + emitted[..i], source, upper);
      var step := AddSource(sources, source, upper);
      if step.Threw? {
        AddSourcesThrewStays(added + emitted[..i + 1], emitted[i + 1..], upper);
        PrefixRest(added, emitted, i + 1);
        return step;
      }
      sources := step.value;
    }
    assert emitted[..|partialClassData|] == emitted;
    r := Returned(sources);
  }

  /** What one run of the generator adds to the compilation. */
  datatype GeneratorOutput = GeneratorOutput(sources: seq<GeneratedSource>, diagnostics: seq<Diagnostic>)

  /**
   * `GenerateWhenChanged`: collect, stop if any argument is invalid, group, then add one source per class.
   * An exception in the collection pass ends the run, and so does a hint name that `AddSource` has seen before
   * (compared ignoring case through `upper`).
   */
  method GenerateWhenChanged(invocations: seq<InvocationExpression>, model: SemanticModel, upper: char -> char)
    returns (r: Outcome<GeneratorOutput>)
    requires WellFormed(invocations, model)
    ensures match ExtractInvocations(invocations, model)
      case Threw(e) => r == Threw(e)
      case Returned(info) =>
        if info.allExpressionArgumentsAreValid then
          ChainsPresent(info.expressionArguments) &&
          r == if HintNameRepeats(WhenChangedSources(info, model), upper) then Threw(ArgumentException)
               else Returned(GeneratorOutput(WhenChangedSources(info, model), info.diagnostics))
        else r == Returned(GeneratorOutput([], info.diagnostics))
  {
    var extracted := ExtractWhenChangedInvocationInfo(invocations, model);
    if extracted.Threw? {
      return Threw(extracted.exception);
    }
    var whenChangedInvocationInfo := extracted.value;
    var diagnostics := whenChangedInvocationInfo.diagnostics;
    if !whenChangedInvocationInfo.allExpressionArgumentsAreValid {
      return Returned(GeneratorOutput([], diagnostics));
    }
    ValidMeansChainsPresent(invocations, model);
    var partialClassData := PartialClassData(whenChangedInvocationInfo, model);
    var extensionClassData := ExtensionClassData(whenChangedInvocationInfo, model);
    var extensionSources, partialSources := ExtensionSources(extensionClassData), PartialSources(partialClassData);
    AddSourcesThrowsIff(extensionSources + partialSources, upper);
    assert [] + extensionSources == extensionSources;
    var afterExtensions := AddExtensionSources([], extensionClassData, upper);
    if afterExtensions.Threw? {
      AddSourcesThrewStays(extensionSources, partialSources, upper);
      return Threw(afterExtensions.exception);
    }
    AddSourcesThrowsIff(extensionSources, upper);
    var afterPartials := AddPartialSources(afterExtensions.value, partialClassData, upper);
    if afterPartials.Threw? {
      return Threw(afterPartials.exception);
    }
    r := Returned(GeneratorOutput(afterPartials.value, diagnostics));
  }

  /** Two extension sources get distinct hint names when the type names do not end in a digit. */
  lemma ExtensionHintNamesDistinct(name: string, i: nat, name': string, i': nat)
    requires !EndsWithDigit(name) && !EndsWithDigit(name')
    requires ExtensionHintName(name, i) == ExtensionHintName(name', i')
    ensures name == name' && i == i'
  {
    var s := "WhenChanged." + name + NatToString(i);
    var s' := "WhenChanged." + name' + NatToString(i');
    assert s == ExtensionHintName(name, i)[..|ExtensionHintName(name, i)| - 5];
    assert s' == ExtensionHintName(name', i')[..|ExtensionHintName(name', i')| - 5];
    assert ("WhenChanged." + name) + NatToString(i) == ("WhenChanged." + name') + NatToString(i');
    NumberedNamesInjective("WhenChanged." + name, i, "WhenChanged." + name', i');
    assert name == ("WhenChanged." + name)[12..];
    assert name' == ("WhenChanged." + name')[12..];
  }

  /** Two partial-class sources get distinct hint names when the type names do not end in a digit. */
  lemma PartialHintNamesDistinct(name: string, i: nat, name': string, i': nat)
    requires !EndsWithDigit(name) && !EndsWithDigit(name')
    requires PartialHintName(name, i) == PartialHintName(name', i')
    ensures name == name' && i == i'
  {
    var h, h' := PartialHintName(name, i), PartialHintName(name', i');
    assert name + NatToString(i) == h[..|h| - 17];
    assert name' + NatToString(i') == h'[..|h'| - 17];
    NumberedNamesInjective(name, i, name', i');
  }

  /**
   * A numbered name followed by a fixed suffix: when the names do not end in a digit, agreeing ignoring case fixes
   * the number and the name (ignoring case).
   */
  lemma NumberedNamesDistinctIgnoringCase(name: string, i: nat, name': string, i': nat, suffix: string,
                                          upper: char -> char)
    requires KeepsDigits(upper)
    requires !EndsWithDigit(name) && !EndsWithDigit(name')
    requires MapChars(name + NatToString(i) + suffix, upper) == MapChars(name' + NatToString(i') + suffix, upper)
    ensures i == i' && MapChars(name, upper) == MapChars(name', upper)
  {
    var un, un' := MapChars(name, upper), MapChars(name', upper);
    MapCharsAppend(name + NatToString(i), suffix, upper);
    MapCharsAppend(name, NatToString(i), upper);
    MapCharsKeepsNumber(i, upper);
    MapCharsAppend(name' + NatToString(i'), suffix, upper);
    MapCharsAppend(name', NatToString(i'), upper);
    MapCharsKeepsNumber(i', upper);
    var mapped := MapChars(name + NatToString(i) + suffix, upper);
    assert un + NatToString(i) == mapped[..|mapped| - |suffix|];
    assert un' + NatToString(i') == mapped[..|mapped| - |suffix|];
    MapCharsEndsWithDigit(name, upper);
    MapCharsEndsWithDigit(name', upper);
    NumberedNamesInjective(un, i, un', i');
  }

  /** Names that agree ignoring case after a common prefix agree ignoring case without it. */
  lemma PrefixedNamesAgreeIgnoringCase(prefix: string, name: string, name': string, upper: char -> char)
    requires MapChars(prefix + name, upper) == MapChars(prefix + name', upper)
    ensures MapChars(name, upper) == MapChars(name', upper)
  {
    MapCharsAppend(prefix, name, upper);
    MapCharsAppend(prefix, name', upper);
    assert MapChars(name, upper) == MapChars(prefix + name, upper)[|prefix|..];
  }

  /** Names that agree ignoring case still agree with the same text around them. */
  lemma MapCharsAgreeAround(prefix: string, name: string, name': string, suffix: string, upper: char -> char)
    requires MapChars(name, upper) == MapChars(name', upper)
    ensures MapChars(prefix + name + suffix, upper) == MapChars(prefix + name' + suffix, upper)
  {
    MapCharsAppend(prefix + name, suffix, upper);
    MapCharsAppend(prefix, name, upper);
    MapCharsAppend(prefix + name', suffix, upper);
    MapCharsAppend(prefix, name', upper);
  }

  /** A prefix that does not end in a digit keeps a name that does not end in one from ending in one. */
  lemma PrefixKeepsNoDigitEnd(prefix: string, name: string)
    requires !EndsWithDigit(prefix) && !EndsWithDigit(name)
    ensures !EndsWithDigit(prefix + name)
  {
    if name != [] {
      assert (prefix + name)[|prefix + name| - 1] == name[|name| - 1];
    } else {
      assert prefix + name == prefix;
    }
  }

  /** Extension hint names that agree ignoring case come from one position and agreeing type names. */
  lemma ExtensionHintNamesMatchOnlyIfSame(name: string, i: nat, name': string, i': nat, upper: char -> char)
    requires KeepsDigits(upper)
    requires !EndsWithDigit(name) && !EndsWithDigit(name')
    requires SameHintName(ExtensionHintName(name, i), ExtensionHintName(name', i'), upper)
    ensures i == i' && MapChars(name, upper) == MapChars(name', upper)
  {
    PrefixKeepsNoDigitEnd("WhenChanged.", name);
    PrefixKeepsNoDigitEnd("WhenChanged.", name');
    NumberedNamesDistinctIgnoringCase("WhenChanged." + name, i, "WhenChanged." + name', i', ".g.cs", upper);
    PrefixedNamesAgreeIgnoringCase("WhenChanged.", name, name', upper);
  }

  /** One position and type names agreeing ignoring case give extension hint names agreeing so. */
  lemma ExtensionHintNamesMatchIfSame(name: string, name': string, i: nat, upper: char -> char)
    requires MapChars(name, upper) == MapChars(name', upper)
    ensures SameHintName(ExtensionHintName(name, i), ExtensionHintName(name', i), upper)
  {
    MapCharsAgreeAround("WhenChanged.", name, name', NatToString(i) + ".g.cs", upper);
    assert ExtensionHintName(name, i) == "WhenChanged." + name + (NatToString(i) + ".g.cs");
    assert ExtensionHintName(name', i) == "WhenChanged." + name' + (NatToString(i) + ".g.cs");
  }

  /**
   * The same, compared as `AddSource` compares them: when the type names do not end in a digit, two extension
   * hint names agree ignoring case exactly when they have the same position and type names agreeing ignoring case.
   */
  lemma ExtensionHintNamesDistinctIgnoringCase(name: string, i: nat, name': string, i': nat, upper: char -> char)
    requires KeepsDigits(upper)
    requires !EndsWithDigit(name) && !EndsWithDigit(name')
    ensures SameHintName(ExtensionHintName(name, i), ExtensionHintName(name', i'), upper) <==>
            i == i' && MapChars(name, upper) == MapChars(name', upper)
  {
    if SameHintName(ExtensionHintName(name, i), ExtensionHintName(name', i'), upper) {
      ExtensionHintNamesMatchOnlyIfSame(name, i, name', i', upper);
    }
    if i == i' && MapChars(name, upper) == MapChars(name', upper) {
      ExtensionHintNamesMatchIfSame(name, name', i, upper);
    }
  }

  /** Partial-class hint names that agree ignoring case come from one position and agreeing type names. */
  lemma PartialHintNamesMatchOnlyIfSame(name: string, i: nat, name': string, i': nat, upper: char -> char)
    requires KeepsDigits(upper)
    requires !EndsWithDigit(name) && !EndsWithDigit(name')
    requires SameHintName(PartialHintName(name, i), PartialHintName(name', i'), upper)
    ensures i == i' && MapChars(name, upper) == MapChars(name', upper)
  {
    NumberedNamesDistinctIgnoringCase(name, i, name', i', ".WhenChanged.g.cs", upper);
  }

  /** One position and type names agreeing ignoring case give partial-class hint names agreeing so. */
  lemma PartialHintNamesMatchIfSame(name: string, name': string, i: nat, upper: char -> char)
    requires MapChars(name, upper) == MapChars(name', upper)
    ensures SameHintName(PartialHintName(name, i), PartialHintName(name', i), upper)
  {
    var suffix := NatToString(i) + ".WhenChanged.g.cs";
    MapCharsAppend(name, suffix, upper);
    MapCharsAppend(name', suffix, upper);
    assert PartialHintName(name, i) == name + suffix;
    assert PartialHintName(name', i) == name' + suffix;
  }

  /**
   * When the type names do not end in a digit, two partial-class hint names agree ignoring case exactly when they
   * have the same position and type names agreeing ignoring case.
   */
  lemma PartialHintNamesDistinctIgnoringCase(name: string, i: nat, name': string, i': nat, upper: char -> char)
    requires KeepsDigits(upper)
    requires !EndsWithDigit(name) && !EndsWithDigit(name')
    ensures SameHintName(PartialHintName(name, i), PartialHintName(name', i'), upper) <==>
            i == i' && MapChars(name, upper) == MapChars(name', upper)
  {
    if SameHintName(PartialHintName(name, i), PartialHintName(name', i'), upper) {
      PartialHintNamesMatchOnlyIfSame(name, i, name', i', upper);
    }
    if i == i' && MapChars(name, upper) == MapChars(name', upper) {
      PartialHintNamesMatchIfSame(name, name', i, upper);
    }
  }

  /**
   * An extension hint name never agrees with a partial-class one, ignoring case: six characters from the end the
   * first has the last digit of its number, the second the `d` of `WhenChanged`.
   */
  lemma ExtensionAndPartialHintNamesDiffer(name: string, i: nat, name': string, i': nat, upper: char -> char)
    requires KeepsDigits(upper)
    ensures !SameHintName(ExtensionHintName(name, i), PartialHintName(name', i'), upper)
  {
    var h, h' := ExtensionHintName(name, i), PartialHintName(name', i');
    if SameHintName(h, h', upper) {
      var n := NatToString(i);
      assert h == ("WhenChanged." + name) + n + ".g.cs";
      assert h[|h| - 6] == n[|n| - 1];
      assert h'[|h'| - 6] == 'd';
      MapCharsAt(h, upper, |h| - 6);
      MapCharsAt(h', upper, |h'| - 6);
      assert false;
    }
  }

  /** The hint name at position `k` of the emitted sources. */
  lemma SourceHintNameAt(extensionClassData: seq<ExtensionClassDatum>, partialClassData: seq<PartialClassDatum>, k: nat)
    requires k < |extensionClassData| + |partialClassData|
    ensures (ExtensionSources(extensionClassData) + PartialSources(partialClassData))[k].hintName ==
            if k < |extensionClassData| then ExtensionHintName(extensionClassData[k].name, k)
            else PartialHintName(partialClassData[k - |extensionClassData|].name, k - |extensionClassData|)
  {
  }

  /** No two positions of the emitted sources carry hint names that agree ignoring case. */
  lemma HintNamesDifferAt(extensionClassData: seq<ExtensionClassDatum>, partialClassData: seq<PartialClassDatum>,
                          upper: char -> char, i: nat, j: nat)
    requires KeepsDigits(upper)
    requires forall k | 0 <= k < |extensionClassData| :: !EndsWithDigit(extensionClassData[k].name)
    requires forall k | 0 <= k < |partialClassData| :: !EndsWithDigit(partialClassData[k].name)
    requires i < j < |extensionClassData| + |partialClassData|
    ensures !SameHintName((ExtensionSources(extensionClassData) + PartialSources(partialClassData))[i].hintName,
                          (ExtensionSources(extensionClassData) + PartialSources(partialClassData))[j].hintName, upper)
  {
    var e := |extensionClassData|;
    SourceHintNameAt(extensionClassData, partialClassData, i);
    SourceHintNameAt(extensionClassData, partialClassData, j);
    if j < e {
      ExtensionHintNamesDistinctIgnoringCase(extensionClassData[i].name, i, extensionClassData[j].name, j, upper);
    } else if i < e {
      ExtensionAndPartialHintNamesDiffer(extensionClassData[i].name, i, partialClassData[j - e].name, j - e, upper);
    } else {
      PartialHintNamesDistinctIgnoringCase(partialClassData[i - e].name, i - e,
                                           partialClassData[j - e].name, j - e, upper);
    }
  }

  /**
   * When no class name ends in a digit, no two emitted hint names agree ignoring case, so `AddSource` never throws
   * and every source is added.
   */
  lemma WhenChangedHintNamesUnique(extensionClassData: seq<ExtensionClassDatum>,
                                   partialClassData: seq<PartialClassDatum>, upper: char -> char)
    requires KeepsDigits(upper)
    requires forall k | 0 <= k < |extensionClassData| :: !EndsWithDigit(extensionClassData[k].name)
    requires forall k | 0 <= k < |partialClassData| :: !EndsWithDigit(partialClassData[k].name)
    ensures !HintNameRepeats(ExtensionSources(extensionClassData) + PartialSources(partialClassData), upper)
    ensures AddSources(ExtensionSources(extensionClassData) + PartialSources(partialClassData), upper) ==
            Returned(ExtensionSources(extensionClassData) + PartialSources(partialClassData))
  {
    var sources := ExtensionSources(extensionClassData) + PartialSources(partialClassData);
    forall i, j | 0 <= i < j < |sources|
      ensures !SameHintName(sources[i].hintName, sources[j].hintName, upper)
    {
      HintNamesDifferAt(extensionClassData, partialClassData, upper, i, j);
    }
    AddSourcesThrowsIff(sources, upper);
  }

  /** A type named "A1" at position 0 and one named "A" at position 10 get the same hint name. */
  lemma HintNamesCanCollide()
    ensures ExtensionHintName("A1", 0) == ExtensionHintName("A", 10)
    ensures PartialHintName("A1", 0) == PartialHintName("A", 10)
  {
    NumberedNamesCanCollide();
  }

  /**
   * So when a class named "A1" is emitted first and one named "A" eleventh, the second `AddSource` of that name
   * throws `ArgumentException`, whatever the case mapping.
   */
  lemma HintNameCollisionThrows(extensionClassData: seq<ExtensionClassDatum>,
                                partialClassData: seq<PartialClassDatum>, upper: char -> char)
    requires |extensionClassData| > 10
    requires extensionClassData[0].name == "A1" && extensionClassData[10].name == "A"
    ensures HintNameRepeats(ExtensionSources(extensionClassData) + PartialSources(partialClassData), upper)
    ensures AddSources(ExtensionSources(extensionClassData) + PartialSources(partialClassData), upper) ==
            Threw(ArgumentException)
  {
    var sources := ExtensionSources(extensionClassData) + PartialSources(partialClassData);
    HintNamesCanCollide();
    assert sources[0].hintName == ExtensionHintName("A1", 0);
    assert sources[10].hintName == ExtensionHintName("A", 10);
    assert SameHintName(sources[0].hintName, sources[10].hintName, upper);
    AddSourcesThrowsIff(sources, upper);
  }
}
