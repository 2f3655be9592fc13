/**
 * The text templates of the `StringBuilder`-based creators. Each template is its exact text, with line
 * breaks written as `NewLine`; loops growing a `StringBuilder` are methods proved equal to a function
 * that states the result in terms of `Join`, `Separated` and `ConcatMap`. `friendly` stands for
 * `Accessibility.ToFriendlyString()`, which is not part of this model.
 */
module StringBuilderSourceCreatorHelper {
  import opened Wrappers
  import opened Seqs
  import opened Text
  import opened CodeAnalysis
  import opened Datums

  /** The three caller-information parameters that close every generated parameter list. */
  const CallerInfoParameters: string :=
    "        [CallerMemberName]string callerMemberName = null,\n        [CallerFilePath]string callerFilePath = null,\n        [CallerLineNumber]int callerLineNumber = 0)"

  const UsingStatements: string :=
    "\nusing System;\nusing System.Collections.Generic;\nusing System.ComponentModel;\nusing System.Linq.Expressions;\nusing System.Reactive.Disposables;\nusing System.Reactive.Linq;\nusing System.Runtime.CompilerServices;\n"

  // ---------------------------------------------------------------------------------------------
  // Multi-expression methods

  /** `propertyExpression{n}`, numbered from 1. */
  function PropertyExpressionName(n: nat): string { "propertyExpression" + NatToString(n) }

  /** `obs{n}`, numbered from 1. */
  function ObservableName(n: nat): string { "obs" + NatToString(n) }

  /** Distinct positions give distinct parameter and local names. */
  lemma GeneratedNamesDistinct(m: nat, n: nat)
    requires m != n
    ensures PropertyExpressionName(m) != PropertyExpressionName(n)
    ensures ObservableName(m) != ObservableName(n)
  {
    NumberedNamesDistinct("propertyExpression", m, n);
    NumberedNamesDistinct("obs", m, n);
  }

  function ExpressionParameterLine(inputType: string, returnType: string, n: nat): string
  {
    "        Expression<Func<" + inputType + ", " + returnType + ">> " + PropertyExpressionName(n) + "," + NewLine
  }

  /** One parameter line per temporary return type, in order, the `i`-th named `propertyExpression{i + 1}`. */
  function ExpressionParameterLines(inputType: string, tempReturnTypes: seq<string>): string
  {
    if tempReturnTypes == [] then ""
    else ExpressionParameterLines(inputType, tempReturnTypes[..|tempReturnTypes| - 1]) +
         ExpressionParameterLine(inputType, tempReturnTypes[|tempReturnTypes| - 1], |tempReturnTypes|)
  }

  /** The `Func<...>` parameter that combines the latest values. */
  function ConversionFuncParameter(typeArguments: seq<string>): string
  {
    "        Func<" + Join(", ", typeArguments) + "> conversionFunc," + NewLine
  }

  /**
   * The parameter list of a multi-expression method: the expression parameter lines, then a
   * `Func<...>` over every temporary return type and the output type, then the caller information.
   */
  function MultiExpressionMethodParameters(inputType: string, outputType: string, tempReturnTypes: seq<string>): string
  {
    ExpressionParameterLines(inputType, tempReturnTypes) + ConversionFuncParameter(tempReturnTypes + [outputType]) +
    CallerInfoParameters
  }

  method GetMultiExpressionMethodParameters(inputType: string, outputType: string, tempReturnTypes: seq<string>)
    returns (s: string)
    ensures s == MultiExpressionMethodParameters(inputType, outputType, tempReturnTypes)
  {
    var sb := AppendParameterLines(inputType, tempReturnTypes);
    ghost var parameterLines := sb;
    sb := AppendSeparated(sb + "        Func<", tempReturnTypes, ", ");
    SeparatedThenLastIsJoin(tempReturnTypes, ", ", outputType);
    sb := sb + outputType + "> conversionFunc," + NewLine + CallerInfoParameters;
    Regroup(parameterLines, "        Func<", Separated(tempReturnTypes, ", "), outputType, "> conversionFunc,", CallerInfoParameters);
    s := sb;
  }

  /** The first loop of the parameter list: one parameter line per temporary return type. */
  method AppendParameterLines(inputType: string, tempReturnTypes: seq<string>) returns (sb: string)
    ensures sb == ExpressionParameterLines(inputType, tempReturnTypes)
  {
    sb := "";
    for i := 0 to |tempReturnTypes|
      invariant sb == ExpressionParameterLines(inputType, tempReturnTypes[..i])
    {
      assert tempReturnTypes[..i + 1][..i] == tempReturnTypes[..i];
      sb := sb + ExpressionParameterLine(inputType, tempReturnTypes[i], i + 1);
    }
    assert tempReturnTypes[..|tempReturnTypes|] == tempReturnTypes;
  }

  /** `a + f + s + o + x + NewLine + c`, regrouped as the parameter list is stated. */
  lemma Regroup(a: string, f: string, s: string, o: string, x: string, c: string)
    ensures a + f + s + o + x + NewLine + c == a + (f + (s + o) + x + NewLine) + c
  {
  }

  function ObservableDeclaration(receiver: string, n: nat): string
  {
    "        var " + ObservableName(n) + " = " + receiver + ".WhenChanged(" + PropertyExpressionName(n) +
    ", callerMemberName, callerFilePath, callerLineNumber);" + NewLine
  }

  /** `obs1..obs{counter}`, the `n`-th subscribing to `propertyExpression{n}` on `receiver`. */
  function ObservableDeclarations(receiver: string, counter: nat): string
  {
    if counter == 0 then "" else ObservableDeclarations(receiver, counter - 1) + ObservableDeclaration(receiver, counter)
  }

  /** `obs2..obs{counter}`: the observables after the first. */
  function LaterObservableNames(counter: nat): (names: seq<string>)
    ensures |names| == if counter == 0 then 0 else counter - 1
    ensures forall i :: 0 <= i < |names| ==> names[i] == ObservableName(i + 2)
  {
    var n := if counter == 0 then 0 else counter - 1;
    seq(n, i requires 0 <= i < n => ObservableName(i + 2))
  }

  /** `return obs1.CombineLatest(obs2, ..., obs{counter}, conversionFunc);` */
  function CombineLatestReturn(counter: nat): string
  {
    "        return obs1.CombineLatest(" + Join(", ", LaterObservableNames(counter) + ["conversionFunc"]) + ");"
  }

  /**
   * The body of a multi-expression method: declare `obs1..obs{counter}`, then combine them as
   * `obs1.CombineLatest(obs2, ..., obs{counter}, conversionFunc)`.
   */
  function ObservableBody(receiver: string, counter: nat): string
  {
    ObservableDeclarations(receiver, counter) + CombineLatestReturn(counter)
  }

  /** The shared loops of `GetMultiExpressionMethodBody` and `GetMultiExpressionMethodBodyForPartialClass`. */
  method AppendObservableBody(receiver: string, counter: nat) returns (s: string)
    ensures s == ObservableBody(receiver, counter)
  {
    var sb := DeclareObservables(receiver, counter);
    s := AppendCombineLatest(sb, counter);
  }

  /** The first loop: one declaration per expression parameter. */
  method DeclareObservables(receiver: string, counter: nat) returns (sb: string)
    ensures sb == ObservableDeclarations(receiver, counter)
  {
    sb := "";
    for i := 0 to counter
      invariant sb == ObservableDeclarations(receiver, i)
    {
      sb := sb + ObservableDeclaration(receiver, i + 1);
    }
  }

  /** The second loop: the later observables and `conversionFunc` as the arguments of `CombineLatest`. */
  method AppendCombineLatest(declarations: string, counter: nat) returns (sb: string)
    ensures sb == declarations + CombineLatestReturn(counter)
  {
    sb := declarations + "        return obs1.CombineLatest(";
    sb := AppendSeparated(sb, LaterObservableNames(counter), ", ");
    SeparatedThenLastIsJoin(LaterObservableNames(counter), ", ", "conversionFunc");
    sb := sb + "conversionFunc);";
    CloseCombineLatest(declarations, "        return obs1.CombineLatest(", Separated(LaterObservableNames(counter), ", "));
  }

  /** The closing `conversionFunc);` regrouped as the return statement is stated. */
  lemma CloseCombineLatest(d: string, r: string, s: string)
    ensures d + r + s + "conversionFunc);" == d + (r + (s + "conversionFunc") + ");")
  {
    assert "conversionFunc);" == "conversionFunc" + ");";
  }

  /** The extension-class body subscribes through `objectToMonitor`. */
  method GetMultiExpressionMethodBody(counter: nat) returns (s: string)
    ensures s == ObservableBody("objectToMonitor", counter)
  {
    s := AppendObservableBody("objectToMonitor", counter);
  }

  /** The partial-class body is the same text with `this` as the receiver. */
  method GetMultiExpressionMethodBodyForPartialClass(counter: nat) returns (s: string)
    ensures s == ObservableBody("this", counter)
  {
    s := AppendObservableBody("this", counter);
  }

  /** Every local `obs{n}` is declared, subscribing to the expression parameter of the same number. */
  lemma ObservableDeclaredPerExpression(receiver: string, counter: nat, n: nat)
    requires 1 <= n <= counter
    ensures Contains(ObservableBody(receiver, counter), ObservableDeclaration(receiver, n))
  {
    DeclarationsContain(receiver, counter, n);
    ContainsPrefix(ObservableDeclarations(receiver, counter), ObservableDeclaration(receiver, n), CombineLatestReturn(counter));
  }

  lemma {:induction false} DeclarationsContain(receiver: string, counter: nat, n: nat)
    requires 1 <= n <= counter
    ensures Contains(ObservableDeclarations(receiver, counter), ObservableDeclaration(receiver, n))
  {
    var front := ObservableDeclarations(receiver, counter - 1);
    if n == counter {
      OccursInMiddle(front, ObservableDeclaration(receiver, n), "");
      assert front + ObservableDeclaration(receiver, n) + "" == ObservableDeclarations(receiver, counter);
    } else {
      DeclarationsContain(receiver, counter - 1, n);
      ContainsPrefix(front, ObservableDeclaration(receiver, n), ObservableDeclaration(receiver, counter));
    }
  }

  /** Every expression parameter line occurs in the parameter list, numbered by its position. */
  lemma ParameterLinePerExpression(inputType: string, outputType: string, tempReturnTypes: seq<string>, i: nat)
    requires i < |tempReturnTypes|
    ensures Contains(MultiExpressionMethodParameters(inputType, outputType, tempReturnTypes),
                     ExpressionParameterLine(inputType, tempReturnTypes[i], i + 1))
  {
    ParameterLinesContain(inputType, tempReturnTypes, i);
    var line := ExpressionParameterLine(inputType, tempReturnTypes[i], i + 1);
    ContainsPrefix(ExpressionParameterLines(inputType, tempReturnTypes), line, ConversionFuncParameter(tempReturnTypes + [outputType]));
    ContainsPrefix(ExpressionParameterLines(inputType, tempReturnTypes) + ConversionFuncParameter(tempReturnTypes + [outputType]), line,
                   CallerInfoParameters);
  }

  lemma {:induction false} ParameterLinesContain(inputType: string, tempReturnTypes: seq<string>, i: nat)
    requires i < |tempReturnTypes|
    ensures Contains(ExpressionParameterLines(inputType, tempReturnTypes), ExpressionParameterLine(inputType, tempReturnTypes[i], i + 1))
    decreases |tempReturnTypes|
  {
    var front := tempReturnTypes[..|tempReturnTypes| - 1];
    var line := ExpressionParameterLine(inputType, tempReturnTypes[i], i + 1);
    if i == |tempReturnTypes| - 1 {
      OccursInMiddle(ExpressionParameterLines(inputType, front), line, "");
      assert ExpressionParameterLines(inputType, front) + line + "" == ExpressionParameterLines(inputType, tempReturnTypes);
    } else {
      assert front[i] == tempReturnTypes[i];
      ParameterLinesContain(inputType, front, i);
      ContainsPrefix(ExpressionParameterLines(inputType, front), line,
                     ExpressionParameterLine(inputType, tempReturnTypes[|tempReturnTypes| - 1], |tempReturnTypes|));
    }
  }

  /**
   * The extension `WhenChanged` over several expressions: its header, the `this` receiver
   * `objectToMonitor`, the expression parameters and the body, in that order.
   */
  function MultiExpressionMethod(inputType: string, outputType: string, accessModifier: Accessibility,
                                 expressionParameters: string, body: string, friendly: Accessibility -> string): (r: string)
    ensures ContainsInOrder(r, friendly(accessModifier) + " static IObservable<" + outputType + "> WhenChanged(",
                            "this " + inputType + " objectToMonitor,")
    ensures ContainsInOrder(r, "this " + inputType + " objectToMonitor,", expressionParameters)
    ensures ContainsInOrder(r, expressionParameters, body)
  {
    var header := friendly(accessModifier) + " static IObservable<" + outputType + "> WhenChanged(";
    var receiver := "this " + inputType + " objectToMonitor,";
    PiecesInOrder9("\n    ", header, "\n        ", receiver, "\n", expressionParameters, "\n    {\n", body, "\n    }\n");
    Concat(["\n    ", header, "\n        ", receiver, "\n", expressionParameters, "\n    {\n", body, "\n    }\n"])
  }

  /** The instance `WhenChanged` over several expressions: no receiver parameter, then the parameters and the body. */
  function MultiExpressionMethodForPartialClass(inputType: string, outputType: string, accessModifier: Accessibility,
                                                expressionParameters: string, body: string, friendly: Accessibility -> string): (r: string)
    ensures ContainsInOrder(r, friendly(accessModifier) + " IObservable<" + outputType + "> WhenChanged(\n", expressionParameters)
    ensures ContainsInOrder(r, expressionParameters, body)
  {
    var header := friendly(accessModifier) + " IObservable<" + outputType + "> WhenChanged(\n";
    PiecesInOrder7("\n    ", header, "", expressionParameters, "\n    {\n", body, "\n    }\n");
    Concat(["\n    ", header, "", expressionParameters, "\n    {\n", body, "\n    }\n"])
  }

  // ---------------------------------------------------------------------------------------------
  // Single-expression methods, maps and map entries

  /** The extension `WhenChanged` that looks the expression's text up in the map `mapName` and invokes the entry on `source`. */
  function WhenChangedMethodForMap(inputType: string, outputType: string, accessModifier: Accessibility, mapName: string,
                                   friendly: Accessibility -> string): (r: string)
    ensures ContainsInOrder(r, friendly(accessModifier) + " static IObservable<" + outputType + "> WhenChanged(",
                            "this " + inputType + " source,")
    ensures ContainsInOrder(r, "this " + inputType + " source,",
                            "Expression<Func<" + inputType + ", " + outputType + ">> propertyExpression,")
    ensures ContainsInOrder(r, "Expression<Func<" + inputType + ", " + outputType + ">> propertyExpression,", CallerInfoParameters)
    ensures ContainsInOrder(r, CallerInfoParameters, "return " + mapName + "[propertyExpression.Body.ToString()].Invoke(source);")
  {
    var header := friendly(accessModifier) + " static IObservable<" + outputType + "> WhenChanged(";
    var receiver := "this " + inputType + " source,";
    var expression := "Expression<Func<" + inputType + ", " + outputType + ">> propertyExpression,";
    var lookup := "return " + mapName + "[propertyExpression.Body.ToString()].Invoke(source);";
    PiecesInOrder11("\n    ", header, "\n        ", receiver, "\n        ", expression, "\n", CallerInfoParameters,
                    "\n    {\n        ", lookup, "\n    }\n");
    Concat(["\n    ", header, "\n        ", receiver, "\n        ", expression, "\n", CallerInfoParameters,
            "\n    {\n        ", lookup, "\n    }\n"])
  }

  /**
   * The subscription to one member of `inputName`: nothing is emitted for a null input, otherwise the
   * current value is emitted, and again on every `PropertyChanged` event that names the member.
   */
  function ObservableCreation(inputType: string, inputName: string, outputType: string, memberName: string): (r: string)
    ensures ContainsInOrder(r, "Observable.Create<" + outputType + ">(", "if (" + inputName + " == null)")
    ensures ContainsInOrder(r, "if (" + inputName + " == null)", "observer.OnNext(" + inputName + "." + memberName + ");")
    ensures ContainsInOrder(r, "observer.OnNext(" + inputName + "." + memberName + ");",
                            "var input = (" + inputType + ")" + inputName + ";")
    ensures ContainsInOrder(r, "var input = (" + inputType + ")" + inputName + ";",
                            "if (e.PropertyName == \"" + memberName + "\")")
    ensures ContainsInOrder(r, "if (e.PropertyName == \"" + memberName + "\")", "observer.OnNext(input." + memberName + ");")
    ensures ContainsInOrder(r, "observer.OnNext(input." + memberName + ");", inputName + ".PropertyChanged += handler;")
  {
    var create := "Observable.Create<" + outputType + ">(";
    var observerOpen := "\n                observer =>\n                {\n                    ";
    var nullCheck := "if (" + inputName + " == null)";
    var emptyReturn := "\n                    {\n                        return Disposable.Empty;\n                    }\n\n                    ";
    var first := "observer.OnNext(" + inputName + "." + memberName + ");";
    var handlerOpen :=
      "\n\n                    PropertyChangedEventHandler handler = (object sender, PropertyChangedEventArgs e) =>\n                    {\n                        ";
    var cast := "var input = (" + inputType + ")" + inputName + ";";
    var nameCheck := "if (e.PropertyName == \"" + memberName + "\")";
    var thenOpen := "\n                        {\n                            ";
    var next := "observer.OnNext(input." + memberName + ");";
    var handlerClose := "\n                        }\n                    };\n\n                    ";
    var subscribe := inputName + ".PropertyChanged += handler;";
    var unsubscribe := "\n\n                    return Disposable.Create((parent: " + inputName +
                       ", handler), x => x.parent.PropertyChanged -= x.handler);\n                })";
    PiecesInOrder15("", create, observerOpen, nullCheck, emptyReturn, first, handlerOpen, cast, "\n                        ",
                    nameCheck, thenOpen, next, handlerClose, subscribe, unsubscribe);
    Concat(["", create, observerOpen, nullCheck, emptyReturn, first, handlerOpen, cast, "\n                        ",
            nameCheck, thenOpen, next, handlerClose, subscribe, unsubscribe])
  }

  /** The extension `WhenChanged` that returns `Observable.Return(source)` followed by the chain. */
  function WhenChangedMethodForDirectReturn(inputType: string, outputType: string, accessModifier: Accessibility,
                                            valueChain: string, friendly: Accessibility -> string): (r: string)
    ensures ContainsInOrder(r, friendly(accessModifier) + " static IObservable<" + outputType + "> WhenChanged(",
                            "this " + inputType + " source,")
    ensures ContainsInOrder(r, "this " + inputType + " source,",
                            "Expression<Func<" + inputType + ", " + outputType + ">> propertyExpression,")
    ensures ContainsInOrder(r, "Expression<Func<" + inputType + ", " + outputType + ">> propertyExpression,", CallerInfoParameters)
    ensures ContainsInOrder(r, CallerInfoParameters, "return Observable.Return(source)" + valueChain + ";")
  {
    var summary :=
      "\n    /// <summary>\n    /// Generates a IObservable which signals with updated property value changes.\n    /// </summary>\n    /// <param name=\"source\">The source of the property changes.</param>\n    /// <param name=\"propertyExpression\">The property.</param>\n    /// <returns>The observable which signals with updates.</returns>\n    ";
    var header := friendly(accessModifier) + " static IObservable<" + outputType + "> WhenChanged(";
    var receiver := "this " + inputType + " source,";
    var expression := "Expression<Func<" + inputType + ", " + outputType + ">> propertyExpression,";
    var returned := "return Observable.Return(source)" + valueChain + ";";
    PiecesInOrder11(summary, header, "\n        ", receiver, "\n        ", expression, "\n", CallerInfoParameters,
                    "\n    {\n        ", returned, "\n    }\n");
    Concat([summary, header, "\n        ", receiver, "\n        ", expression, "\n", CallerInfoParameters,
            "\n    {\n        ", returned, "\n    }\n"])
  }

  /** One further hop of a chain: select the member's observable on `x` and switch to the latest one. */
  function MapEntryChain(inputType: string, outputType: string, memberName: string): (r: string)
    ensures ContainsInOrder(r, ".Select(x => " + ObservableCreation(inputType, "x", outputType, memberName) + ")", ".Switch()")
  {
    var select := ".Select(x => " + ObservableCreation(inputType, "x", outputType, memberName) + ")";
    PiecesInOrder5("\n                ", select, "\n                ", ".Switch()", "");
    Concat(["\n                ", select, "\n                ", ".Switch()", ""])
  }

  /** A dictionary initializer entry: the quoted key, then a lambda from `source` to `valueChain`. */
  function MapEntry(key: string, valueChain: string): (r: string)
    ensures Contains(r, "\"" + key + "\",")
    ensures Contains(r, "source => " + valueChain)
  {
    var keyPart := "\"" + key + "\",";
    var lambda := "source => " + valueChain;
    var before := "\n        {\n            ";
    var between := "\n            ";
    var after := "\n        },";
    ContainsLast(before, keyPart);
    ContainsPrefix(before + keyPart, keyPart, between);
    ContainsPrefix(before + keyPart + between, keyPart, lambda);
    ContainsPrefix(before + keyPart + between + lambda, keyPart, after);
    ContainsLast(before + keyPart + between, lambda);
    ContainsPrefix(before + keyPart + between + lambda, lambda, after);
    before + keyPart + between + lambda + after
  }

  /** The entry of a chain rooted at `source`: the same entry with `Observable.Return(source)` in front of the chain. */
  function MapEntryObservableReturn(key: string, valueChain: string): (r: string)
    ensures Contains(r, "\"" + key + "\",")
    ensures Contains(r, "source => Observable.Return(source)" + valueChain)
  {
    assert "source => " + ("Observable.Return(source)" + valueChain) == "source => Observable.Return(source)" + valueChain;
    MapEntry(key, "Observable.Return(source)" + valueChain)
  }

  /** The static dispatch dictionary named `mapName`, holding `entries` on lines of their own. */
  function Map(inputType: string, outputType: string, mapName: string, entries: string): (r: string)
    ensures Contains(r, "> " + mapName + " = new Dictionary<")
    ensures Contains(r, "\n" + entries + "\n")
  {
    var before := "\n    private static readonly Dictionary<string, Func<" + inputType + ", IObservable<" + outputType + ">>";
    var declared := "> " + mapName + " = new Dictionary<";
    var between := "string, Func<" + inputType + ", IObservable<" + outputType + ">>>()\n    {";
    var body := "\n" + entries + "\n";
    var after := "    };\n";
    ContainsLast(before, declared);
    ContainsPrefix(before + declared, declared, between);
    ContainsPrefix(before + declared + between, declared, body);
    ContainsPrefix(before + declared + between + body, declared, after);
    ContainsLast(before + declared + between, body);
    ContainsPrefix(before + declared + between + body, body, after);
    before + declared + between + body + after
  }

  /** The public static extension class: the using block, then the class declaration around `body`. */
  function Class(body: string): (r: string)
    ensures ContainsInOrder(r, UsingStatements, "public static partial class NotifyPropertyChangedExtensions")
    ensures ContainsInOrder(r, "public static partial class NotifyPropertyChangedExtensions", body)
  {
    var declaration := "public static partial class NotifyPropertyChangedExtensions";
    PiecesInOrder7("\n", UsingStatements, "\n\n", declaration, "\n{\n    ", body, "\n}\n");
    Concat(["\n", UsingStatements, "\n\n", declaration, "\n{\n    ", body, "\n}\n"])
  }

  // ---------------------------------------------------------------------------------------------
  // Partial classes

  function ClassDeclaration(accessModifier: Accessibility, className: string, body: string, friendly: Accessibility -> string): string
  {
    "\n" + friendly(accessModifier) + " partial class " + className + "\n{\n    " + body + "\n}\n"
  }

  /** One iteration of the ancestor loop: declare the ancestor around what was built so far. */
  function WrapInAncestor(friendly: Accessibility -> string): (AncestorClassInfo, string) -> string
  {
    (ancestorClass: AncestorClassInfo, source: string) =>
      "\n" + friendly(ancestorClass.accessModifier) + " partial class " + ancestorClass.name + "\n{\n" + source + "\n}\n"
  }

  function WrapInNamespace(namespaceName: string, source: string): string
  {
    "\nnamespace " + namespaceName + "\n{\n" + source + "\n}\n"
  }

  /** The class inside its ancestors, the first ancestor innermost. */
  function NestedInAncestors(ancestorClasses: seq<AncestorClassInfo>, inner: string, friendly: Accessibility -> string): string
  {
    FoldWrap(ancestorClasses, inner, WrapInAncestor(friendly))
  }

  /** The using block, then the namespace when it is named, then the nested class declarations. */
  function PartialClass(namespaceName: string, className: string, accessModifier: Accessibility,
                        ancestorClasses: seq<AncestorClassInfo>, body: string, friendly: Accessibility -> string): string
  {
    var nested := NestedInAncestors(ancestorClasses, ClassDeclaration(accessModifier, className, body, friendly), friendly);
    UsingStatements + (if IsNullOrEmpty(namespaceName) then nested else WrapInNamespace(namespaceName, nested))
  }

  method GetPartialClass(namespaceName: string, className: string, accessModifier: Accessibility,
                         ancestorClasses: seq<AncestorClassInfo>, body: string, friendly: Accessibility -> string)
    returns (result: string)
    ensures result == PartialClass(namespaceName, className, accessModifier, ancestorClasses, body, friendly)
  {
    var source := "\n" + friendly(accessModifier) + " partial class " + className + "\n{\n    " + body + "\n}\n";
    ghost var inner := source;
    for i := 0 to |ancestorClasses|
      invariant source == NestedInAncestors(ancestorClasses[..i], inner, friendly)
    {
      var ancestorClass := ancestorClasses[i];
      assert ancestorClasses[..i + 1][..i] == ancestorClasses[..i];
      source := "\n" + friendly(ancestorClass.accessModifier) + " partial class " + ancestorClass.name + "\n{\n" + source + "\n}\n";
    }
    assert ancestorClasses[..|ancestorClasses|] == ancestorClasses;
    if namespaceName != "" {
      source := "\nnamespace " + namespaceName + "\n{\n" + source + "\n}\n";
    }
    result := UsingStatements + source;
  }

  /**
   * Ancestors nest in iteration order: the first ancestor declares the class directly and the last one
   * is outermost.
   */
  lemma AncestorNestingOrder(ancestorClasses: seq<AncestorClassInfo>, inner: string, friendly: Accessibility -> string)
    requires |ancestorClasses| > 0
    ensures NestedInAncestors(ancestorClasses, inner, friendly) ==
              NestedInAncestors(ancestorClasses[1..], WrapInAncestor(friendly)(ancestorClasses[0], inner), friendly)
    ensures NestedInAncestors(ancestorClasses, inner, friendly) ==
              WrapInAncestor(friendly)(ancestorClasses[|ancestorClasses| - 1],
                                       NestedInAncestors(ancestorClasses[..|ancestorClasses| - 1], inner, friendly))
  {
    FoldWrapFirstInnermost(ancestorClasses, inner, WrapInAncestor(friendly));
  }

  /** A class with no ancestors and no namespace is the using block followed by its declaration. */
  lemma PartialClassWithoutNesting(className: string, accessModifier: Accessibility, body: string, friendly: Accessibility -> string)
    ensures PartialClass("", className, accessModifier, [], body, friendly) ==
              UsingStatements + ClassDeclaration(accessModifier, className, body, friendly)
  {
  }

  // ---------------------------------------------------------------------------------------------
  // The dictionary accessor and the direct-return method of a partial class

  /** The accessor's signature line: access keywords, the `static` slot, the return type and the name. */
  function MapSignature(accessModifier: Accessibility, staticExpression: string, outputType: string,
                        friendly: Accessibility -> string): string
  {
    friendly(accessModifier) + " " + staticExpression + " IObservable<" + outputType + "> WhenChanged("
  }

  function MapMethodHeader(accessModifier: Accessibility, staticExpression: string, outputType: string,
                           friendly: Accessibility -> string): string
  {
    "   " + MapSignature(accessModifier, staticExpression, outputType, friendly) + NewLine
  }

  /** The `this` parameter of the extension form. */
  function ExtensionReceiver(inputType: string): string
  {
    "this " + inputType + " source,"
  }

  function ExtensionReceiverLine(inputType: string): string
  {
    "        " + ExtensionReceiver(inputType) + NewLine
  }

  /** The expression parameter; note the blank after its comma, which the source writes too. */
  function ExpressionParameter(inputType: string, outputType: string): string
  {
    "Expression<Func<" + inputType + ", " + outputType + ">> propertyExpression, "
  }

  /** The statement that looks the expression's text up in `mapName` and invokes the entry on `invokeName`. */
  function MapLookup(mapName: string, invokeName: string): string
  {
    "return " + mapName + "[propertyExpression.Body.ToString()].Invoke(" + invokeName + ");"
  }

  /** Between the expression parameter and the lookup: the caller-information parameters and the opening brace. */
  const MapParametersClose: string := "\n" + CallerInfoParameters + "\n    {\n        "

  function MapMethodTail(inputType: string, outputType: string, mapName: string, invokeName: string): string
  {
    "        " + ExpressionParameter(inputType, outputType) + MapParametersClose + MapLookup(mapName, invokeName) +
    "\n    }" + NewLine
  }

  /**
   * The accessor of a dispatch dictionary: as an extension it is `static`, takes `this {inputType} source`
   * and invokes the entry on `source`; inside the class its parameter list opens with the expression and it
   * invokes the entry on `this`.
   */
  method GetWhenChangedMapMethod(inputType: string, outputType: string, isExtension: bool, accessModifier: Accessibility,
                                 mapName: string, friendly: Accessibility -> string) returns (s: string)
    ensures isExtension ==>
              s == MapMethodHeader(accessModifier, "static", outputType, friendly) + ExtensionReceiverLine(inputType) +
                   MapMethodTail(inputType, outputType, mapName, "source")
    ensures !isExtension ==>
              s == MapMethodHeader(accessModifier, "", outputType, friendly) + MapMethodTail(inputType, outputType, mapName, "this")
    ensures isExtension ==>
              ContainsInOrder(s, MapSignature(accessModifier, "static", outputType, friendly), ExtensionReceiver(inputType))
    ensures isExtension ==> ContainsInOrder(s, ExtensionReceiver(inputType), ExpressionParameter(inputType, outputType))
    ensures isExtension ==>
              ContainsInOrder(s, ExpressionParameter(inputType, outputType), MapLookup(mapName, "source"))
    ensures !isExtension ==>
              ContainsInOrder(s, MapSignature(accessModifier, "", outputType, friendly) + NewLine + "        " +
                                 ExpressionParameter(inputType, outputType),
                              MapLookup(mapName, "this"))
  {
    var staticExpression := if isExtension then "static" else "";
    var sb := MapMethodHeader(accessModifier, staticExpression, outputType, friendly);
    var invokeName: string;
    if isExtension {
      invokeName := "source";
      sb := sb + ExtensionReceiverLine(inputType);
    } else {
      invokeName := "this";
    }
    sb := sb + MapMethodTail(inputType, outputType, mapName, invokeName);
    s := sb;
    if isExtension {
      ExtensionMapMethodInOrder(inputType, outputType, accessModifier, mapName, friendly);
    } else {
      InstanceMapMethodInOrder(inputType, outputType, accessModifier, mapName, friendly);
    }
  }

  /*
   * The extension accessor's shape, with its parts abstract: indentation `sp`, the signature, the receiver,
   * the expression parameter, the parameters' close, the lookup and the closing brace `br`; one lemma per
   * pair of neighbouring parts.
   */
  lemma ExtensionSignatureBeforeReceiver(h0: string, signature: string, nl: string, sp: string, receiver: string,
                                         expression: string, close: string, lookup: string, br: string)
    ensures ContainsInOrder(h0 + signature + nl + (sp + receiver + nl) + (sp + expression + close + lookup + br + nl),
                            signature, receiver)
  {
    var rest := nl + sp + expression + close + lookup + br + nl;
    assert h0 + signature + nl + (sp + receiver + nl) + (sp + expression + close + lookup + br + nl) ==
           h0 + signature + (nl + sp) + receiver + rest;
    InOrderWithin(h0, signature, nl + sp, receiver, rest);
  }

  lemma ExtensionReceiverBeforeExpression(h0: string, signature: string, nl: string, sp: string, receiver: string,
                                          expression: string, close: string, lookup: string, br: string)
    ensures ContainsInOrder(h0 + signature + nl + (sp + receiver + nl) + (sp + expression + close + lookup + br + nl),
                            receiver, expression)
  {
    var front := h0 + signature + nl + sp;
    var rest := close + lookup + br + nl;
    assert h0 + signature + nl + (sp + receiver + nl) + (sp + expression + close + lookup + br + nl) ==
           front + receiver + (nl + sp) + expression + rest;
    InOrderWithin(front, receiver, nl + sp, expression, rest);
  }

  lemma ExtensionExpressionBeforeLookup(h0: string, signature: string, nl: string, sp: string, receiver: string,
                                        expression: string, close: string, lookup: string, br: string)
    ensures ContainsInOrder(h0 + signature + nl + (sp + receiver + nl) + (sp + expression + close + lookup + br + nl),
                            expression, lookup)
  {
    var front := h0 + signature + nl + (sp + receiver + nl) + sp;
    assert h0 + signature + nl + (sp + receiver + nl) + (sp + expression + close + lookup + br + nl) ==
           front + expression + close + lookup + (br + nl);
    InOrderWithin(front, expression, close, lookup, br + nl);
  }

  /** The in-class accessor's shape, with its parts abstract: the parameter list opens with the expression. */
  lemma InstanceMapShapeInOrder(h0: string, signature: string, nl: string, sp: string, expression: string,
                                close: string, lookup: string, br: string)
    ensures ContainsInOrder(h0 + signature + nl + (sp + expression + close + lookup + br + nl),
                            signature + nl + sp + expression, lookup)
  {
    var s := h0 + signature + nl + (sp + expression + close + lookup + br + nl);
    assert s == h0 + (signature + nl + sp + expression) + close + lookup + (br + nl);
    InOrderWithin(h0, signature + nl + sp + expression, close, lookup, br + nl);
  }

  lemma ExtensionMapMethodInOrder(inputType: string, outputType: string, accessModifier: Accessibility, mapName: string,
                                  friendly: Accessibility -> string)
    ensures var s := MapMethodHeader(accessModifier, "static", outputType, friendly) + ExtensionReceiverLine(inputType) +
                     MapMethodTail(inputType, outputType, mapName, "source");
            ContainsInOrder(s, MapSignature(accessModifier, "static", outputType, friendly), ExtensionReceiver(inputType)) &&
            ContainsInOrder(s, ExtensionReceiver(inputType), ExpressionParameter(inputType, outputType)) &&
            ContainsInOrder(s, ExpressionParameter(inputType, outputType), MapLookup(mapName, "source"))
  {
    var signature := MapSignature(accessModifier, "static", outputType, friendly);
    var receiver := ExtensionReceiver(inputType);
    var expression := ExpressionParameter(inputType, outputType);
    var lookup := MapLookup(mapName, "source");
    ExtensionSignatureBeforeReceiver("   ", signature, NewLine, "        ", receiver, expression, MapParametersClose,
                                     lookup, "\n    }");
    ExtensionReceiverBeforeExpression("   ", signature, NewLine, "        ", receiver, expression, MapParametersClose,
                                      lookup, "\n    }");
    ExtensionExpressionBeforeLookup("   ", signature, NewLine, "        ", receiver, expression, MapParametersClose,
                                    lookup, "\n    }");
  }

  lemma InstanceMapMethodInOrder(inputType: string, outputType: string, accessModifier: Accessibility, mapName: string,
                                 friendly: Accessibility -> string)
    ensures ContainsInOrder(MapMethodHeader(accessModifier, "", outputType, friendly) +
                            MapMethodTail(inputType, outputType, mapName, "this"),
                            MapSignature(accessModifier, "", outputType, friendly) + NewLine + "        " +
                            ExpressionParameter(inputType, outputType),
                            MapLookup(mapName, "this"))
  {
    InstanceMapShapeInOrder("   ", MapSignature(accessModifier, "", outputType, friendly), NewLine, "        ",
                            ExpressionParameter(inputType, outputType), MapParametersClose, MapLookup(mapName, "this"),
                            "\n    }");
  }

  /** The `.Select(...).Switch()` segment of one further link. */
  function LinkSegment(link: Link): string
  {
    MapEntryChain(link.inputType, link.outputType, link.name)
  }

  /** The observable of a chain on `this`: a subscription to the first link, then one segment per further link. */
  function ObservableChain(first: Link, rest: seq<Link>): string
  {
    ObservableCreation(first.inputType, "this", first.outputType, first.name) + ConcatMap(rest, LinkSegment)
  }

  /** The chain of `members` as the direct-return method builds it. */
  function DirectReturnChain(members: seq<Link>): string
    requires |members| > 0
  {
    ObservableChain(members[0], members[1..])
  }

  /** A chain of one link is the subscription to it alone. */
  lemma ObservableChainSingle(first: Link)
    ensures ObservableChain(first, []) == ObservableCreation(first.inputType, "this", first.outputType, first.name)
  {
    ConcatMapNothingAfter(ObservableCreation(first.inputType, "this", first.outputType, first.name), LinkSegment);
  }

  /** Further links only add their segments at the end, in order. */
  lemma ObservableChainExtends(first: Link, rest: seq<Link>, more: seq<Link>)
    ensures ObservableChain(first, rest + more) == ObservableChain(first, rest) + ConcatMap(more, LinkSegment)
  {
    ConcatMapAppend(rest, more, LinkSegment);
    AppendAssociative(ObservableCreation(first.inputType, "this", first.outputType, first.name),
                      ConcatMap(rest, LinkSegment), ConcatMap(more, LinkSegment));
  }

  /** `new StringBuilder(GetObservableCreation(...))`, then one `GetMapEntryChain` per further link. */
  method BuildObservableChain(first: Link, rest: seq<Link>) returns (observableChain: string)
    ensures observableChain == ObservableChain(first, rest)
  {
    observableChain := ObservableCreation(first.inputType, "this", first.outputType, first.name);
    observableChain := AppendEach(observableChain, rest, LinkSegment);
  }

  /** The instance `WhenChanged` that returns the observable chain of its expression. */
  function PartialClassWhenChangedMethodForDirectReturn(inputType: string, outputType: string, accessModifier: Accessibility,
                                                        observableChain: string, friendly: Accessibility -> string): (r: string)
    ensures ContainsInOrder(r, friendly(accessModifier) + " IObservable<" + outputType + "> WhenChanged(",
                            "Expression<Func<" + inputType + ", " + outputType + ">> propertyExpression,")
    ensures ContainsInOrder(r, "Expression<Func<" + inputType + ", " + outputType + ">> propertyExpression,", CallerInfoParameters)
    ensures ContainsInOrder(r, CallerInfoParameters, "return " + observableChain + ";")
  {
    var header := friendly(accessModifier) + " IObservable<" + outputType + "> WhenChanged(";
    var expression := "Expression<Func<" + inputType + ", " + outputType + ">> propertyExpression,";
    var returned := "return " + observableChain + ";";
    PiecesInOrder9("\n    ", header, "\n        ", expression, "\n", CallerInfoParameters, "\n    {\n        ", returned, "\n    }\n");
    Concat(["\n    ", header, "\n        ", expression, "\n", CallerInfoParameters, "\n    {\n        ", returned, "\n    }\n"])
  }

  /**
   * The source indexes `members[0]`, so an empty chain throws; otherwise the method returns the chain
   * of its members.
   */
  method GetPartialClassWhenChangedMethodForDirectReturn(inputType: string, outputType: string, accessModifier: Accessibility,
                                                         members: seq<Link>, friendly: Accessibility -> string)
    returns (r: Outcome<string>)
    ensures members == [] ==> r == Threw(ArgumentOutOfRangeException)
    ensures members != [] ==>
              r == Returned(PartialClassWhenChangedMethodForDirectReturn(inputType, outputType, accessModifier,
                                                                         DirectReturnChain(members), friendly))
  {
    if members == [] {
      return Threw(ArgumentOutOfRangeException);
    }
    var observableChain := BuildObservableChain(members[0], members[1..]);
    r := Returned(PartialClassWhenChangedMethodForDirectReturn(inputType, outputType, accessModifier, observableChain, friendly));
  }
}
