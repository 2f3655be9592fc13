/**
 * `RoslynWhenChangedPartialClassCreator`: the partial declarations of the monitored types, built as a
 * syntax tree. The tree is an abstract datatype whose constructors stand for the `SyntaxFactory` and
 * `RoslynHelpers` calls of the source; the standard usings and the printing of the tree by
 * `NormalizeWhitespace().ToFullString()` are not part of this model.
 */
module RoslynWhenChangedPartialClassCreator {
  import opened Wrappers
  import opened Seqs
  import opened Text
  import opened CodeAnalysis
  import opened RoslynExtensions
  import opened Datums
  import Names = StringBuilderSourceCreatorHelper

  datatype ExpressionSyntax =
    /** `RoslynHelpers.GetObservableChain(receiver, members)`. */
    | ObservableChainExpression(receiver: string, members: seq<Link>)
    /** `RoslynHelpers.MapInvokeExpression(receiver, mapName, argumentName)`. */
    | MapInvokeExpression(receiver: string, mapName: string, argumentName: string)
    /** `RoslynHelpers.InvokeWhenChanged(expressionName, receiver)`. */
    | InvokeWhenChangedExpression(expressionName: string, receiver: string)
    /** `Observable.CombineLatest(a1, ..., an)` over identifier arguments. */
    | CombineLatestExpression(arguments: seq<string>)

  datatype StatementSyntax =
    | LocalDeclarationStatement(typeName: string, variableName: string, initializer: ExpressionSyntax)
    | ReturnStatement(expression: ExpressionSyntax)

  /** `RoslynHelpers.MapEntry(key, observable)`. */
  datatype MapEntrySyntax = MapEntrySyntax(key: string, value: ExpressionSyntax)

  datatype MemberSyntax =
    /** `RoslynHelpers.MapDictionary(...)`: the static dispatch dictionary. */
    | MapDictionary(inputTypeName: string, outputTypeName: string, mapName: string, entries: seq<MapEntrySyntax>)
    /** `RoslynHelpers.WhenChangedWithoutBody(...)` with an expression body. */
    | ExpressionBodiedWhenChanged(inputTypeName: string, outputTypeName: string, isExtension: bool,
                                  accessModifier: Accessibility, body: ExpressionSyntax)
    /** `RoslynHelpers.WhenChangedConversionWithoutBody(...)` with a block body. */
    | BlockBodiedConversionWhenChanged(inputTypeName: string, outputTypeName: string, tempReturnTypes: seq<string>,
                                       isExtension: bool, accessModifier: Accessibility, statements: seq<StatementSyntax>)
    | ClassDeclaration(name: string, modifiers: seq<SyntaxKind>, members: seq<MemberSyntax>)
    | NamespaceDeclaration(name: string, members: seq<MemberSyntax>)

  /** A compilation unit with the standard reactive usings and these members. */
  datatype CompilationUnitSyntax = CompilationUnit(members: seq<MemberSyntax>)

  // ---------------------------------------------------------------------------------------------
  // Method members

  /** A map entry: the key with the chain of its members on `this`. */
  function EntryOf(entry: MapEntryDatum): MapEntrySyntax
  {
    MapEntrySyntax(entry.key, ObservableChainExpression("this", entry.members))
  }

  /** The accessor of a dispatch dictionary: look up `propertyExpression` in the map and invoke it on `this`. */
  function MapAccessor(d: MethodDatum): MemberSyntax
    requires d.SingleExpressionDictionaryImplMethodDatum?
  {
    ExpressionBodiedWhenChanged(d.inputTypeName, d.outputTypeName, false, d.accessModifier,
                                MapInvokeExpression("this", d.mapDatum.mapName, "propertyExpression"))
  }

  /** A dictionary datum: the map, then its accessor. */
  function DictionaryMembers(d: MethodDatum): (r: seq<MemberSyntax>)
    requires d.SingleExpressionDictionaryImplMethodDatum?
  {
    [MapDictionary(d.inputTypeName, d.outputTypeName, d.mapDatum.mapName, Map(d.mapDatum.entries, EntryOf)), MapAccessor(d)]
  }

  method CreateDictionaryMembers(d: MethodDatum) returns (members: seq<MemberSyntax>)
    requires d.SingleExpressionDictionaryImplMethodDatum?
    ensures members == DictionaryMembers(d)
  {
    var mapEntries: seq<MapEntrySyntax> := [];
    var entries := d.mapDatum.entries;
    for i := 0 to |entries|
      invariant mapEntries == Map(entries[..i], EntryOf)
    {
      assert entries[..i + 1][..i] == entries[..i];
      var observable := ObservableChainExpression("this", entries[i].members);
      mapEntries := mapEntries + [MapEntrySyntax(entries[i].key, observable)];
    }
    assert entries[..|entries|] == entries;
    members := [MapDictionary(d.inputTypeName, d.outputTypeName, d.mapDatum.mapName, mapEntries), MapAccessor(d)];
  }

  /** An optimized datum: one method whose body is the chain on `this`. */
  function OptimizedMembers(d: MethodDatum): seq<MemberSyntax>
    requires d.SingleExpressionOptimizedImplMethodDatum?
  {
    [ExpressionBodiedWhenChanged(d.inputTypeName, d.outputTypeName, false, d.accessModifier,
                                 ObservableChainExpression("this", d.members))]
  }

  /** `IObservable<{type}> obs{n} = this.WhenChanged(propertyExpression{n})`. */
  function ObservableLocal(returnType: string, n: nat): StatementSyntax
  {
    LocalDeclarationStatement("IObservable<" + returnType + ">", Names.ObservableName(n),
                              InvokeWhenChangedExpression(Names.PropertyExpressionName(n), "this"))
  }

  /** One local per temporary return type, the `i`-th named `obs{i + 1}`. */
  function ObservableLocals(tempReturnTypes: seq<string>): (r: seq<StatementSyntax>)
    ensures |r| == |tempReturnTypes|
    ensures forall i :: 0 <= i < |tempReturnTypes| ==> r[i] == ObservableLocal(tempReturnTypes[i], i + 1)
  {
    if tempReturnTypes == [] then []
    else
      ObservableLocals(tempReturnTypes[..|tempReturnTypes| - 1]) +
      [ObservableLocal(tempReturnTypes[|tempReturnTypes| - 1], |tempReturnTypes|)]
  }

  /** The names `obs1..obs{n}`. */
  function ObservableNames(n: nat): (r: seq<string>)
    ensures |r| == n
    ensures forall i :: 0 <= i < n ==> r[i] == Names.ObservableName(i + 1)
  {
    if n == 0 then [] else ObservableNames(n - 1) + [Names.ObservableName(n)]
  }

  /** The body of a multi-expression method: the locals, then `return Observable.CombineLatest(obs1, ..., conversionFunc)`. */
  function MultiStatements(tempReturnTypes: seq<string>): seq<StatementSyntax>
  {
    ObservableLocals(tempReturnTypes) +
    [ReturnStatement(CombineLatestExpression(ObservableNames(|tempReturnTypes|) + ["conversionFunc"]))]
  }

  function MultiMembers(d: MethodDatum): seq<MemberSyntax>
    requires d.MultiExpressionMethodDatum?
  {
    [BlockBodiedConversionWhenChanged(d.inputTypeFullName, d.outputTypeName, d.tempReturnTypes, false, d.accessModifier,
                                      MultiStatements(d.tempReturnTypes))]
  }

  method CreateMultiMembers(d: MethodDatum) returns (members: seq<MemberSyntax>)
    requires d.MultiExpressionMethodDatum?
    ensures members == MultiMembers(d)
  {
    var types := d.tempReturnTypes;
    var statements: seq<StatementSyntax> := [];
    var combineArguments: seq<string> := [];
    for i := 0 to |types|
      invariant statements == ObservableLocals(types[..i])
      invariant combineArguments == ObservableNames(i)
    {
      assert types[..i + 1][..i] == types[..i];
      var obsName := "obs" + NatToString(i + 1);
      var whenChangedVariable := LocalDeclarationStatement(
        "IObservable<" + types[i] + ">", obsName, InvokeWhenChangedExpression("propertyExpression" + NatToString(i + 1), "this"));
      statements := statements + [whenChangedVariable];
      combineArguments := combineArguments + [obsName];
    }
    assert types[..|types|] == types;
    combineArguments := combineArguments + ["conversionFunc"];
    statements := statements + [ReturnStatement(CombineLatestExpression(combineArguments))];
    members := [BlockBodiedConversionWhenChanged(d.inputTypeFullName, d.outputTypeName, types, false, d.accessModifier, statements)];
  }

  /**
   * `Create(MethodDatum)`: the switch over the three datum kinds. Its default arm throws for any other
   * kind, which `MethodDatum` does not have.
   */
  function MethodMembers(d: MethodDatum): seq<MemberSyntax>
  {
    match d
    case SingleExpressionDictionaryImplMethodDatum(_, _, _, _) => DictionaryMembers(d)
    case SingleExpressionOptimizedImplMethodDatum(_, _, _, _) => OptimizedMembers(d)
    case MultiExpressionMethodDatum(_, _, _, _, _) => MultiMembers(d)
  }

  method CreateMethodMembers(d: MethodDatum) returns (members: seq<MemberSyntax>)
    ensures members == MethodMembers(d)
  {
    match d
    case SingleExpressionDictionaryImplMethodDatum(_, _, _, _) =>
      members := CreateDictionaryMembers(d);
    case SingleExpressionOptimizedImplMethodDatum(_, _, _, _) =>
      members := OptimizedMembers(d);
    case MultiExpressionMethodDatum(_, _, _, _, _) =>
      members := CreateMultiMembers(d);
  }

  /**
   * A dictionary datum yields the map, with one entry per map entry in order, and then its accessor;
   * an optimized datum yields its one method.
   */
  lemma SingleExpressionMembers(d: MethodDatum)
    requires d.SingleExpressionDictionaryImplMethodDatum? || d.SingleExpressionOptimizedImplMethodDatum?
    ensures d.SingleExpressionDictionaryImplMethodDatum? ==>
              |MethodMembers(d)| == 2 &&
              MethodMembers(d)[0].MapDictionary? && MethodMembers(d)[0].mapName == d.mapDatum.mapName &&
              |MethodMembers(d)[0].entries| == |d.mapDatum.entries| &&
              (forall i :: 0 <= i < |d.mapDatum.entries| ==>
                 MethodMembers(d)[0].entries[i].key == d.mapDatum.entries[i].key &&
                 MethodMembers(d)[0].entries[i].value == ObservableChainExpression("this", d.mapDatum.entries[i].members)) &&
              MethodMembers(d)[1].ExpressionBodiedWhenChanged? &&
              MethodMembers(d)[1].body == MapInvokeExpression("this", d.mapDatum.mapName, "propertyExpression")
    ensures d.SingleExpressionOptimizedImplMethodDatum? ==>
              |MethodMembers(d)| == 1 && MethodMembers(d)[0].ExpressionBodiedWhenChanged? &&
              MethodMembers(d)[0].body == ObservableChainExpression("this", d.members)
  {
  }

  /**
   * A multi-expression datum yields one method whose body declares `obs1..obsN`, one per temporary
   * return type, and returns `Observable.CombineLatest` over them and `conversionFunc`.
   */
  lemma MultiExpressionMembers(d: MethodDatum)
    requires d.MultiExpressionMethodDatum?
    ensures |MethodMembers(d)| == 1 && MethodMembers(d)[0].BlockBodiedConversionWhenChanged?
    ensures var statements := MethodMembers(d)[0].statements;
            var n := |d.tempReturnTypes|;
            |statements| == n + 1 &&
            (forall i :: 0 <= i < n ==>
               statements[i].LocalDeclarationStatement? &&
               statements[i].typeName == "IObservable<" + d.tempReturnTypes[i] + ">" &&
               statements[i].variableName == Names.ObservableName(i + 1) &&
               statements[i].initializer == InvokeWhenChangedExpression(Names.PropertyExpressionName(i + 1), "this")) &&
            statements[n].ReturnStatement? && statements[n].expression.CombineLatestExpression? &&
            |statements[n].expression.arguments| == n + 1 &&
            (forall i :: 0 <= i < n ==> statements[n].expression.arguments[i] == Names.ObservableName(i + 1)) &&
            statements[n].expression.arguments[n] == "conversionFunc"
  {
  }

  // ---------------------------------------------------------------------------------------------
  // Classes

  /** The modifiers of a declaration: the accessibility's keywords, then `partial`. */
  function Modifiers(accessibility: Accessibility): (r: seq<SyntaxKind>)
    ensures |r| > 0 && r[|r| - 1] == PartialKeyword
    ensures PartialKeyword !in r[..|r| - 1]
  {
    GetAccessibilityTokens(accessibility) + [PartialKeyword]
  }

  /** One iteration of the ancestor loop: declare the ancestor around what was built so far. */
  function WrapInAncestor(ancestor: AncestorClassInfo, currentClass: MemberSyntax): MemberSyntax
  {
    ClassDeclaration(ancestor.name, Modifiers(ancestor.accessModifier), [currentClass])
  }

  function InnermostClass(d: PartialClassDatum): MemberSyntax
  {
    ClassDeclaration(d.name, Modifiers(d.accessModifier), FlatMap(d.methodData, MethodMembers))
  }

  /** `Create(PartialClassDatum)`: the class with its members, inside its ancestors, the first ancestor innermost. */
  function ClassOf(d: PartialClassDatum): MemberSyntax
  {
    FoldWrap(d.ancestorClasses, InnermostClass(d), WrapInAncestor)
  }

  method CreateClassMembers(methodData: seq<MethodDatum>) returns (members: seq<MemberSyntax>)
    ensures members == FlatMap(methodData, MethodMembers)
  {
    members := [];
    for i := 0 to |methodData|
      invariant members == FlatMap(methodData[..i], MethodMembers)
    {
      assert methodData[..i + 1][..i] == methodData[..i];
      var methodMembers := CreateMethodMembers(methodData[i]);
      members := members + methodMembers;
    }
    assert methodData[..|methodData|] == methodData;
  }

  method CreateClass(d: PartialClassDatum) returns (currentClass: MemberSyntax)
    ensures currentClass == ClassOf(d)
  {
    var visibility := Modifiers(d.accessModifier);
    var members := CreateClassMembers(d.methodData);
    currentClass := ClassDeclaration(d.name, visibility, members);
    currentClass := NestInAncestors(currentClass, d.ancestorClasses);
  }

  /** The ancestor loop of `Create(PartialClassDatum)`: each ancestor declared around the class so far. */
  method NestInAncestors(inner: MemberSyntax, ancestors: seq<AncestorClassInfo>) returns (currentClass: MemberSyntax)
    ensures currentClass == FoldWrap(ancestors, inner, WrapInAncestor)
  {
    currentClass := inner;
    for i := 0 to |ancestors|
      invariant currentClass == FoldWrap(ancestors[..i], inner, WrapInAncestor)
    {
      assert ancestors[..i + 1][..i] == ancestors[..i];
      var visibility := Modifiers(ancestors[i].accessModifier);
      currentClass := ClassDeclaration(ancestors[i].name, visibility, [currentClass]);
    }
    assert ancestors[..|ancestors|] == ancestors;
  }

  /** The heading of one declaration: its name and modifiers. */
  datatype Heading = Heading(name: string, modifiers: seq<SyntaxKind>)

  /**
   * The headings of a nest of declarations from the outside in: a class whose only member is a class
   * declares that class inside it.
   */
  function Nest(c: MemberSyntax): seq<Heading>
    requires c.ClassDeclaration?
  {
    if |c.members| == 1 && c.members[0].ClassDeclaration? then [Heading(c.name, c.modifiers)] + Nest(c.members[0])
    else [Heading(c.name, c.modifiers)]
  }

  /** Method members are never class declarations. */
  lemma MethodMembersAreNotClasses(methodData: seq<MethodDatum>)
    ensures forall m <- FlatMap(methodData, MethodMembers) :: !m.ClassDeclaration?
  {
    forall m <- FlatMap(methodData, MethodMembers)
      ensures !m.ClassDeclaration?
    {
      InFlatMap(methodData, MethodMembers, m);
    }
  }

  function HeadingOf(ancestor: AncestorClassInfo): Heading
  {
    Heading(ancestor.name, Modifiers(ancestor.accessModifier))
  }

  /**
   * Read from the outside in, the nest declares the last ancestor first and the first ancestor last,
   * then the class itself; every declaration carries its own accessibility keywords and `partial`.
   */
  lemma {:induction false} ClassNesting(d: PartialClassDatum)
    ensures ClassOf(d).ClassDeclaration?
    ensures Nest(ClassOf(d)) == Reversed(Map(d.ancestorClasses, HeadingOf)) + [Heading(d.name, Modifiers(d.accessModifier))]
  {
    MethodMembersAreNotClasses(d.methodData);
    NestOfInnermost(d);
    NestOfFold(d.ancestorClasses, InnermostClass(d));
  }

  lemma {:induction false} NestOfFold(ancestors: seq<AncestorClassInfo>, inner: MemberSyntax)
    requires inner.ClassDeclaration?
    ensures FoldWrap(ancestors, inner, WrapInAncestor).ClassDeclaration?
    ensures Nest(FoldWrap(ancestors, inner, WrapInAncestor)) == Reversed(Map(ancestors, HeadingOf)) + Nest(inner)
    decreases |ancestors|
  {
    if ancestors != [] {
      var front := ancestors[..|ancestors| - 1];
      var last := ancestors[|ancestors| - 1];
      NestOfFold(front, inner);
      NestOfWrap(last, FoldWrap(front, inner, WrapInAncestor));
      ReversedSnoc(Map(front, HeadingOf), HeadingOf(last));
    }
  }

  lemma NestOfInnermost(d: PartialClassDatum)
    requires forall m <- FlatMap(d.methodData, MethodMembers) :: !m.ClassDeclaration?
    ensures Nest(InnermostClass(d)) == [Heading(d.name, Modifiers(d.accessModifier))]
  {
    var inner := InnermostClass(d);
    if |inner.members| == 1 {
      assert inner.members[0] in FlatMap(d.methodData, MethodMembers);
    }
  }

  lemma NestOfWrap(ancestor: AncestorClassInfo, c: MemberSyntax)
    requires c.ClassDeclaration?
    ensures Nest(WrapInAncestor(ancestor, c)) == [HeadingOf(ancestor)] + Nest(c)
  {
  }

  // ---------------------------------------------------------------------------------------------
  // The compilation unit

  function NamespaceOf(d: PartialClassDatum): string { d.namespaceName }

  /** `string.IsNullOrWhiteSpace` on a namespace name, which is never `null`. */
  predicate IsBlank(namespaceName: string) { IsNullOrWhiteSpace(Some(namespaceName)) }

  /** A group with a non-blank name becomes one namespace holding its classes; otherwise its classes stay at the top. */
  function GroupMembers(group: Grouping<string, PartialClassDatum>): seq<MemberSyntax>
  {
    if !IsBlank(group.key) then [NamespaceDeclaration(group.key, Map(group.elements, ClassOf))] else Map(group.elements, ClassOf)
  }

  /** The top-level members: the groups by namespace name, in order of first occurrence. */
  function CompilationMembers(data: seq<PartialClassDatum>): seq<MemberSyntax>
  {
    FlatMap(GroupBy(data, NamespaceOf), GroupMembers)
  }

  /** `Create(IEnumerable)`: a compilation unit of the members, or `null` when there are none. */
  function CompilationUnitOf(data: seq<PartialClassDatum>): Option<CompilationUnitSyntax>
  {
    var members := CompilationMembers(data);
    if |members| > 0 then Some(CompilationUnit(members)) else None
  }

  method Create(sourceData: seq<PartialClassDatum>) returns (result: Option<CompilationUnitSyntax>)
    ensures result == CompilationUnitOf(sourceData)
  {
    var groups := GroupBy(sourceData, NamespaceOf);
    var members := CreateGroupsMembers(groups);
    if |members| > 0 {
      result := Some(CompilationUnit(members));
    } else {
      result := None;
    }
  }

  /** The loop over the groups of `Create(IEnumerable)`. */
  method CreateGroupsMembers(groups: seq<Grouping<string, PartialClassDatum>>) returns (members: seq<MemberSyntax>)
    ensures members == FlatMap(groups, GroupMembers)
  {
    members := [];
    for g := 0 to |groups|
      invariant members == FlatMap(groups[..g], GroupMembers)
    {
      assert groups[..g + 1][..g] == groups[..g];
      var group := groups[g];
      var classes := CreateClasses(group.elements);
      if !IsBlank(group.key) {
        members := members + [NamespaceDeclaration(group.key, classes)];
      } else {
        members := members + classes;
      }
    }
    assert groups[..|groups|] == groups;
  }

  method CreateClasses(data: seq<PartialClassDatum>) returns (classes: seq<MemberSyntax>)
    ensures classes == Map(data, ClassOf)
  {
    classes := [];
    for i := 0 to |data|
      invariant classes == Map(data[..i], ClassOf)
    {
      assert data[..i + 1][..i] == data[..i];
      var c := CreateClass(data[i]);
      classes := classes + [c];
    }
    assert data[..|data|] == data;
  }

  /** There is no compilation unit exactly when there is no partial class datum. */
  lemma NoUnitIffNoData(data: seq<PartialClassDatum>)
    ensures CompilationUnitOf(data).None? <==> data == []
  {
    var groups := GroupBy(data, NamespaceOf);
    FlatMapEmpty(groups, GroupMembers);
    GroupByEmpty(data, NamespaceOf);
    if groups != [] {
      GroupMembersNonEmpty(groups[0]);
    }
  }

  /** A group is never empty, and neither is what it contributes. */
  lemma GroupMembersNonEmpty(group: Grouping<string, PartialClassDatum>)
    requires |group.elements| > 0
    ensures GroupMembers(group) != []
  {
    assert |Map(group.elements, ClassOf)| > 0;
  }

  /** The classes of a non-blank namespace sit together in one namespace declaration of that name. */
  lemma NamespacedClassPlaced(data: seq<PartialClassDatum>, d: PartialClassDatum)
    requires d in data && !IsBlank(d.namespaceName)
    ensures exists m <- CompilationMembers(data) ::
              m == NamespaceDeclaration(d.namespaceName, Map(Filter(data, HasKey(NamespaceOf, d.namespaceName)), ClassOf)) &&
              ClassOf(d) in m.members
  {
    var groups := GroupBy(data, NamespaceOf);
    var g := GroupFor(data, NamespaceOf, d);
    var m := NamespaceDeclaration(d.namespaceName, Map(groups[g].elements, ClassOf));
    NamespaceGroupMembers(groups[g]);
    InFlatMap(groups, GroupMembers, m);
    InMap(groups[g].elements, ClassOf, d);
  }

  lemma NamespaceGroupMembers(group: Grouping<string, PartialClassDatum>)
    requires !IsBlank(group.key)
    ensures GroupMembers(group) == [NamespaceDeclaration(group.key, Map(group.elements, ClassOf))]
  {
  }

  /** The classes with a blank namespace sit at the top level. */
  lemma TopLevelClassPlaced(data: seq<PartialClassDatum>, d: PartialClassDatum)
    requires d in data && IsBlank(d.namespaceName)
    ensures ClassOf(d) in CompilationMembers(data)
  {
    var groups := GroupBy(data, NamespaceOf);
    var g := GroupFor(data, NamespaceOf, d);
    InMap(groups[g].elements, ClassOf, d);
    InFlatMap(groups, GroupMembers, ClassOf(d));
  }

  /** No two namespace declarations share a name. */
  lemma NamespacesDistinct(data: seq<PartialClassDatum>)
    ensures forall i, j ::
              (0 <= i < j < |CompilationMembers(data)| &&
               CompilationMembers(data)[i].NamespaceDeclaration? && CompilationMembers(data)[j].NamespaceDeclaration?) ==>
              CompilationMembers(data)[i].name != CompilationMembers(data)[j].name
  {
    var groups := GroupBy(data, NamespaceOf);
    NamespaceNamesAreKeys(groups);
  }

  /**
   * In the members of groups with distinct keys, a namespace declaration carries the key of the group
   * it comes from, so no two of them share a name.
   */
  lemma {:induction false} NamespaceNamesAreKeys(groups: seq<Grouping<string, PartialClassDatum>>)
    requires forall g, h :: 0 <= g < h < |groups| ==> groups[g].key != groups[h].key
    ensures forall m <- FlatMap(groups, GroupMembers) :: m.NamespaceDeclaration? ==> exists g :: 0 <= g < |groups| && groups[g].key == m.name
    ensures forall i, j ::
              (0 <= i < j < |FlatMap(groups, GroupMembers)| &&
               FlatMap(groups, GroupMembers)[i].NamespaceDeclaration? && FlatMap(groups, GroupMembers)[j].NamespaceDeclaration?) ==>
              FlatMap(groups, GroupMembers)[i].name != FlatMap(groups, GroupMembers)[j].name
  {
    if groups != [] {
      var front := groups[..|groups| - 1];
      var last := groups[|groups| - 1];
      NamespaceNamesAreKeys(front);
      var ms := FlatMap(groups, GroupMembers);
      var before := FlatMap(front, GroupMembers);
      forall m <- ms | m.NamespaceDeclaration?
        ensures exists g :: 0 <= g < |groups| && groups[g].key == m.name
      {
        if m in before {
          var g :| 0 <= g < |front| && front[g].key == m.name;
          assert groups[g].key == m.name;
        } else {
          assert m in GroupMembers(last);
          ClassesAreNotNamespaces(last.elements);
          assert groups[|groups| - 1].key == m.name;
        }
      }
      forall i, j | 0 <= i < j < |ms| && ms[i].NamespaceDeclaration? && ms[j].NamespaceDeclaration?
        ensures ms[i].name != ms[j].name
      {
        if j < |before| {
          assert ms[i] == before[i] && ms[j] == before[j];
        } else if i < |before| {
          assert ms[i] == before[i] && ms[i] in before;
          assert ms[j] in GroupMembers(last);
          ClassesAreNotNamespaces(last.elements);
          var g :| 0 <= g < |front| && front[g].key == ms[i].name;
          assert ms[j].name == last.key;
        } else {
          ClassesAreNotNamespaces(last.elements);
        }
      }
    }
  }

  lemma ClassesAreNotNamespaces(data: seq<PartialClassDatum>)
    ensures forall c <- Map(data, ClassOf) :: !c.NamespaceDeclaration?
  {
    forall c <- Map(data, ClassOf)
      ensures !c.NamespaceDeclaration?
    {
      var i :| 0 <= i < |data| && Map(data, ClassOf)[i] == c;
      ClassNesting(data[i]);
    }
  }
}
