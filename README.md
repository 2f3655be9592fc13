# ReactiveMarbles.PropertyChanged source generator — a Dafny model

ReactiveMarbles.PropertyChanged.SourceGenerator is a C# source generator. It finds `WhenChanged(x => x.a.b.c)`
call sites and generates, for each monitored type, the methods that turn a property chain into an observable.
There are two sides:

- a chain that touches a private or protected member is served by a **partial declaration of the monitored
  type** itself;
- any other chain is served by a **`static partial` extension class**.

A `Bind` generator does the same for `Bind` call sites, and a test-source builder writes the C# classes that
exercise the generator.

This project models the core of that generator and proves properties of the model:

- **`WhenChangedGenerator`** (`when_changed_generator.dfy`) — the analysis:
  - extracting the member-access chain of an inline lambda, rejecting a chain whose root is not the lambda
    parameter;
  - classifying a chain as restricted (private/protected);
  - collecting the expression arguments and the multi-expression (combinator) data of all call sites;
  - the validity gate;
  - partitioning the arguments into the partial-class side and the extension side;
  - grouping each side by input type and output type;
  - choosing the single-expression datum: *optimized* for a group of one, *dictionary* for a larger group;
  - joining in the combinators;
  - emitting one source per class datum, under numbered hint names, through `AddSource`, which throws on a
    hint name seen before (compared ignoring case).
- **`StringBuilderSourceCreatorHelper`** — the text templates:
  - the parameter list and body of a multi-expression method (`propertyExpression1..N`, `obs1..obsN`,
    `CombineLatest`);
  - the dispatch dictionary and its entries;
  - the dictionary accessor, as an extension or inside the class;
  - the direct-return method chain;
  - the partial class nested in its ancestors and its namespace.
- **`RoslynWhenChangedPartialClassCreator`** — the syntax-tree renderer:
  - the tree Roslyn's `SyntaxFactory` builds, as an abstract datatype;
  - the members of each method-datum kind;
  - the nesting of a class in its ancestors;
  - the grouping of classes by namespace into one compilation unit, or none.
- **`BindGenerator`** — the four-way partition of `Bind` invocations and the conditional emission of the
  extensions file and the partial file.
- **`WhenChangedHostBuilder`** — the test-source builder, modelled as a class:
  - its property access, property type and invocation fields;
  - its `With*` setters;
  - the depth-N invocation expression;
  - the `WhenChanged` invocation text;
  - the type-name fix-up of `CreateClass`.
- **`TypeSymbolComparer`** — the null-last comparer of type symbols.
- **`RoslynExtensions`** — the accessibility-to-keyword table.
- **`CodeAnalysis`** — Roslyn's `Accessibility` enum, in declaration order, which the `<= Accessibility.Protected`
  tests depend on.

The remaining modules are shared data and helpers:

- **`Datums`** — the data the analysis hands to the renderers.
- **`Seqs`** — LINQ `Where`, `Select`, `SelectMany`, `GroupBy` in first-occurrence order, `Reverse`, and the
  wrapping `foreach` fold.
- **`Text`** — `int.ToString`, `string.Join`, white-space tests, `Replace`, containment of text.
- **`Wrappers`** — `Option`, `Result`, and `Outcome`: a value or a thrown exception.

How the model treats Roslyn and the generator's mutable code:

- **Roslyn's semantic model** is the parameter `SemanticModel`, a record of total functions:
  - the type of an expression;
  - the symbol of a member access and its declared accessibility;
  - the method symbol of an invocation;
  - the display string and accessibility of a type;
  - whether a type is a named type, and whether a member has a declaration in source;
  - the invariant-culture string comparison.
- **Mutable code and loops**:
  - code that grows a `HashSet`, a `List` or a `StringBuilder` in a loop, or that reassigns an accumulator per
    ancestor, is a `method` whose loop carries invariants;
  - each such method is proved equal to a specification function, and the properties are proved about those
    functions;
  - the emitted sources and the reported diagnostics are returned sequences.

## Model

| member | source | states |
|---|---|---|
| CodeAnalysis.Rank | src/ReactiveMarbles.PropertyChanged.SourceGenerator/WhenChangedGenerator.cs:117-119 | `Accessibility` keeps Roslyn's declaration order: `NotApplicable` is the only value of rank 0 and every rank is at most 6, the order the `<=` tests compare by |
| CodeAnalysis.RankInjective | src/ReactiveMarbles.PropertyChanged.SourceGenerator/WhenChangedGenerator.cs:117-119 | distinct accessibilities have distinct ranks, so the `<=` order is antisymmetric |
| CodeAnalysis.AtMostProtectedCases | src/ReactiveMarbles.PropertyChanged.SourceGenerator/WhenChangedGenerator.cs:117-119 | `<= Accessibility.Protected` holds exactly for NotApplicable, Private, ProtectedAndInternal and Protected |
| CodeAnalysis.MinAccessibility | src/ReactiveMarbles.PropertyChanged.SourceGenerator/WhenChangedGenerator.cs:138 | LINQ `Min` over accessibilities returns one of the elements, and it is at most every element |
| CodeAnalysis.MinAtMostProtected | src/ReactiveMarbles.PropertyChanged.SourceGenerator/WhenChangedGenerator.cs:138-140 | the least accessibility is at most Protected iff some element is |
| RoslynExtensions.GetAccessibilityTokens | src/ReactiveMarbles.PropertyChanged.SourceGenerator/Roslyn/RoslynExtensions.cs:14-24 | at most two keywords, none repeated, never `partial` or `static`; the list is empty iff the accessibility is NotApplicable |
| RoslynExtensions.TokensDetermineAccessibility | src/ReactiveMarbles.PropertyChanged.SourceGenerator/Roslyn/RoslynExtensions.cs:14-24 | no two accessibilities are spelled with the same keywords |
| RoslynExtensions.TokenCount | src/ReactiveMarbles.PropertyChanged.SourceGenerator/Roslyn/RoslynExtensions.cs:16-22 | the two combined accessibilities are spelled with two keywords, and Public, Internal, Private and Protected with one |
| TypeSymbolComparer.Compare | src/ReactiveMarbles.PropertyChanged.SourceGenerator/TypeSymbolComparer.cs:15-46 | null vs null is 0, null sorts after any symbol; the same symbol is 0; two named types compare by display string, any other pair by `Name` |
| TypeSymbolComparer.CompareAntisymmetric | src/ReactiveMarbles.PropertyChanged.SourceGenerator/TypeSymbolComparer.cs:15-46 | if the string comparison is antisymmetric, then so is the comparer, null cases included |
| TypeSymbolComparer.CompareNotTransitive | src/ReactiveMarbles.PropertyChanged.SourceGenerator/TypeSymbolComparer.cs:37-45 | three concrete symbols, two named and one not, form a cycle under any string order with "a" < "b" < "c" |
| TypeSymbolComparer.CompareByKey | src/ReactiveMarbles.PropertyChanged.SourceGenerator/TypeSymbolComparer.cs:17-30 | corrected comparer: the same null handling as the original |
| TypeSymbolComparer.CompareByKeyIsTotalPreorder | src/ReactiveMarbles.PropertyChanged.SourceGenerator/TypeSymbolComparer.cs:37-45 | over a total preorder on strings, the corrected comparer, which orders every symbol by a single key, is total and transitive |
| Datums.NewMultiExpressionMethodDatum | src/ReactiveMarbles.PropertyChanged.SourceGenerator/WhenChangedGenerator.cs:141-142 | the type arguments of a combinator call are its input type, then its temporary return types, then its output type, in order |
| Seqs.Reversed | src/ReactiveMarbles.PropertyChanged.SourceGenerator/WhenChangedGenerator.cs:221 | `List.Reverse`: the same length, with element i taken from position n-1-i |
| Seqs.ReversedSnoc | src/ReactiveMarbles.PropertyChanged.SourceGenerator/WhenChangedGenerator.cs:192-202 | reversing a list grown at the end puts the newest element first (the outside-in walk reversed is root to leaf) |
| Seqs.Filter | src/ReactiveMarbles.PropertyChanged.SourceGenerator/WhenChangedGenerator.cs:31 | `Where`: keeps exactly the elements satisfying the predicate, and no others; order and multiplicity are stated by `FilterAtKeptPositions` and `FilterMultiplicity` |
| Seqs.FilterAppend | src/ReactiveMarbles.PropertyChanged.SourceGenerator/Generators/BindGenerator.cs:25-41 | filtering distributes over concatenation, so every list keeps the input enumeration order |
| Seqs.KeptPositions | src/ReactiveMarbles.PropertyChanged.SourceGenerator/WhenChangedGenerator.cs:31 | the positions whose elements satisfy the predicate: each in range and satisfying it, strictly increasing, and every satisfying position listed |
| Seqs.FilterAtKeptPositions | src/ReactiveMarbles.PropertyChanged.SourceGenerator/WhenChangedGenerator.cs:31 | `Where` yields exactly the elements at the kept positions, one per position, in increasing position order |
| Seqs.FilterMultiplicity | src/ReactiveMarbles.PropertyChanged.SourceGenerator/WhenChangedGenerator.cs:31 | every element occurs in the result as often as in the input if it satisfies the predicate, and not at all otherwise |
| Seqs.Map | src/ReactiveMarbles.PropertyChanged.SourceGenerator/SourceCreator/RoslynWhenChangedPartialClassCreator.cs:28 | `Select`: one result per element, in order |
| Seqs.Keys | src/ReactiveMarbles.PropertyChanged.SourceGenerator/WhenChangedGenerator.cs:32 | the distinct keys, each taken from some element, covering every element's key; their order is stated by `KeysInFirstOccurrenceOrder` |
| Seqs.FirstIndex | src/ReactiveMarbles.PropertyChanged.SourceGenerator/WhenChangedGenerator.cs:32 | the position of the first element with a key, or the length when none has it: in range exactly when found, never an earlier match |
| Seqs.FirstIndexOfKey | src/ReactiveMarbles.PropertyChanged.SourceGenerator/WhenChangedGenerator.cs:32 | a key has a first occurrence inside the input iff it is one of the keys |
| Seqs.KeysInFirstOccurrenceOrder | src/ReactiveMarbles.PropertyChanged.SourceGenerator/WhenChangedGenerator.cs:32 | of two keys, the earlier one has the earlier first occurrence in the input |
| Seqs.GroupBy | src/ReactiveMarbles.PropertyChanged.SourceGenerator/WhenChangedGenerator.cs:32-34 | `GroupBy`: every group is non-empty, holds exactly the elements with its key in enumeration order, the keys are distinct, and every element's key has a group; the group order is stated by `GroupsInFirstOccurrenceOrder` |
| Seqs.GroupsInFirstOccurrenceOrder | src/ReactiveMarbles.PropertyChanged.SourceGenerator/WhenChangedGenerator.cs:32-34 | of two groups, the earlier one has the key whose first element occurs earlier in the input |
| Seqs.GroupByEmpty | src/ReactiveMarbles.PropertyChanged.SourceGenerator/SourceCreator/RoslynWhenChangedPartialClassCreator.cs:24-26 | there are no groups iff there are no elements |
| Seqs.InExactlyOneGroup | src/ReactiveMarbles.PropertyChanged.SourceGenerator/WhenChangedGenerator.cs:32-34 | every element lies in exactly one group |
| Seqs.GroupFor | src/ReactiveMarbles.PropertyChanged.SourceGenerator/SourceCreator/RoslynWhenChangedPartialClassCreator.cs:24-34 | the group of an element is the one with its key, and it holds every element with that key |
| Seqs.GroupMembership | src/ReactiveMarbles.PropertyChanged.SourceGenerator/WhenChangedGenerator.cs:32-34 | an element lies in a group iff it is an input element that carries the group's key |
| Seqs.InFlatMap | src/ReactiveMarbles.PropertyChanged.SourceGenerator/SourceCreator/RoslynWhenChangedPartialClassCreator.cs:24-39 | `SelectMany`: an item is in the flattened result iff some element produced it |
| Seqs.FlatMapEmpty | src/ReactiveMarbles.PropertyChanged.SourceGenerator/SourceCreator/RoslynWhenChangedPartialClassCreator.cs:41-50 | the flattened result is empty iff every element produced nothing |
| Seqs.FoldWrapFirstInnermost | src/ReactiveMarbles.PropertyChanged.SourceGenerator/SourceCreator/RoslynWhenChangedPartialClassCreator.cs:61-67 | the accumulator loop over ancestors wraps the first ancestor innermost and the last outermost |
| Text.NatToString | src/ReactiveMarbles.PropertyChanged.SourceGenerator/SourceCreator/StringBuilderSourceCreatorHelper.cs:31 | `int.ToString` of a non-negative number: non-empty, all digits, a single character iff below 10 |
| Text.NatToStringInjective | src/ReactiveMarbles.PropertyChanged.SourceGenerator/SourceCreator/StringBuilderSourceCreatorHelper.cs:31 | distinct numbers print differently |
| Text.NumberedNamesDistinct | src/ReactiveMarbles.PropertyChanged.SourceGenerator/SourceCreator/StringBuilderSourceCreatorHelper.cs:53 | a prefix followed by distinct numbers gives distinct names |
| Text.NumberedNamesInjective | src/ReactiveMarbles.PropertyChanged.SourceGenerator/WhenChangedGenerator.cs:78 | a name not ending in a digit, followed by a number, determines both the name and the number |
| Text.NumberedNamesCanCollide | src/ReactiveMarbles.PropertyChanged.SourceGenerator/WhenChangedGenerator.cs:78 | without that condition, "A1" then 0 and "A" then 10 give the same text |
| Text.ReplaceChar | src/ReactiveMarbles.PropertyChanged.SourceGenerator.Builders/WhenChangedHostBuilder.cs:141 | `Replace(char, char)`: same length; each occurrence of the old character becomes the new one, and every other character is unchanged |
| Text.SeparatedThenLastIsJoin | src/ReactiveMarbles.PropertyChanged.SourceGenerator/SourceCreator/StringBuilderSourceCreatorHelper.cs:34-40 | appending every part followed by a separator, and then a last part, equals `string.Join` of all the parts |
| Text.AppendEach | src/ReactiveMarbles.PropertyChanged.SourceGenerator/SourceCreator/StringBuilderSourceCreatorHelper.cs:290-295 | a builder loop appending a text for each element ends with the start text followed by those texts in order |
| Text.AppendSeparated | src/ReactiveMarbles.PropertyChanged.SourceGenerator/SourceCreator/StringBuilderSourceCreatorHelper.cs:34-38 | a builder loop appending each part plus a separator ends with the start text followed by the separated parts |
| StringBuilderSourceCreatorHelper.GeneratedNamesDistinct | src/ReactiveMarbles.PropertyChanged.SourceGenerator/SourceCreator/StringBuilderSourceCreatorHelper.cs:29-32 | `propertyExpression1..N` are pairwise distinct, and so are `obs1..obsN` |
| StringBuilderSourceCreatorHelper.GetMultiExpressionMethodParameters | src/ReactiveMarbles.PropertyChanged.SourceGenerator/SourceCreator/StringBuilderSourceCreatorHelper.cs:24-46 | equals the specification: one `Expression<Func<input, temp_i>> propertyExpression{i}` line per temporary type in order, then `Func<...>` over all temporary types and the output type joined by ", ", then the caller-info parameters |
| StringBuilderSourceCreatorHelper.AppendParameterLines | src/ReactiveMarbles.PropertyChanged.SourceGenerator/SourceCreator/StringBuilderSourceCreatorHelper.cs:29-32 | the loop writes exactly the numbered parameter lines, in order |
| StringBuilderSourceCreatorHelper.ParameterLinePerExpression | src/ReactiveMarbles.PropertyChanged.SourceGenerator/SourceCreator/StringBuilderSourceCreatorHelper.cs:29-32 | for each temporary return type i, the parameter list contains the line declaring `propertyExpression{i+1}` of that type |
| StringBuilderSourceCreatorHelper.ParameterLinesContain | src/ReactiveMarbles.PropertyChanged.SourceGenerator/SourceCreator/StringBuilderSourceCreatorHelper.cs:29-32 | the parameter lines contain the line of every temporary type |
| StringBuilderSourceCreatorHelper.LaterObservableNames | src/ReactiveMarbles.PropertyChanged.SourceGenerator/SourceCreator/StringBuilderSourceCreatorHelper.cs:57-60 | the names passed to `CombineLatest` are `obs2..obsN`, in order |
| StringBuilderSourceCreatorHelper.AppendObservableBody | src/ReactiveMarbles.PropertyChanged.SourceGenerator/SourceCreator/StringBuilderSourceCreatorHelper.cs:48-65 | the body loops write the declarations of `obs1..obsN` followed by `return obs1.CombineLatest(obs2, ..., obsN, conversionFunc);` |
| StringBuilderSourceCreatorHelper.DeclareObservables | src/ReactiveMarbles.PropertyChanged.SourceGenerator/SourceCreator/StringBuilderSourceCreatorHelper.cs:51-54 | the declaration loop writes one `var obs{i} = receiver.WhenChanged(propertyExpression{i}, ...)` line for each i, in order |
| StringBuilderSourceCreatorHelper.AppendCombineLatest | src/ReactiveMarbles.PropertyChanged.SourceGenerator/SourceCreator/StringBuilderSourceCreatorHelper.cs:56-62 | the return loop appends `return obs1.CombineLatest(`, then `obs{i}, ` for i from 2 to N, then `conversionFunc);` |
| StringBuilderSourceCreatorHelper.GetMultiExpressionMethodBody | src/ReactiveMarbles.PropertyChanged.SourceGenerator/SourceCreator/StringBuilderSourceCreatorHelper.cs:48-65 | the extension body is the observable body with receiver `objectToMonitor` |
| StringBuilderSourceCreatorHelper.GetMultiExpressionMethodBodyForPartialClass | src/ReactiveMarbles.PropertyChanged.SourceGenerator/SourceCreator/StringBuilderSourceCreatorHelper.cs:67-84 | the partial-class body is the same text with receiver `this` |
| StringBuilderSourceCreatorHelper.ObservableDeclaredPerExpression | src/ReactiveMarbles.PropertyChanged.SourceGenerator/SourceCreator/StringBuilderSourceCreatorHelper.cs:51-54 | for every n from 1 to N, the body declares `obs{n}` from `propertyExpression{n}` on the receiver |
| StringBuilderSourceCreatorHelper.DeclarationsContain | src/ReactiveMarbles.PropertyChanged.SourceGenerator/SourceCreator/StringBuilderSourceCreatorHelper.cs:51-54 | the declaration block contains the declaration of every `obs{n}` |
| StringBuilderSourceCreatorHelper.MultiExpressionMethod | src/ReactiveMarbles.PropertyChanged.SourceGenerator/SourceCreator/StringBuilderSourceCreatorHelper.cs:86-96 | the extension method text holds, in this order, the header with the access keyword, `static` and the output type, the receiver `this {inputType} objectToMonitor`, the expression parameters and the body |
| StringBuilderSourceCreatorHelper.MultiExpressionMethodForPartialClass | src/ReactiveMarbles.PropertyChanged.SourceGenerator/SourceCreator/StringBuilderSourceCreatorHelper.cs:98-107 | the instance method text holds the header (access keyword, no `static`, the output type), then the expression parameters, then the body |
| StringBuilderSourceCreatorHelper.WhenChangedMethodForMap | src/ReactiveMarbles.PropertyChanged.SourceGenerator/SourceCreator/StringBuilderSourceCreatorHelper.cs:109-122 | the map-dispatch extension holds, in order, the header, the receiver `this {inputType} source`, the `Expression<Func<input, output>>` parameter, the caller-info parameters and the return of the map entry under the expression body text invoked on `source` |
| StringBuilderSourceCreatorHelper.ObservableCreation | src/ReactiveMarbles.PropertyChanged.SourceGenerator/SourceCreator/StringBuilderSourceCreatorHelper.cs:124-149 | the subscription text holds, in order: `Observable.Create<{output}>(`, the null check of the input, the first emission of the member, the cast to the input type, the test of the event's property name against the member, the re-emission of the member, and the subscription of the handler |
| StringBuilderSourceCreatorHelper.WhenChangedMethodForDirectReturn | src/ReactiveMarbles.PropertyChanged.SourceGenerator/SourceCreator/StringBuilderSourceCreatorHelper.cs:151-170 | the direct-return extension holds, in order, the header, the receiver `this {inputType} source`, the expression parameter, the caller-info parameters and `return Observable.Return(source){chain};` |
| StringBuilderSourceCreatorHelper.MapEntryChain | src/ReactiveMarbles.PropertyChanged.SourceGenerator/SourceCreator/StringBuilderSourceCreatorHelper.cs:172-177 | a further hop is `.Select(x => ...)` over the subscription to the member on `x`, followed by `.Switch()` |
| StringBuilderSourceCreatorHelper.MapEntry | src/ReactiveMarbles.PropertyChanged.SourceGenerator/SourceCreator/StringBuilderSourceCreatorHelper.cs:184-191 | a dictionary entry contains its quoted key and the lambda `source => chain` |
| StringBuilderSourceCreatorHelper.MapEntryObservableReturn | src/ReactiveMarbles.PropertyChanged.SourceGenerator/SourceCreator/StringBuilderSourceCreatorHelper.cs:179-182 | the entry of a one-hop chain starts from `Observable.Return(source)`: it contains the key and `source => Observable.Return(source)chain` |
| StringBuilderSourceCreatorHelper.Map | src/ReactiveMarbles.PropertyChanged.SourceGenerator/SourceCreator/StringBuilderSourceCreatorHelper.cs:193-201 | the map declares the field with its name as a `Dictionary` and contains the entries on lines of their own |
| StringBuilderSourceCreatorHelper.Class | src/ReactiveMarbles.PropertyChanged.SourceGenerator/SourceCreator/StringBuilderSourceCreatorHelper.cs:203-213 | the extension class text holds the using block, then the `public static partial class NotifyPropertyChangedExtensions` declaration, then the body |
| StringBuilderSourceCreatorHelper.GetPartialClass | src/ReactiveMarbles.PropertyChanged.SourceGenerator/SourceCreator/StringBuilderSourceCreatorHelper.cs:228-258 | equals the specification: the using block, then the namespace (only if its name is non-empty) around the class wrapped in its ancestors |
| StringBuilderSourceCreatorHelper.AncestorNestingOrder | src/ReactiveMarbles.PropertyChanged.SourceGenerator/SourceCreator/StringBuilderSourceCreatorHelper.cs:237-245 | the first ancestor wraps the class directly and the last ancestor is outermost |
| StringBuilderSourceCreatorHelper.PartialClassWithoutNesting | src/ReactiveMarbles.PropertyChanged.SourceGenerator/SourceCreator/StringBuilderSourceCreatorHelper.cs:247-257 | with no ancestors and an empty namespace name, the text is the using block followed by the class declaration alone |
| StringBuilderSourceCreatorHelper.GetWhenChangedMapMethod | src/ReactiveMarbles.PropertyChanged.SourceGenerator/SourceCreator/StringBuilderSourceCreatorHelper.cs:260-286 | as an extension, the text is the `static` signature, then the `this {inputType} source` parameter, then the expression parameter, then the lookup invoked on `source`, in that order; otherwise the signature's `static` slot is empty, the parameter list opens directly with the expression parameter (no receiver), and the lookup is invoked on `this`; in both cases the exact text is given as header, optional receiver line and tail |
| StringBuilderSourceCreatorHelper.ExtensionMapMethodInOrder | src/ReactiveMarbles.PropertyChanged.SourceGenerator/SourceCreator/StringBuilderSourceCreatorHelper.cs:262-283 | the extension accessor's text holds the `static` signature, the receiver, the expression parameter and the `.Invoke(source)` lookup in that order |
| StringBuilderSourceCreatorHelper.InstanceMapMethodInOrder | src/ReactiveMarbles.PropertyChanged.SourceGenerator/SourceCreator/StringBuilderSourceCreatorHelper.cs:262-283 | the in-class accessor's text holds the signature with an empty `static` slot followed at once by the expression parameter, and after it the `.Invoke(this)` lookup |
| StringBuilderSourceCreatorHelper.ObservableChainSingle | src/ReactiveMarbles.PropertyChanged.SourceGenerator/SourceCreator/StringBuilderSourceCreatorHelper.cs:290-291 | a one-member chain is the observable creation on `this` for that member |
| StringBuilderSourceCreatorHelper.ObservableChainExtends | src/ReactiveMarbles.PropertyChanged.SourceGenerator/SourceCreator/StringBuilderSourceCreatorHelper.cs:292-295 | each further member appends exactly its own `.Select(...).Switch()` segment |
| StringBuilderSourceCreatorHelper.BuildObservableChain | src/ReactiveMarbles.PropertyChanged.SourceGenerator/SourceCreator/StringBuilderSourceCreatorHelper.cs:290-295 | the builder loop produces the creation for `members[0]` followed by one segment per remaining member |
| StringBuilderSourceCreatorHelper.PartialClassWhenChangedMethodForDirectReturn | src/ReactiveMarbles.PropertyChanged.SourceGenerator/SourceCreator/StringBuilderSourceCreatorHelper.cs:297-307 | the instance method text holds, in order, the header with the access keyword and the output type, the expression parameter, the caller-info parameters and `return {chain};` |
| StringBuilderSourceCreatorHelper.GetPartialClassWhenChangedMethodForDirectReturn | src/ReactiveMarbles.PropertyChanged.SourceGenerator/SourceCreator/StringBuilderSourceCreatorHelper.cs:288-308 | an empty member list throws `ArgumentOutOfRangeException` (`members[0]`); otherwise the method text is the direct-return template around the chain of the members |
| RoslynWhenChangedPartialClassCreator.CreateDictionaryMembers | src/ReactiveMarbles.PropertyChanged.SourceGenerator/SourceCreator/RoslynWhenChangedPartialClassCreator.cs:81-95 | a dictionary datum yields exactly two members: the map, with one entry per `Map.Entries` element in order, and then the accessor |
| RoslynWhenChangedPartialClassCreator.ObservableLocals | src/ReactiveMarbles.PropertyChanged.SourceGenerator/SourceCreator/RoslynWhenChangedPartialClassCreator.cs:109-122 | one local per temporary return type, in order, the i-th named `obs{i+1}` and observing that type |
| RoslynWhenChangedPartialClassCreator.ObservableNames | src/ReactiveMarbles.PropertyChanged.SourceGenerator/SourceCreator/RoslynWhenChangedPartialClassCreator.cs:112-121 | the combine arguments are `obs1..obsN` in order |
| RoslynWhenChangedPartialClassCreator.CreateMultiMembers | src/ReactiveMarbles.PropertyChanged.SourceGenerator/SourceCreator/RoslynWhenChangedPartialClassCreator.cs:104-136 | the loop builds exactly the specification's statements and combine arguments |
| RoslynWhenChangedPartialClassCreator.CreateMethodMembers | src/ReactiveMarbles.PropertyChanged.SourceGenerator/SourceCreator/RoslynWhenChangedPartialClassCreator.cs:72-79 | the dispatch over the three datum kinds yields the members of the datum's own kind |
| RoslynWhenChangedPartialClassCreator.SingleExpressionMembers | src/ReactiveMarbles.PropertyChanged.SourceGenerator/SourceCreator/RoslynWhenChangedPartialClassCreator.cs:81-102 | a dictionary datum yields the map (one entry per map entry, in order) and then the accessor; an optimized datum yields exactly one member |
| RoslynWhenChangedPartialClassCreator.MultiExpressionMembers | src/ReactiveMarbles.PropertyChanged.SourceGenerator/SourceCreator/RoslynWhenChangedPartialClassCreator.cs:104-136 | a multi-expression datum yields one method whose statements are the locals `obs1..obsN` and then `Observable.CombineLatest` with N+1 arguments, the last being `conversionFunc` |
| RoslynWhenChangedPartialClassCreator.Modifiers | src/ReactiveMarbles.PropertyChanged.SourceGenerator/SourceCreator/RoslynWhenChangedPartialClassCreator.cs:55 | a class's modifiers are its accessibility keywords followed by `partial`, with `partial` only last |
| RoslynWhenChangedPartialClassCreator.CreateClassMembers | src/ReactiveMarbles.PropertyChanged.SourceGenerator/SourceCreator/RoslynWhenChangedPartialClassCreator.cs:58 | the members of a class are those of its method data, concatenated in order |
| RoslynWhenChangedPartialClassCreator.CreateClass | src/ReactiveMarbles.PropertyChanged.SourceGenerator/SourceCreator/RoslynWhenChangedPartialClassCreator.cs:53-70 | the loop builds the specification's class: the datum's class wrapped in each ancestor in turn |
| RoslynWhenChangedPartialClassCreator.NestInAncestors | src/ReactiveMarbles.PropertyChanged.SourceGenerator/SourceCreator/RoslynWhenChangedPartialClassCreator.cs:61-67 | reassigning `currentClass` per ancestor is the fold of the wrap over the ancestors |
| RoslynWhenChangedPartialClassCreator.MethodMembersAreNotClasses | src/ReactiveMarbles.PropertyChanged.SourceGenerator/SourceCreator/RoslynWhenChangedPartialClassCreator.cs:72-102 | method members are never class declarations |
| RoslynWhenChangedPartialClassCreator.ClassNesting | src/ReactiveMarbles.PropertyChanged.SourceGenerator/SourceCreator/RoslynWhenChangedPartialClassCreator.cs:53-70 | the chain of nested class headings runs from the last ancestor to the first, each with its own accessibility keywords plus `partial`, and ends with the class itself |
| RoslynWhenChangedPartialClassCreator.NestOfFold | src/ReactiveMarbles.PropertyChanged.SourceGenerator/SourceCreator/RoslynWhenChangedPartialClassCreator.cs:61-67 | wrapping a class in the ancestors prepends their headings in reverse order |
| RoslynWhenChangedPartialClassCreator.NestOfInnermost | src/ReactiveMarbles.PropertyChanged.SourceGenerator/SourceCreator/RoslynWhenChangedPartialClassCreator.cs:57-59 | the unwrapped class has no nested class below it |
| RoslynWhenChangedPartialClassCreator.NestOfWrap | src/ReactiveMarbles.PropertyChanged.SourceGenerator/SourceCreator/RoslynWhenChangedPartialClassCreator.cs:63-66 | one wrap adds exactly the ancestor's heading on top |
| RoslynWhenChangedPartialClassCreator.Create | src/ReactiveMarbles.PropertyChanged.SourceGenerator/SourceCreator/RoslynWhenChangedPartialClassCreator.cs:20-51 | equals the specification: namespace grouping and then a compilation unit, or none |
| RoslynWhenChangedPartialClassCreator.CreateGroupsMembers | src/ReactiveMarbles.PropertyChanged.SourceGenerator/SourceCreator/RoslynWhenChangedPartialClassCreator.cs:24-39 | the group loop appends each group's members in group order |
| RoslynWhenChangedPartialClassCreator.CreateClasses | src/ReactiveMarbles.PropertyChanged.SourceGenerator/SourceCreator/RoslynWhenChangedPartialClassCreator.cs:28 | one class per datum, in order |
| RoslynWhenChangedPartialClassCreator.NoUnitIffNoData | src/ReactiveMarbles.PropertyChanged.SourceGenerator/SourceCreator/RoslynWhenChangedPartialClassCreator.cs:41-50 | there is no compilation unit (`null`) iff there are no class data |
| RoslynWhenChangedPartialClassCreator.GroupMembersNonEmpty | src/ReactiveMarbles.PropertyChanged.SourceGenerator/SourceCreator/RoslynWhenChangedPartialClassCreator.cs:28-38 | every namespace group contributes at least one member |
| RoslynWhenChangedPartialClassCreator.NamespacedClassPlaced | src/ReactiveMarbles.PropertyChanged.SourceGenerator/SourceCreator/RoslynWhenChangedPartialClassCreator.cs:29-34 | a class with a non-blank namespace lies in the namespace declaration of that name, which holds the classes of its whole group in order |
| RoslynWhenChangedPartialClassCreator.NamespaceGroupMembers | src/ReactiveMarbles.PropertyChanged.SourceGenerator/SourceCreator/RoslynWhenChangedPartialClassCreator.cs:29-34 | a group with a non-blank key becomes exactly one namespace declaration holding its classes |
| RoslynWhenChangedPartialClassCreator.TopLevelClassPlaced | src/ReactiveMarbles.PropertyChanged.SourceGenerator/SourceCreator/RoslynWhenChangedPartialClassCreator.cs:35-38 | a class with a blank namespace is a top-level member of the unit |
| RoslynWhenChangedPartialClassCreator.NamespacesDistinct | src/ReactiveMarbles.PropertyChanged.SourceGenerator/SourceCreator/RoslynWhenChangedPartialClassCreator.cs:24-39 | no two namespace declarations of one unit have the same name |
| RoslynWhenChangedPartialClassCreator.NamespaceNamesAreKeys | src/ReactiveMarbles.PropertyChanged.SourceGenerator/SourceCreator/RoslynWhenChangedPartialClassCreator.cs:24-39 | every namespace declaration is named by a group key, and with distinct keys the declarations have distinct names |
| RoslynWhenChangedPartialClassCreator.ClassesAreNotNamespaces | src/ReactiveMarbles.PropertyChanged.SourceGenerator/SourceCreator/RoslynWhenChangedPartialClassCreator.cs:28 | a rendered class is never a namespace declaration |
| BindGenerator.Partition | src/ReactiveMarbles.PropertyChanged.SourceGenerator/Generators/BindGenerator.cs:25-42 | each of the four lists holds exactly the invocations of its kind, in input order |
| BindGenerator.GenerateSourceFromInvocations | src/ReactiveMarbles.PropertyChanged.SourceGenerator/Generators/BindGenerator.cs:18-57 | the files are the extensions file and then the partial file, each present only if its creator's text is not blank |
| BindGenerator.YieldIfNotBlank | src/ReactiveMarbles.PropertyChanged.SourceGenerator/Generators/BindGenerator.cs:46-49 | a conditional `yield return` yields the file iff the text is neither null nor white space, and then with exactly that text |
| BindGenerator.AtMostOneList | src/ReactiveMarbles.PropertyChanged.SourceGenerator/Generators/BindGenerator.cs:27-41 | an invocation lands in exactly one list, or in none when its kind matches no case |
| BindGenerator.PartitionCounts | src/ReactiveMarbles.PropertyChanged.SourceGenerator/Generators/BindGenerator.cs:25-42 | the four lists and the dropped invocations together account for every invocation exactly once |
| BindGenerator.FileOrder | src/ReactiveMarbles.PropertyChanged.SourceGenerator/Generators/BindGenerator.cs:44-56 | at most two files; with two, the extensions file comes first |
| BindGenerator.ExtensionsFileYielded | src/ReactiveMarbles.PropertyChanged.SourceGenerator/Generators/BindGenerator.cs:44-49 | `{type}_Bind.extensions.g.cs` is yielded iff the extension creator's text is not null or white space |
| BindGenerator.PartialFileYielded | src/ReactiveMarbles.PropertyChanged.SourceGenerator/Generators/BindGenerator.cs:51-56 | `{type}_Bind.partial.g.cs` is yielded iff the partial creator's text is not null or white space |
| BindGenerator.FileNamesDiffer | src/ReactiveMarbles.PropertyChanged.SourceGenerator/Generators/BindGenerator.cs:48-55 | the two hint names of a type differ |
| BindGenerator.OneWayInvocationsContributeNothing | src/ReactiveMarbles.PropertyChanged.SourceGenerator/Generators/BindGenerator.cs:35-56 | inserting one-way invocations, or invocations of other kinds, anywhere in the input leaves the files unchanged |
| BindGenerator.KeptAcrossIgnored | src/ReactiveMarbles.PropertyChanged.SourceGenerator/Generators/BindGenerator.cs:25-41 | a list is unchanged by inserting invocations that do not belong to it |
| BindGenerator.NothingKept | src/ReactiveMarbles.PropertyChanged.SourceGenerator/Generators/BindGenerator.cs:25-41 | a list collects nothing from invocations that do not belong to it |
| WhenChangedGenerator.Innermost | src/ReactiveMarbles.PropertyChanged.SourceGenerator/WhenChangedGenerator.cs:192-202 | the walk stops at the first expression that is not a member access |
| WhenChangedGenerator.NodesOf | src/ReactiveMarbles.PropertyChanged.SourceGenerator/WhenChangedGenerator.cs:239-247 | the collected nodes start at the innermost expression and end at the lambda body |
| WhenChangedGenerator.ExpressionChain | src/ReactiveMarbles.PropertyChanged.SourceGenerator/WhenChangedGenerator.cs:186-231 | throws `NullReferenceException` iff some hop of the walk has a parent or member type that is not a named type (the `as INamedTypeSymbol` result is dereferenced); otherwise success iff the walk ends at an identifier that the invariant-culture comparison equates with the lambda parameter name, with the links in root-to-leaf order; otherwise the diagnostic `OnlyPropertyAndFieldAccessAllowed` at the expression the walk stopped at when that is not an identifier, or `LambdaParameterMustBeUsed` at the lambda body when the name differs |
| WhenChangedGenerator.GetExpressionChain | src/ReactiveMarbles.PropertyChanged.SourceGenerator/WhenChangedGenerator.cs:186-231 | the `while` walk, with `Reverse`, computes exactly the chain specification, its throw included |
| WhenChangedGenerator.WalkThrowsIffUnnamedNode | src/ReactiveMarbles.PropertyChanged.SourceGenerator/WhenChangedGenerator.cs:192-202 | the walk throws iff one of the member-access nodes it visits has a parent or member type that is not a named type |
| WhenChangedGenerator.ChainLinksFollowNodes | src/ReactiveMarbles.PropertyChanged.SourceGenerator/WhenChangedGenerator.cs:192-202 | one link per member-access node, and the k-th link is that of the k-th node counted from the root |
| WhenChangedGenerator.ChainRoundTrip | src/ReactiveMarbles.PropertyChanged.SourceGenerator/WhenChangedGenerator.cs:192-223 | a lambda `p => p.n1.....nk` whose walk returns is accepted, and its chain names are exactly n1..nk in order |
| WhenChangedGenerator.PathLinkNames | src/ReactiveMarbles.PropertyChanged.SourceGenerator/WhenChangedGenerator.cs:192-202 | the link names of an access path are its member names, root to leaf |
| WhenChangedGenerator.AccessPath | src/ReactiveMarbles.PropertyChanged.SourceGenerator/WhenChangedGenerator.cs:192-202 | an access path built on a root has that root as its innermost expression |
| WhenChangedGenerator.IdentityLambdaHasEmptyChain | src/ReactiveMarbles.PropertyChanged.SourceGenerator/WhenChangedGenerator.cs:215-223 | `x => x` returns normally and is accepted with no links |
| WhenChangedGenerator.OtherRootRejected | src/ReactiveMarbles.PropertyChanged.SourceGenerator/WhenChangedGenerator.cs:219-230 | a chain whose walk returns and whose root identifier the invariant-culture comparison does not equate with the parameter is rejected with `LambdaParameterMustBeUsed` at the lambda body, however the chain continues |
| WhenChangedGenerator.ContainsPrivateOrProtectedMember | src/ReactiveMarbles.PropertyChanged.SourceGenerator/WhenChangedGenerator.cs:233-274 | throws `InvalidOperationException` iff the downward scan reaches a root-type hop whose member has no declaration in source (`DeclaringSyntaxReferences.First()`) before it finds a restricted one; otherwise the result is exactly the restriction specification: some hop whose parent type equals the root type reaches a member declared at most Protected |
| WhenChangedGenerator.CollectNodes | src/ReactiveMarbles.PropertyChanged.SourceGenerator/WhenChangedGenerator.cs:239-247 | the `while` loop collects exactly the nodes, innermost first |
| WhenChangedGenerator.AnyRestrictedHop | src/ReactiveMarbles.PropertyChanged.SourceGenerator/WhenChangedGenerator.cs:250-271 | the decreasing-index loop throws `InvalidOperationException` exactly when the scan specification does, and otherwise returns true iff some hop is restricted |
| WhenChangedGenerator.ScanThrowsIff | src/ReactiveMarbles.PropertyChanged.SourceGenerator/WhenChangedGenerator.cs:250-271 | the scan from hop i down throws iff some root-type hop k at or below i has no declaration in source while every root-type hop between k and i has one and is not restricted |
| WhenChangedGenerator.OnlyRootTypeHopsMatter | src/ReactiveMarbles.PropertyChanged.SourceGenerator/WhenChangedGenerator.cs:256-259 | the flag depends only on the hops whose parent type is the root type: changing the member accessibilities of the other hops does not change it |
| WhenChangedGenerator.SingleHopClassification | src/ReactiveMarbles.PropertyChanged.SourceGenerator/WhenChangedGenerator.cs:250-270 | for `p => p.m`, the flag is true iff the member `m` is declared at most Protected, and the scan throws iff `m` has no declaration in source |
| WhenChangedGenerator.HashSetAdd | src/ReactiveMarbles.PropertyChanged.SourceGenerator/WhenChangedGenerator.cs:120 | `HashSet.Add` under value equality of the elements: the element is then present, nothing is lost or invented, and the set stays duplicate-free |
| WhenChangedGenerator.AddArguments | src/ReactiveMarbles.PropertyChanged.SourceGenerator/WhenChangedGenerator.cs:107-134 | collecting the arguments of one call, when it returns, leaves the combinator data unchanged |
| WhenChangedGenerator.TypeAccessibilities | src/ReactiveMarbles.PropertyChanged.SourceGenerator/WhenChangedGenerator.cs:138 | the declared accessibility of each type argument, in order |
| WhenChangedGenerator.TypeDisplayNames | src/ReactiveMarbles.PropertyChanged.SourceGenerator/WhenChangedGenerator.cs:141 | the display string of each type argument, in order |
| WhenChangedGenerator.AccessibilitiesOfArguments | src/ReactiveMarbles.PropertyChanged.SourceGenerator/WhenChangedGenerator.cs:138 | the accessibility list holds exactly the accessibilities of the type arguments |
| WhenChangedGenerator.MultiExpressionMethodDatumOf | src/ReactiveMarbles.PropertyChanged.SourceGenerator/WhenChangedGenerator.cs:136-143 | the access modifier is the least type-argument accessibility; the private flag is set iff some type argument is at most Protected; the type names are the input, temporary and output types in order |
| WhenChangedGenerator.ExtractArguments | src/ReactiveMarbles.PropertyChanged.SourceGenerator/WhenChangedGenerator.cs:107-134 | the argument loop computes exactly the specification of one call's arguments, stopping at the first argument that throws |
| WhenChangedGenerator.ExtractWhenChangedInvocationInfo | src/ReactiveMarbles.PropertyChanged.SourceGenerator/WhenChangedGenerator.cs:89-148 | the nested `foreach` loops compute exactly the specification of all call sites, stopping at the first call that throws |
| WhenChangedGenerator.AddArgumentsKeepsInvariants | src/ReactiveMarbles.PropertyChanged.SourceGenerator/WhenChangedGenerator.cs:107-134 | when the call returns, the validity flag is false iff a diagnostic was reported, every argument left valid has its chain, and the flag is the earlier flag and the validity of every argument of the call |
| WhenChangedGenerator.ExtractKeepsInvariants | src/ReactiveMarbles.PropertyChanged.SourceGenerator/WhenChangedGenerator.cs:89-148 | when the extraction returns: the flag is false iff a diagnostic was reported, it is true iff every expression argument is an inline lambda with a chain, and valid arguments have chains |
| WhenChangedGenerator.AllArgumentsValidSnoc | src/ReactiveMarbles.PropertyChanged.SourceGenerator/WhenChangedGenerator.cs:95-145 | all arguments are valid iff those of the earlier calls and those of the last call are |
| WhenChangedGenerator.ValidIffAllArgumentsValid | src/ReactiveMarbles.PropertyChanged.SourceGenerator/WhenChangedGenerator.cs:121-131 | when the extraction returns, the flag is true iff every expression argument is an inline lambda whose chain was extracted |
| WhenChangedGenerator.ValidIffNoDiagnostics | src/ReactiveMarbles.PropertyChanged.SourceGenerator/WhenChangedGenerator.cs:121-131 | when the extraction returns, the flag is true iff no diagnostic was reported |
| WhenChangedGenerator.ValidMeansChainsPresent | src/ReactiveMarbles.PropertyChanged.SourceGenerator/WhenChangedGenerator.cs:120-121 | when the extraction returns with the flag true, every collected argument has its chain |
| WhenChangedGenerator.AddArgumentsCollects | src/ReactiveMarbles.PropertyChanged.SourceGenerator/WhenChangedGenerator.cs:107-134 | when the call returns, its collected arguments are exactly the earlier ones plus one per inline-lambda expression argument |
| WhenChangedGenerator.AddArgumentsThrowsIff | src/ReactiveMarbles.PropertyChanged.SourceGenerator/WhenChangedGenerator.cs:107-131 | collecting one call's arguments throws iff one of its arguments throws: a `NullReferenceException` from the chain walk, or an `InvalidOperationException` from the member scan, which runs only when the input type is not at most Protected; the exception is that of the first throwing argument |
| WhenChangedGenerator.AddArgumentsThrewStays | src/ReactiveMarbles.PropertyChanged.SourceGenerator/WhenChangedGenerator.cs:107-131 | once an argument has thrown, the later arguments do not change the outcome |
| WhenChangedGenerator.ExtractThrowsIff | src/ReactiveMarbles.PropertyChanged.SourceGenerator/WhenChangedGenerator.cs:89-148 | the extraction throws iff some call site throws, and the exception is that of the first argument that throws in the first such call |
| WhenChangedGenerator.ExtractThrewStays | src/ReactiveMarbles.PropertyChanged.SourceGenerator/WhenChangedGenerator.cs:95-145 | once a call site has thrown, the later call sites do not change the outcome |
| WhenChangedGenerator.CollectedArgumentsComeFromInvocations | src/ReactiveMarbles.PropertyChanged.SourceGenerator/WhenChangedGenerator.cs:95-145 | when the extraction returns, an argument is collected iff it comes from an inline lambda argument of a `NotifyPropertyChangedExtensions` call |
| WhenChangedGenerator.MultiDataComeFromInvocations | src/ReactiveMarbles.PropertyChanged.SourceGenerator/WhenChangedGenerator.cs:136-143 | when the extraction returns, the combinator data are exactly those of the calls with more than two type arguments |
| WhenChangedGenerator.ToInputTypeGroups | src/ReactiveMarbles.PropertyChanged.SourceGenerator/WhenChangedGenerator.cs:30-36 | one input-type group per distinct input type; each holds the output-type groups of its arguments |
| WhenChangedGenerator.InGroupIff | src/ReactiveMarbles.PropertyChanged.SourceGenerator/WhenChangedGenerator.cs:32-34 | an argument lies in output group j of input group i iff it is an argument with that input type and that output type |
| WhenChangedGenerator.GroupsPartitionArguments | src/ReactiveMarbles.PropertyChanged.SourceGenerator/WhenChangedGenerator.cs:30-36 | every argument lies in exactly one (input, output) group |
| WhenChangedGenerator.GroupsNonEmpty | src/ReactiveMarbles.PropertyChanged.SourceGenerator/WhenChangedGenerator.cs:33-36 | every input-type group has at least one output-type group, and every output-type group at least one argument |
| WhenChangedGenerator.GroupsCoverArguments | src/ReactiveMarbles.PropertyChanged.SourceGenerator/WhenChangedGenerator.cs:32-34 | the groups contain nothing but arguments |
| WhenChangedGenerator.GroupCoversArgument | src/ReactiveMarbles.PropertyChanged.SourceGenerator/WhenChangedGenerator.cs:32-34 | every argument lies in some group |
| WhenChangedGenerator.MethodAccessibility | src/ReactiveMarbles.PropertyChanged.SourceGenerator/WhenChangedGenerator.cs:157-161 | the method's access modifier is the lesser of the input type's and the output type's declared accessibility |
| WhenChangedGenerator.SingleExpressionMethodDatum | src/ReactiveMarbles.PropertyChanged.SourceGenerator/WhenChangedGenerator.cs:150-184 | a group of one gives an optimized datum with that argument's chain; a larger group gives a dictionary datum with exactly one entry per argument, keyed by its lambda body text, in group order |
| WhenChangedGenerator.CreateSingleExpressionMethodDatum | src/ReactiveMarbles.PropertyChanged.SourceGenerator/WhenChangedGenerator.cs:150-184 | the entry loop computes exactly that datum |
| WhenChangedGenerator.GroupMethodServesEveryArgument | src/ReactiveMarbles.PropertyChanged.SourceGenerator/WhenChangedGenerator.cs:163-181 | the datum of a group serves each of its arguments: its chain is the optimized members, or the chain of the entry under its key |
| WhenChangedGenerator.SingleData | src/ReactiveMarbles.PropertyChanged.SourceGenerator/WhenChangedGenerator.cs:43-45 | one single-expression datum per output-type group, none of them a combinator |
| WhenChangedGenerator.GroupsFit | src/ReactiveMarbles.PropertyChanged.SourceGenerator/WhenChangedGenerator.cs:30-36 | if all arguments have chains, so do the arguments of each group |
| WhenChangedGenerator.PartialClassData | src/ReactiveMarbles.PropertyChanged.SourceGenerator/WhenChangedGenerator.cs:30-50 | one partial-class datum per input-type group of the restricted arguments |
| WhenChangedGenerator.ExtensionClassData | src/ReactiveMarbles.PropertyChanged.SourceGenerator/WhenChangedGenerator.cs:52-72 | one extension-class datum per input-type group of the unrestricted arguments |
| WhenChangedGenerator.GroupMemberFacts | src/ReactiveMarbles.PropertyChanged.SourceGenerator/WhenChangedGenerator.cs:32-34 | a member of a group has that group's input type and output type |
| WhenChangedGenerator.InSomeGroupIff | src/ReactiveMarbles.PropertyChanged.SourceGenerator/WhenChangedGenerator.cs:32-34 | an argument lies in some group iff it is one of the grouped arguments |
| WhenChangedGenerator.SidesPartitionArguments | src/ReactiveMarbles.PropertyChanged.SourceGenerator/WhenChangedGenerator.cs:30-53 | every argument falls on exactly one side: the partial-class side iff its restricted flag is set, otherwise the extension side |
| WhenChangedGenerator.RestrictedArgumentServed | src/ReactiveMarbles.PropertyChanged.SourceGenerator/WhenChangedGenerator.cs:30-50 | every restricted argument is served by a method of the partial-class datum of its input type |
| WhenChangedGenerator.UnrestrictedArgumentServed | src/ReactiveMarbles.PropertyChanged.SourceGenerator/WhenChangedGenerator.cs:52-72 | every unrestricted argument is served by a method of the extension-class datum of its input type |
| WhenChangedGenerator.GroupServesArgument | src/ReactiveMarbles.PropertyChanged.SourceGenerator/WhenChangedGenerator.cs:43-45 | the method of an argument's group serves that argument |
| WhenChangedGenerator.CombinatorsOfClass | src/ReactiveMarbles.PropertyChanged.SourceGenerator/WhenChangedGenerator.cs:37-68 | the combinators of a class datum are those whose input full name equals the group's and whose private flag matches the side |
| WhenChangedGenerator.SideGroupFor | src/ReactiveMarbles.PropertyChanged.SourceGenerator/WhenChangedGenerator.cs:37-46 | a side has a group for a full name iff some argument of that side has an input type of that name |
| WhenChangedGenerator.CombinatorEmittedIff | src/ReactiveMarbles.PropertyChanged.SourceGenerator/WhenChangedGenerator.cs:37-68 | a combinator is emitted iff an argument on its side has an input type with the combinator's full name |
| WhenChangedGenerator.ExtensionSources | src/ReactiveMarbles.PropertyChanged.SourceGenerator/WhenChangedGenerator.cs:74-79 | one source per extension-class datum |
| WhenChangedGenerator.PartialSources | src/ReactiveMarbles.PropertyChanged.SourceGenerator/WhenChangedGenerator.cs:81-86 | one source per partial-class datum |
| WhenChangedGenerator.AddExtensionSources | src/ReactiveMarbles.PropertyChanged.SourceGenerator/WhenChangedGenerator.cs:74-79 | the indexed loop makes exactly the `AddSource` calls of the extension sources, in order, continuing from the sources added so far, and stops with `ArgumentException` at the first repeated hint name |
| WhenChangedGenerator.AddPartialSources | src/ReactiveMarbles.PropertyChanged.SourceGenerator/WhenChangedGenerator.cs:81-86 | the same for the partial sources |
| WhenChangedGenerator.AddSource | src/ReactiveMarbles.PropertyChanged.SourceGenerator/WhenChangedGenerator.cs:78-85 | `AddSource` throws `ArgumentException` iff an added source has the same hint name ignoring case; otherwise the source is appended |
| WhenChangedGenerator.AddSourcesThrowsIff | src/ReactiveMarbles.PropertyChanged.SourceGenerator/WhenChangedGenerator.cs:74-86 | adding sources one at a time throws `ArgumentException` iff two of their hint names agree ignoring case; otherwise every source is added, in order |
| WhenChangedGenerator.AddSourcesThrewStays | src/ReactiveMarbles.PropertyChanged.SourceGenerator/WhenChangedGenerator.cs:74-86 | once an `AddSource` call has thrown, the later sources change nothing |
| WhenChangedGenerator.GenerateWhenChanged | src/ReactiveMarbles.PropertyChanged.SourceGenerator/WhenChangedGenerator.cs:21-87 | when the extraction throws, the generator throws the same exception and yields no output; otherwise it reports exactly the extraction's diagnostics and adds no source when any argument is invalid; otherwise it throws `ArgumentException` when two emitted hint names agree ignoring case, and else adds the extension sources followed by the partial sources |
| WhenChangedGenerator.ExtensionHintNamesDistinct | src/ReactiveMarbles.PropertyChanged.SourceGenerator/WhenChangedGenerator.cs:78 | for class names not ending in a digit, distinct (name, index) pairs give distinct extension hint names |
| WhenChangedGenerator.PartialHintNamesDistinct | src/ReactiveMarbles.PropertyChanged.SourceGenerator/WhenChangedGenerator.cs:85 | the same for the partial hint names |
| WhenChangedGenerator.HintNamesCanCollide | src/ReactiveMarbles.PropertyChanged.SourceGenerator/WhenChangedGenerator.cs:78-85 | class "A1" at index 0 and class "A" at index 10 get the same hint name |
| WhenChangedGenerator.ExtensionHintNamesDistinctIgnoringCase | src/ReactiveMarbles.PropertyChanged.SourceGenerator/WhenChangedGenerator.cs:78 | for class names not ending in a digit, two extension hint names agree ignoring case iff they have the same index and class names agreeing ignoring case |
| WhenChangedGenerator.PartialHintNamesDistinctIgnoringCase | src/ReactiveMarbles.PropertyChanged.SourceGenerator/WhenChangedGenerator.cs:85 | the same for the partial hint names |
| WhenChangedGenerator.ExtensionAndPartialHintNamesDiffer | src/ReactiveMarbles.PropertyChanged.SourceGenerator/WhenChangedGenerator.cs:78-85 | an extension hint name never agrees with a partial hint name, ignoring case |
| WhenChangedGenerator.WhenChangedHintNamesUnique | src/ReactiveMarbles.PropertyChanged.SourceGenerator/WhenChangedGenerator.cs:74-86 | when no class name ends in a digit, no two emitted hint names agree ignoring case, so no `AddSource` call throws and every source is added |
| WhenChangedGenerator.HintNameCollisionThrows | src/ReactiveMarbles.PropertyChanged.SourceGenerator/WhenChangedGenerator.cs:74-79 | with class "A1" first and class "A" eleventh among the extension classes, two hint names coincide and adding the sources throws `ArgumentException` |
| WhenChangedHostBuilder.ReceiverText | src/ReactiveMarbles.PropertyChanged.SourceGenerator.Builders/WhenChangedHostBuilder.cs:195 | the receiver is `this` iff the receiver kind is This, otherwise `instance` |
| WhenChangedHostBuilder.InvocationShape | src/ReactiveMarbles.PropertyChanged.SourceGenerator.Builders/WhenChangedHostBuilder.cs:190-202 | the invocation is a prefix fixed by the two kinds, then the arguments, then `)` |
| WhenChangedHostBuilder.ArgumentsRoundTrip | src/ReactiveMarbles.PropertyChanged.SourceGenerator.Builders/WhenChangedHostBuilder.cs:190-202 | the arguments can be read back from the invocation text |
| WhenChangedHostBuilder.KindsRoundTrip | src/ReactiveMarbles.PropertyChanged.SourceGenerator.Builders/WhenChangedHostBuilder.cs:195-199 | the invocation kind and the receiver kind can be read back from the invocation text |
| WhenChangedHostBuilder.InvocationInjective | src/ReactiveMarbles.PropertyChanged.SourceGenerator.Builders/WhenChangedHostBuilder.cs:190-202 | distinct (kind, receiver, arguments) triples give distinct invocation texts |
| WhenChangedHostBuilder.DefaultInvocation | src/ReactiveMarbles.PropertyChanged.SourceGenerator.Builders/WhenChangedHostBuilder.cs:31 | the default invocation is `this.WhenChanged(x => x.Value)` |
| WhenChangedHostBuilder.Children | src/ReactiveMarbles.PropertyChanged.SourceGenerator.Builders/WhenChangedHostBuilder.cs:120 | `Enumerable.Range(1, n).Select(_ => "Child")`: n copies of "Child" |
| WhenChangedHostBuilder.JoinChildren | src/ReactiveMarbles.PropertyChanged.SourceGenerator.Builders/WhenChangedHostBuilder.cs:120 | joining "x => x" and n "Child" parts with "." gives "x => x" followed by n ".Child" segments |
| WhenChangedHostBuilder.DepthExpressionShape | src/ReactiveMarbles.PropertyChanged.SourceGenerator.Builders/WhenChangedHostBuilder.cs:115-123 | the depth-N expression is `x => x`, then N-1 copies of `.Child`, then `.Value`; depth 1 gives `x => x.Value` |
| WhenChangedHostBuilder.SourceTypeNameFixUp | src/ReactiveMarbles.PropertyChanged.SourceGenerator.Builders/WhenChangedHostBuilder.cs:139-141 | the fix-up keeps the length and every other character, and leaves no `+`; applying it twice changes nothing more |
| WhenChangedHostBuilder.ClassDeclaresValueField | src/ReactiveMarbles.PropertyChanged.SourceGenerator.Builders/WhenChangedHostBuilder.cs:143-187 | the class text declares the `_value` field with the given property type name |
| WhenChangedHostBuilder.ClassReturnsInvocation | src/ReactiveMarbles.PropertyChanged.SourceGenerator.Builders/WhenChangedHostBuilder.cs:163-167 | the class text's method returns the invocation |
| WhenChangedHostBuilder.AfterValueFieldReturns | src/ReactiveMarbles.PropertyChanged.SourceGenerator.Builders/WhenChangedHostBuilder.cs:163-167 | the part of the template after the field contains the invocation's return |
| WhenChangedHostBuilder.JoinThree | src/ReactiveMarbles.PropertyChanged.SourceGenerator.Builders/WhenChangedHostBuilder.cs:104 | three arguments joined with ", " are the interpolated `{e1}, {e2}, {f}` |
| WhenChangedHostBuilder.WhenChangedHostBuilder.constructor | src/ReactiveMarbles.PropertyChanged.SourceGenerator.Builders/WhenChangedHostBuilder.cs:27-32 | a new builder has Public property access, property type "string", and the invocation `this.WhenChanged(x => x.Value)` |
| WhenChangedHostBuilder.WhenChangedHostBuilder.WithPropertyTypeOf | src/ReactiveMarbles.PropertyChanged.SourceGenerator.Builders/WhenChangedHostBuilder.cs:44-48 | stores the type-name function itself, so the name is read when the class is created; changes no other field and returns the same builder |
| WhenChangedHostBuilder.WhenChangedHostBuilder.WithPropertyType | src/ReactiveMarbles.PropertyChanged.SourceGenerator.Builders/WhenChangedHostBuilder.cs:55-59 | afterwards `ValuePropertyTypeName` is the given string; changes no other field and returns the same builder |
| WhenChangedHostBuilder.WhenChangedHostBuilder.WithPropertyAccess | src/ReactiveMarbles.PropertyChanged.SourceGenerator.Builders/WhenChangedHostBuilder.cs:66-70 | sets only the property access and returns the same builder |
| WhenChangedHostBuilder.WhenChangedHostBuilder.WithInvocation | src/ReactiveMarbles.PropertyChanged.SourceGenerator.Builders/WhenChangedHostBuilder.cs:79-86 | sets only the invocation, to the invocation text of the expression, and returns the same builder |
| WhenChangedHostBuilder.WhenChangedHostBuilder.WithCombinedInvocation | src/ReactiveMarbles.PropertyChanged.SourceGenerator.Builders/WhenChangedHostBuilder.cs:97-106 | sets only the invocation, with the two expressions and the conversion function joined by ", "; returns the same builder |
| WhenChangedHostBuilder.WhenChangedHostBuilder.WithInvocationOfDepth | src/ReactiveMarbles.PropertyChanged.SourceGenerator.Builders/WhenChangedHostBuilder.cs:115-123 | sets only the invocation, to a call on the depth-N expression; returns the same builder |
| WhenChangedHostBuilder.WhenChangedHostBuilder.CreateClass | src/ReactiveMarbles.PropertyChanged.SourceGenerator.Builders/WhenChangedHostBuilder.cs:137-188 | the class text built from the current fields, with the property type name fixed up |

## Left out

Roslyn and generator plumbing, which the model takes as parameters or leaves out:

- **The semantic model.** How Roslyn computes the type of a node, the symbol of a node, the declared
  accessibility, `ToDisplayString` and `DeclaringSyntaxReferences` is left out; the results are the fields of
  the `SemanticModel` parameter. `Type` and `ConvertedType` are not told apart: an argument's converted type
  name is one field.
- **Sources and diagnostics.** `AddSource` and `ReportDiagnostic` become returned sequences; `AddSource`
  refuses a hint name it has seen before, ignoring case, by throwing `ArgumentException`. Its other checks
  (characters not allowed in a hint name, appending ".cs" to a name without it) are not modelled: class names
  are C# identifiers and every hint name the generator builds ends in ".cs". A generated source is its hint
  name and class datum; the text of the extension-class and partial-class creators that
  render it (`StringBuilderExtensionClassCreator`, `StringBuilderPartialClassCreator`) is not part of this
  model.
- **Printed syntax.** Roslyn's `SyntaxFactory`, `NormalizeWhitespace`, `ToFullString`,
  `WithStandardReactiveUsings` and the `RoslynHelpers` builders become constructors of an abstract syntax
  datatype; the printed text is not modelled.
- **Stub classes.** `GetWhenChangedStubClass` and `GetBindingStubClass` (`StringBuilderSourceCreatorHelper.cs`
  310-328) read embedded assembly resources.
- **The generated code at run time.** The runtime behaviour of the generated Rx code (`Observable.Create`,
  `Switch`, `CombineLatest`, event handlers) is not modelled; none of it executes in the generator.
- **Benchmarks.** The benchmark harness has no logic of its own.
- **Bind creators.** The Bind creators and how they render a file are not part of this model. They are
  parameters returning text or `null`, so the interfaces behind the one-way lists are not modelled.

Values the model takes as parameters:

- **`Expression<Func<...>>.ToString()`.** The host builder takes expressions as text. The constructor's
  `x => x.Value` is written out as that text.
- **`string.CompareTo`.** The culture-sensitive order is a parameter of the comparer.
- **`string.Equals(..., StringComparison.InvariantCulture)`.** The name comparison of the chain walk
  (`WhenChangedGenerator.cs` line 219) is the semantic model's `invariantCultureEquals`. `ChainRoundTrip` and
  `IdentityLambdaHasEmptyChain` require it to equate the parameter name with itself, which the culture's
  comparison does.
- **Named types.** `Type as INamedTypeSymbol` (`WhenChangedGenerator.cs` lines 195-196) is null for a type
  that is not a named type (an array, a pointer, a type parameter). The model's `isNamedType` says which types
  are named.
- **`ToFriendlyString`.** The keyword text of an accessibility is the parameter `friendly`.
- **Host builder helpers.** `GetNamespaces`, `MethodNames.GetWhenChangedObservable`, the builder's
  `ClassAccess` / `ClassName`, and `BaseUserSourceBuilder.GetTypeName` are not part of this model. Their
  results are parameters of `CreateClass`, or the stored type-name function.
- **`Environment.NewLine`.** It is taken to be "\n".
- **`char.ToUpperInvariant`.** `AddSource` compares hint names with `StringComparer.OrdinalIgnoreCase`, which
  compares the names after `ToUpperInvariant` maps each character. That mapping is the parameter `upper` of
  `GenerateWhenChanged`. The uniqueness lemmas require it to keep digits and map no other character to a
  digit (`KeepsDigits`), as the invariant upper-casing does.

Behaviour outside the model's domain:

- **`HashSet` order.** Enumerating a `HashSet` is taken to follow insertion order (`HashSetAdd` appends
  new elements).
- WhenChangedGenerator.HashSetAdd: the definitions of `ExpressionArgument` and `MultiExpressionMethodDatum`
  are not part of this model, and `HashSetAdd` assumes value equality on every field of both, the expression
  chain and the type names included. If they are C# records, their generated equality compares the
  `List` chain (`WhenChangedGenerator.cs` line 114) and the lazy `IEnumerable<string>` of type names
  (line 141) by reference. Two call sites with the same expression text would then stay two elements of the
  source's set, and a group could become a dictionary datum with a duplicate key, where the model keeps one
  element and produces an optimized datum.
- **Lambda forms.** Only expression-bodied lambdas are modelled; a block-bodied lambda has no body
  expression.
- **Member declarations.** In the restriction scan, `DeclaringSyntaxReferences.First().GetSyntax()` is
  called on the member symbol of each root-type hop (`WhenChangedGenerator.cs` line 262), and the accessibility
  of the declared symbol is read. The model's `declaredInSource` says whether the member has a declaration in
  source; `First()` throws `InvalidOperationException` when it has none. `memberAccessibility` is the
  declared accessibility.
- **Thrown exceptions.** A throw is an `Outcome` value; `GenerateWhenChanged` returns `Threw` and no
  output. What the compiler host then does (it drops the generator's output and reports warning CS8785) is not
  modelled.
- **`GetAutoGeneratedString`** (`StringBuilderSourceCreatorHelper.cs` line 22) returns a constant header. The
  class creators that print it are not part of this model.

Preconditions the model adds:

- WhenChangedGenerator.ExtractWhenChangedInvocationInfo: requires every call resolved to a
  `NotifyPropertyChangedExtensions` method to have a type argument (`WellFormed`). Every `WhenChanged`
  overload is generic; otherwise the source would throw on `TypeArguments[0]`.
- WhenChangedGenerator.GenerateWhenChanged: the same `WellFormed` requirement, for the same reason.
- WhenChangedHostBuilder.WhenChangedHostBuilder.WithInvocationOfDepth: requires depth >= 1.
  `Enumerable.Range(1, depth - 1)` throws for a depth below 1.
- RoslynWhenChangedPartialClassCreator.CreateMethodMembers: the `throw` arm for an unknown datum kind is
  absent. `MethodDatum` is a closed datatype of the three kinds, so the dispatch is exhaustive.

Other modelling decisions:

- **Lambda parameter matching.** The model follows the code, which compares the name text of the
  identifier (`WhenChangedGenerator.cs` line 219), not the symbol's identity. A chain rooted at any
  identifier spelled like the parameter is accepted.
- **Rejection diagnostics.** The model follows the code's two diagnostics.
  `OnlyPropertyAndFieldAccessAllowed` marks a walk that stops at a non-identifier.
  `LambdaParameterMustBeUsed` marks an identifier other than the parameter.
- **`WhenChangedHostBuilder.InvocationKind`.** Its value other than `MemberAccess` is named `Explicit`.
- **Multi-expression datum.** Its input type full name, temporary return types and output type are taken
  from `TypeNames`: the first element, the middle ones and the last.

Weaker contracts:

- WhenChangedGenerator.ExtensionSources: its ensures gives only the count. The hint names and data are its
  body; `ExtensionHintNamesDistinct` and `ExtensionHintNamesDistinctIgnoringCase` state when the hint names
  are distinct.
- WhenChangedGenerator.PartialSources: the same, with `PartialHintNamesDistinct` and
  `PartialHintNamesDistinctIgnoringCase`.

Consequences of the code as written, modelled as they are:

- A combinator is dropped without a diagnostic when no argument on its side has an input type of the same
  full name (`CombinatorEmittedIff`).
- Hint names built from a class name and an index can coincide for class names that end in a digit
  (`HintNamesCanCollide`). The generator then throws `ArgumentException` at the second `AddSource` of that
  name and adds no output (`HintNameCollisionThrows`). When no class name ends in a digit, this cannot
  happen (`WhenChangedHintNamesUnique`).

## Findings

| source | as written | input that shows it | evidently intended | confidence | as-written member | corrected member |
|---|---|---|---|---|---|---|
| src/ReactiveMarbles.PropertyChanged.SourceGenerator/TypeSymbolComparer.cs:37-45 | two named types compare by display string, every other non-null pair by `Name` | x named (Name "c", display "a"), y not named (Name "b"), z named (Name "a", display "b"): x < z and z < y, yet x > y | a consistent order for sorting: each symbol compared by one key | not executed | TypeSymbolComparer.CompareNotTransitive | TypeSymbolComparer.CompareByKeyIsTotalPreorder |
