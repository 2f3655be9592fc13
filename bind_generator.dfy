/**
 * `BindGenerator`: sorts the `Bind` call sites of one monitored type into four lists by kind and asks
 * the two-way creators for the extension file and the partial-class file. The creators are not part of
 * this model: they are parameters returning the text they render, or `None` for `null`.
 */
module BindGenerator {
  import opened Wrappers
  import opened Seqs
  import opened Text

  /**
   * The invocation kinds the switch tells apart, each carrying the call site it describes; `Other`
   * stands for every other kind of `InvocationInfo`, which no case matches.
   */
  datatype InvocationInfo =
    | ExtensionBindInvocationInfo(site: string)
    | PartialBindInvocationInfo(site: string)
    | PartialOneWayBindInvocationInfo(site: string)
    | ExtensionOneWayBindInvocationInfo(site: string)
    | OtherInvocationInfo(site: string)

  predicate IsExtensionBind(i: InvocationInfo) { i.ExtensionBindInvocationInfo? }
  predicate IsPartialBind(i: InvocationInfo) { i.PartialBindInvocationInfo? }
  predicate IsPartialOneWayBind(i: InvocationInfo) { i.PartialOneWayBindInvocationInfo? }
  predicate IsExtensionOneWayBind(i: InvocationInfo) { i.ExtensionOneWayBindInvocationInfo? }

  /** A generated file: its hint name and its source text. */
  datatype GeneratedFile = GeneratedFile(fileName: string, sourceCode: string)

  /** The creator of one file from the invocations of its list. */
  type Creator = seq<InvocationInfo> -> Option<string>

  /** One conditional `yield return`: the file when the source is not null or white space. */
  function YieldIfNotBlank(fileName: string, source: Option<string>): (r: seq<GeneratedFile>)
    ensures |r| <= 1
    ensures r != [] <==> !IsNullOrWhiteSpace(source)
    ensures r != [] ==> r == [GeneratedFile(fileName, source.value)]
  {
    if !IsNullOrWhiteSpace(source) then [GeneratedFile(fileName, source.value)] else []
  }

  function ExtensionsFileName(typeName: string): string { typeName + "_Bind.extensions.g.cs" }
  function PartialFileName(typeName: string): string { typeName + "_Bind.partial.g.cs" }

  /** The files of one monitored type: the extensions file, then the partial file, each only when not blank. */
  function BindFiles(typeName: string, invocations: seq<InvocationInfo>, extensionCreator: Creator, partialCreator: Creator)
    : seq<GeneratedFile>
  {
    YieldIfNotBlank(ExtensionsFileName(typeName), extensionCreator(Filter(invocations, IsExtensionBind))) +
    YieldIfNotBlank(PartialFileName(typeName), partialCreator(Filter(invocations, IsPartialBind)))
  }

  /** The `foreach`/`switch` of `GenerateSourceFromInvocations`: every invocation into the list of its kind. */
  method Partition(invocations: seq<InvocationInfo>)
    returns (publicInvocations: seq<InvocationInfo>, privateInvocations: seq<InvocationInfo>,
             publicOneWayInvocations: seq<InvocationInfo>, privateOneWayInvocations: seq<InvocationInfo>)
    ensures publicInvocations == Filter(invocations, IsExtensionBind)
    ensures privateInvocations == Filter(invocations, IsPartialBind)
    ensures publicOneWayInvocations == Filter(invocations, IsExtensionOneWayBind)
    ensures privateOneWayInvocations == Filter(invocations, IsPartialOneWayBind)
  {
    publicInvocations, privateInvocations, publicOneWayInvocations, privateOneWayInvocations := [], [], [], [];
    for i := 0 to |invocations|
      invariant publicInvocations == Filter(invocations[..i], IsExtensionBind)
      invariant privateInvocations == Filter(invocations[..i], IsPartialBind)
      invariant publicOneWayInvocations == Filter(invocations[..i], IsExtensionOneWayBind)
      invariant privateOneWayInvocations == Filter(invocations[..i], IsPartialOneWayBind)
    {
      assert invocations[..i + 1][..i] == invocations[..i];
      match invocations[i]
      case ExtensionBindInvocationInfo(_) =>
        publicInvocations := publicInvocations + [invocations[i]];
      case PartialBindInvocationInfo(_) =>
        privateInvocations := privateInvocations + [invocations[i]];
      case PartialOneWayBindInvocationInfo(_) =>
        privateOneWayInvocations := privateOneWayInvocations + [invocations[i]];
      case ExtensionOneWayBindInvocationInfo(_) =>
        publicOneWayInvocations := publicOneWayInvocations + [invocations[i]];
      case OtherInvocationInfo(_) =>
    }
    assert invocations[..|invocations|] == invocations;
  }

  method GenerateSourceFromInvocations(typeName: string, invocations: seq<InvocationInfo>,
                                       extensionCreator: Creator, partialCreator: Creator)
    returns (files: seq<GeneratedFile>)
    ensures files == BindFiles(typeName, invocations, extensionCreator, partialCreator)
  {
    var publicInvocations, privateInvocations, publicOneWayInvocations, privateOneWayInvocations := Partition(invocations);
    files := [];
    var extensionsSource := extensionCreator(publicInvocations);
    if !IsNullOrWhiteSpace(extensionsSource) {
      files := files + [GeneratedFile(typeName + "_Bind.extensions.g.cs", extensionsSource.value)];
    }
    var partialSource := partialCreator(privateInvocations);
    if !IsNullOrWhiteSpace(partialSource) {
      files := files + [GeneratedFile(typeName + "_Bind.partial.g.cs", partialSource.value)];
    }
  }

  /** How many of the four lists an invocation lands in. */
  function ListsHolding(i: InvocationInfo): nat
  {
    (if IsExtensionBind(i) then 1 else 0) + (if IsPartialBind(i) then 1 else 0) +
    (if IsPartialOneWayBind(i) then 1 else 0) + (if IsExtensionOneWayBind(i) then 1 else 0)
  }

  /** An invocation lands in exactly one list, unless its kind is none of the four, when it is dropped. */
  lemma AtMostOneList(i: InvocationInfo)
    ensures ListsHolding(i) == (if i.OtherInvocationInfo? then 0 else 1)
  {
  }

  /** The four lists hold, between them, every invocation but those of other kinds, each once. */
  lemma {:induction false} PartitionCounts(invocations: seq<InvocationInfo>)
    ensures |Filter(invocations, IsExtensionBind)| + |Filter(invocations, IsPartialBind)| +
            |Filter(invocations, IsPartialOneWayBind)| + |Filter(invocations, IsExtensionOneWayBind)| +
            |Filter(invocations, (i: InvocationInfo) => i.OtherInvocationInfo?)| == |invocations|
  {
    if invocations != [] {
      PartitionCounts(invocations[..|invocations| - 1]);
    }
  }

  /** At most two files, the extensions file first. */
  lemma FileOrder(typeName: string, invocations: seq<InvocationInfo>, extensionCreator: Creator, partialCreator: Creator)
    ensures var files := BindFiles(typeName, invocations, extensionCreator, partialCreator);
            |files| <= 2 &&
            (|files| == 2 ==> files[0].fileName == ExtensionsFileName(typeName) &&
                              files[1].fileName == PartialFileName(typeName))
  {
  }

  /** The extensions file is yielded exactly when the extension creator renders text that is not blank. */
  lemma ExtensionsFileYielded(typeName: string, invocations: seq<InvocationInfo>, extensionCreator: Creator, partialCreator: Creator)
    ensures var files := BindFiles(typeName, invocations, extensionCreator, partialCreator);
            var source := extensionCreator(Filter(invocations, IsExtensionBind));
            (exists f <- files :: f.fileName == ExtensionsFileName(typeName)) <==> !IsNullOrWhiteSpace(source)
  {
    var files := BindFiles(typeName, invocations, extensionCreator, partialCreator);
    var source := extensionCreator(Filter(invocations, IsExtensionBind));
    if !IsNullOrWhiteSpace(source) {
      assert files[0].fileName == ExtensionsFileName(typeName);
    } else {
      FileNamesDiffer(typeName);
    }
  }

  /** The partial file is yielded exactly when the partial creator renders text that is not blank. */
  lemma PartialFileYielded(typeName: string, invocations: seq<InvocationInfo>, extensionCreator: Creator, partialCreator: Creator)
    ensures var files := BindFiles(typeName, invocations, extensionCreator, partialCreator);
            var source := partialCreator(Filter(invocations, IsPartialBind));
            (exists f <- files :: f.fileName == PartialFileName(typeName)) <==> !IsNullOrWhiteSpace(source)
  {
    var files := BindFiles(typeName, invocations, extensionCreator, partialCreator);
    var source := partialCreator(Filter(invocations, IsPartialBind));
    if !IsNullOrWhiteSpace(source) {
      assert files[|files| - 1].fileName == PartialFileName(typeName);
    } else {
      FileNamesDiffer(typeName);
    }
  }

  /** The two hint names of a type differ. */
  lemma FileNamesDiffer(typeName: string)
    ensures ExtensionsFileName(typeName) != PartialFileName(typeName)
  {
    var e := ExtensionsFileName(typeName);
    var p := PartialFileName(typeName);
    assert e[|typeName| + 6] == 'e' && p[|typeName| + 6] == 'p';
  }

  /**
   * One-way invocations, and invocations of other kinds, are collected but reach no creator: adding
   * them anywhere leaves the files as they were.
   */
  lemma {:induction false} OneWayInvocationsContributeNothing(
    typeName: string, before: seq<InvocationInfo>, ignored: seq<InvocationInfo>, after: seq<InvocationInfo>,
    extensionCreator: Creator, partialCreator: Creator)
    requires forall i <- ignored :: !IsExtensionBind(i) && !IsPartialBind(i)
    ensures BindFiles(typeName, before + ignored + after, extensionCreator, partialCreator) ==
            BindFiles(typeName, before + after, extensionCreator, partialCreator)
  {
    KeptAcrossIgnored(before, ignored, after, IsExtensionBind);
    KeptAcrossIgnored(before, ignored, after, IsPartialBind);
  }

  lemma KeptAcrossIgnored<T>(before: seq<T>, ignored: seq<T>, after: seq<T>, p: T -> bool)
    requires forall x <- ignored :: !p(x)
    ensures Filter(before + ignored + after, p) == Filter(before + after, p)
  {
    NothingKept(ignored, p);
    FilterAppend(before + ignored, after, p);
    FilterAppend(before, ignored, p);
    FilterAppend(before, after, p);
    assert Filter(before + ignored, p) == Filter(before, p);
  }

  lemma NothingKept<T>(xs: seq<T>, p: T -> bool)
    requires forall x <- xs :: !p(x)
    ensures Filter(xs, p) == []
  {
    if Filter(xs, p) != [] {
      assert Filter(xs, p)[0] in Filter(xs, p);
    }
  }
}
