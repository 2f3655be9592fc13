/** The data the analysis hands to the renderers: chain links, method data and class data. */
module Datums {
  import opened CodeAnalysis

  /** One hop `(Name, InputType, OutputType)` of an expression chain, types by display string. */
  datatype Link = Link(name: string, inputType: string, outputType: string)

  /** One entry of a dispatch map: the lambda body text and the chain it stands for. */
  datatype MapEntryDatum = MapEntryDatum(key: string, members: seq<Link>)

  datatype MapDatum = MapDatum(mapName: string, entries: seq<MapEntryDatum>)

  /** The three shapes of generated `WhenChanged` method. */
  datatype MethodDatum =
    | SingleExpressionOptimizedImplMethodDatum(
        inputTypeName: string, outputTypeName: string, accessModifier: Accessibility, members: seq<Link>)
    | SingleExpressionDictionaryImplMethodDatum(
        inputTypeName: string, outputTypeName: string, accessModifier: Accessibility, mapDatum: MapDatum)
    | MultiExpressionMethodDatum(
        accessModifier: Accessibility, inputTypeFullName: string, tempReturnTypes: seq<string>,
        outputTypeName: string, containsPrivateOrProtectedTypeArgument: bool)

  /**
   * `new MultiExpressionMethodDatum(accessModifier, typeNames, flag)`: the type arguments of a
   * `WhenChanged(e1, ..., eN, conversionFunc)` call are the input type, the N temporary return types
   * and the output type, in that order.
   */
  function NewMultiExpressionMethodDatum(accessModifier: Accessibility, typeNames: seq<string>, flag: bool): (d: MethodDatum)
    requires |typeNames| >= 2
    ensures d.MultiExpressionMethodDatum?
    ensures [d.inputTypeFullName] + d.tempReturnTypes + [d.outputTypeName] == typeNames
    ensures d.accessModifier == accessModifier && d.containsPrivateOrProtectedTypeArgument == flag
  {
    MultiExpressionMethodDatum(accessModifier, typeNames[0], typeNames[1..|typeNames| - 1], typeNames[|typeNames| - 1], flag)
  }

  /** An enclosing class of a partial class, innermost first. */
  datatype AncestorClassInfo = AncestorClassInfo(name: string, accessModifier: Accessibility)

  /** The members generated into a partial declaration of the monitored type itself. */
  datatype PartialClassDatum = PartialClassDatum(
    namespaceName: string, name: string, accessModifier: Accessibility,
    ancestorClasses: seq<AncestorClassInfo>, methodData: seq<MethodDatum>)

  /** The members generated into the public extension class for one monitored type. */
  datatype ExtensionClassDatum = ExtensionClassDatum(name: string, methodData: seq<MethodDatum>)
}
