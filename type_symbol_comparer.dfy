/** `TypeSymbolComparer.Compare`: orders type symbols, `null` last. */
module TypeSymbolComparer {
  import opened Wrappers

  /**
   * A type symbol handle. Equal handles are the same symbol (C# `ReferenceEquals`); `isNamedType`
   * says whether the symbol is an `INamedTypeSymbol`.
   */
  datatype TypeSymbol = TypeSymbol(handle: nat, isNamedType: bool, name: string, displayString: string)

  /** The sign of a comparison result. */
  function Sign(n: int): (s: int)
    ensures s in {-1, 0, 1}
    ensures (s < 0) == (n < 0) && (s == 0) == (n == 0)
  {
    if n < 0 then -1 else if n == 0 then 0 else 1
  }

  /**
   * `Compare(x, y)`. `None` stands for `null`; `compareTo` is `string.CompareTo`, whose
   * culture-dependent order is left abstract.
   */
  function Compare(x: Option<TypeSymbol>, y: Option<TypeSymbol>, compareTo: (string, string) -> int): (r: int)
    ensures x.None? && y.None? ==> r == 0
    ensures x.None? && y.Some? ==> r == 1
    ensures x.Some? && y.None? ==> r == -1
    ensures x.Some? && x == y ==> r == 0
    ensures x.Some? && y.Some? && x != y && x.value.isNamedType && y.value.isNamedType ==>
              r == compareTo(x.value.displayString, y.value.displayString)
    ensures x.Some? && y.Some? && x != y && !(x.value.isNamedType && y.value.isNamedType) ==>
              r == compareTo(x.value.name, y.value.name)
  {
    if x.None? && y.None? then 0
    else if x.None? then 1
    else if y.None? then -1
    else if x == y then 0
    else if x.value.isNamedType && y.value.isNamedType then compareTo(x.value.displayString, y.value.displayString)
    else compareTo(x.value.name, y.value.name)
  }

  ghost predicate Antisymmetric(compareTo: (string, string) -> int)
  {
    forall a, b :: Sign(compareTo(a, b)) == -Sign(compareTo(b, a))
  }

  /** If the string comparison is antisymmetric, so is the comparer, `null` cases included. */
  lemma CompareAntisymmetric(x: Option<TypeSymbol>, y: Option<TypeSymbol>, compareTo: (string, string) -> int)
    requires Antisymmetric(compareTo)
    ensures Sign(Compare(x, y, compareTo)) == -Sign(Compare(y, x, compareTo))
  {
  }

  /**
   * The comparer is not transitive once named and other types are mixed: a named type is compared
   * with a named type by display string but with any other type by `Name`. Three symbols form a cycle
   * under any string order that puts "a" before "b" before "c".
   */
  lemma CompareNotTransitive(compareTo: (string, string) -> int)
    requires compareTo("a", "b") < 0 && compareTo("c", "b") > 0
    ensures var x, y, z := Some(TypeSymbol(1, true, "c", "a")), Some(TypeSymbol(2, false, "b", "b")),
                           Some(TypeSymbol(3, true, "a", "b"));
            Compare(x, z, compareTo) < 0 && Compare(z, y, compareTo) < 0 && Compare(x, y, compareTo) > 0
  {
  }

  /** The string a symbol is ordered by in the corrected comparer. */
  function SortKey(t: TypeSymbol): string
  {
    if t.isNamedType then t.displayString else t.name
  }

  /** A corrected comparer: `null` last, then every symbol by one key, so the order is consistent. */
  function CompareByKey(x: Option<TypeSymbol>, y: Option<TypeSymbol>, compareTo: (string, string) -> int): (r: int)
    ensures x.None? && y.None? ==> r == 0
    ensures x.None? && y.Some? ==> r == 1
    ensures x.Some? && y.None? ==> r == -1
  {
    if x.None? && y.None? then 0
    else if x.None? then 1
    else if y.None? then -1
    else if x == y then 0
    else compareTo(SortKey(x.value), SortKey(y.value))
  }

  ghost predicate TotalPreorder(compareTo: (string, string) -> int)
  {
    && (forall a :: compareTo(a, a) == 0)
    && (forall a, b :: compareTo(a, b) <= 0 || compareTo(b, a) <= 0)
    && (forall a, b, c :: compareTo(a, b) <= 0 && compareTo(b, c) <= 0 ==> compareTo(a, c) <= 0)
  }

  /** Over a string order, the corrected comparer is itself transitive and total. */
  lemma CompareByKeyIsTotalPreorder(x: Option<TypeSymbol>, y: Option<TypeSymbol>, z: Option<TypeSymbol>,
                                    compareTo: (string, string) -> int)
    requires TotalPreorder(compareTo)
    ensures CompareByKey(x, y, compareTo) <= 0 || CompareByKey(y, x, compareTo) <= 0
    ensures CompareByKey(x, y, compareTo) <= 0 && CompareByKey(y, z, compareTo) <= 0 ==>
              CompareByKey(x, z, compareTo) <= 0
  {
    if x.Some? && y.Some? && z.Some? {
      assert CompareByKey(x, y, compareTo) == compareTo(SortKey(x.value), SortKey(y.value));
      assert CompareByKey(y, z, compareTo) == compareTo(SortKey(y.value), SortKey(z.value));
      assert CompareByKey(x, z, compareTo) == compareTo(SortKey(x.value), SortKey(z.value));
    }
  }
}
