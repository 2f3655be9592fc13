/**
 * `WhenChangedHostBuilder`: the test-source builder of a "host" class, a class that holds a `WhenChanged`
 * invocation. The builder keeps three fields that its `With*` methods overwrite and renders them into
 * the class text. Lambda expressions arrive as their `Expression.ToString()` text, and the members it
 * inherits from its base builder (`ClassAccess`, `ClassName`, `GetTypeName`) arrive as parameters.
 */
module WhenChangedHostBuilder {
  import opened CodeAnalysis
  import opened Text

  /** How the generated code calls `WhenChanged`: as an extension method, or through its static class. */
  datatype InvocationKind = MemberAccess | Explicit

  /** What the generated code calls `WhenChanged` on: `this`, or the local `instance`. */
  datatype ReceiverKind = This | Instance

  function ReceiverText(receiverKind: ReceiverKind): (receiver: string)
    ensures receiver == "this" <==> receiverKind == This
  {
    if receiverKind == This then "this" else "instance"
  }

  /** `GetWhenChangedInvocation`: the call of `WhenChanged` with `args` on the receiver. */
  function GetWhenChangedInvocation(invocationKind: InvocationKind, receiverKind: ReceiverKind, args: string): string
  {
    var receiver := ReceiverText(receiverKind);
    if invocationKind == MemberAccess then receiver + ".WhenChanged(" + args + ")"
    else ExplicitCall + receiver + ", " + args + ")"
  }

  /** The text of an invocation before its arguments. */
  function InvocationPrefix(invocationKind: InvocationKind, receiverKind: ReceiverKind): string
  {
    if invocationKind == MemberAccess then ReceiverText(receiverKind) + ".WhenChanged("
    else ExplicitCall + ReceiverText(receiverKind) + ", "
  }

  /** Every invocation is its prefix, the arguments and a closing parenthesis. */
  lemma InvocationShape(invocationKind: InvocationKind, receiverKind: ReceiverKind, args: string)
    ensures GetWhenChangedInvocation(invocationKind, receiverKind, args) == InvocationPrefix(invocationKind, receiverKind) + args + ")"
  {
  }

  /** Reads the arguments back out of an invocation of the given kinds. */
  function ArgumentsOf(invocationKind: InvocationKind, receiverKind: ReceiverKind, invocation: string): string
    requires |InvocationPrefix(invocationKind, receiverKind)| < |invocation|
  {
    invocation[|InvocationPrefix(invocationKind, receiverKind)|..|invocation| - 1]
  }

  /** The arguments of an invocation can be read back from its text. */
  lemma ArgumentsRoundTrip(invocationKind: InvocationKind, receiverKind: ReceiverKind, args: string)
    ensures |InvocationPrefix(invocationKind, receiverKind)| < |GetWhenChangedInvocation(invocationKind, receiverKind, args)|
    ensures ArgumentsOf(invocationKind, receiverKind, GetWhenChangedInvocation(invocationKind, receiverKind, args)) == args
  {
    var prefix := InvocationPrefix(invocationKind, receiverKind);
    var text := GetWhenChangedInvocation(invocationKind, receiverKind, args);
    InvocationShape(invocationKind, receiverKind, args);
    assert text[|prefix|..|text| - 1] == args;
  }

  /** The name of the static class an explicit invocation goes through, with `.WhenChanged(`. */
  const ExplicitCall: string := "NotifyPropertyChangedExtensions.WhenChanged("

  /** Reads the invocation kind back from an invocation: only the explicit form starts with `N`. */
  function InvocationKindOf(invocation: string): InvocationKind
  {
    if |invocation| > 0 && invocation[0] == 'N' then Explicit else MemberAccess
  }

  /** Reads the receiver kind back from an invocation: the first letter of the receiver tells `this` from `instance`. */
  function ReceiverKindOf(invocation: string): ReceiverKind
  {
    var at := if InvocationKindOf(invocation) == MemberAccess then 0 else |ExplicitCall|;
    if at < |invocation| && invocation[at] == 't' then This else Instance
  }

  /** The kinds of an invocation can be read back from its text. */
  lemma KindsRoundTrip(invocationKind: InvocationKind, receiverKind: ReceiverKind, args: string)
    ensures InvocationKindOf(GetWhenChangedInvocation(invocationKind, receiverKind, args)) == invocationKind
    ensures ReceiverKindOf(GetWhenChangedInvocation(invocationKind, receiverKind, args)) == receiverKind
  {
    var receiver := ReceiverText(receiverKind);
    var text := GetWhenChangedInvocation(invocationKind, receiverKind, args);
    assert receiver[0] == (if receiverKind == This then 't' else 'i');
    if invocationKind == MemberAccess {
      assert text == receiver + (".WhenChanged(" + args + ")");
      assert text[0] == receiver[0];
    } else {
      assert text == ExplicitCall + (receiver + ", " + args + ")");
      assert ExplicitCall[0] == 'N';
      assert text[0] == 'N';
      assert text[|ExplicitCall|] == receiver[0];
    }
  }

  /** The invocation text determines the invocation kind, the receiver kind and the arguments. */
  lemma InvocationInjective(k1: InvocationKind, r1: ReceiverKind, a1: string, k2: InvocationKind, r2: ReceiverKind, a2: string)
    requires GetWhenChangedInvocation(k1, r1, a1) == GetWhenChangedInvocation(k2, r2, a2)
    ensures k1 == k2 && r1 == r2 && a1 == a2
  {
    KindsRoundTrip(k1, r1, a1);
    KindsRoundTrip(k2, r2, a2);
    ArgumentsRoundTrip(k1, r1, a1);
    ArgumentsRoundTrip(k2, r2, a2);
  }

  /** The invocation a new builder starts with. */
  lemma DefaultInvocation()
    ensures GetWhenChangedInvocation(MemberAccess, This, "x => x.Value") == "this.WhenChanged(x => x.Value)"
  {
  }

  /** `Enumerable.Range(1, n).Select(_ => "Child")`. */
  function Children(n: nat): (r: seq<string>)
    ensures |r| == n
  {
    if n == 0 then [] else Children(n - 1) + ["Child"]
  }

  /**
   * The depth-`depth` expression: `x => x`, then `depth - 1` times `Child`, then `Value`, joined by dots.
   * `Enumerable.Range` throws for a negative count, so the code needs `depth >= 1`.
   */
  function DepthExpression(depth: int): string
    requires depth >= 1
  {
    Join(".", ["x => x"] + Children(depth - 1) + ["Value"])
  }

  lemma {:induction false} JoinChildren(n: nat)
    ensures Join(".", ["x => x"] + Children(n)) == "x => x" + Repeat(".Child", n)
  {
    if n == 0 {
      assert ["x => x"] + Children(0) == ["x => x"];
    } else {
      var front := ["x => x"] + Children(n - 1);
      JoinChildren(n - 1);
      assert ["x => x"] + Children(n) == front + ["Child"];
      JoinSnoc(".", front, "Child");
      AppendAssociative("x => x", Repeat(".Child", n - 1), ".Child");
    }
  }

  /** The expression is `x => x`, `depth - 1` copies of `.Child`, then `.Value`; depth 1 is `x => x.Value`. */
  lemma DepthExpressionShape(depth: int)
    requires depth >= 1
    ensures DepthExpression(depth) == "x => x" + Repeat(".Child", depth - 1) + ".Value"
    ensures depth == 1 ==> DepthExpression(depth) == "x => x.Value"
  {
    JoinSnoc(".", ["x => x"] + Children(depth - 1), "Value");
    JoinChildren(depth - 1);
    AppendAssociative("x => x" + Repeat(".Child", depth - 1), ".", "Value");
  }

  /** `propertyTypeName.Replace('+', '.')`: a nested type's name as it is written in source. */
  function SourceTypeName(typeName: string): string
  {
    ReplaceChar(typeName, '+', '.')
  }

  /** After the fix-up no `'+'` is left, the other characters stay, and fixing up twice changes nothing. */
  lemma SourceTypeNameFixUp(typeName: string)
    ensures |SourceTypeName(typeName)| == |typeName|
    ensures forall i :: 0 <= i < |typeName| ==> SourceTypeName(typeName)[i] != '+'
    ensures forall i :: 0 <= i < |typeName| && typeName[i] != '+' ==> SourceTypeName(typeName)[i] == typeName[i]
    ensures SourceTypeName(SourceTypeName(typeName)) == SourceTypeName(typeName)
  {
  }

  // ---------------------------------------------------------------------------------------------
  // The class template, in pieces

  function ValueFieldDeclaration(propertyTypeName: string): string
  {
    "private " + propertyTypeName + " _value;"
  }

  function ReturnInvocation(invocation: string): string
  {
    "return " + invocation + ";"
  }

  function ClassOpening(classAccess: string, className: string): string
  {
    "\n    " + classAccess + " partial class " + className + " : INotifyPropertyChanged\n    {\n        "
  }

  /** From the `_child` field to the `return` of the observable method. */
  function MembersBeforeReturn(className: string, propertyAccess: string, propertyTypeName: string, methodName: string): string
  {
    "\n        private " + className + " _child;\n\n" +
    "        public event PropertyChangedEventHandler PropertyChanged;\n\n" +
    "        " + propertyAccess + " " + propertyTypeName + " Value\n        {\n            get => _value;\n" +
    "            set => RaiseAndSetIfChanged(ref _value, value);\n        }\n\n" +
    "        " + propertyAccess + " " + className + " Child\n        {\n            get => _child;\n" +
    "            set => RaiseAndSetIfChanged(ref _child, value);\n        }\n        \n" +
    "        public IObservable<object> " + methodName + "()\n        {\n            var instance = this;\n" +
    "            "
  }

  /** From the end of the `return` statement to the end of the class. */
  function ClassClosing(nestedClasses: string): string
  {
    "\n        }\n\n" +
    "        protected void RaiseAndSetIfChanged<T>(ref T fieldValue, T value, [CallerMemberName] string propertyName = null)\n" +
    "        {\n            if (EqualityComparer<T>.Default.Equals(fieldValue, value))\n            {\n" +
    "                return;\n            }\n\n            fieldValue = value;\n            OnPropertyChanged(propertyName);\n" +
    "        }\n\n        protected virtual void OnPropertyChanged(string propertyName)\n        {\n" +
    "            PropertyChanged?.Invoke(this, new PropertyChangedEventArgs(propertyName));\n        }\n\n" +
    "        " + nestedClasses + "\n    }\n"
  }

  /** The host class: the `Value` and `Child` properties, the observable method and the nested classes. */
  function ClassText(classAccess: string, className: string, propertyAccess: string, propertyTypeName: string,
                     methodName: string, invocation: string, nestedClasses: string): string
  {
    ClassOpening(classAccess, className) + ValueFieldDeclaration(propertyTypeName) +
    ClassAfterValueField(className, propertyAccess, propertyTypeName, methodName, invocation, nestedClasses)
  }

  function ClassAfterValueField(className: string, propertyAccess: string, propertyTypeName: string, methodName: string,
                                invocation: string, nestedClasses: string): string
  {
    MembersBeforeReturn(className, propertyAccess, propertyTypeName, methodName) + ReturnInvocation(invocation) +
    ClassClosing(nestedClasses)
  }

  /** The class declares its `_value` field with the given type name. */
  lemma ClassDeclaresValueField(classAccess: string, className: string, propertyAccess: string, propertyTypeName: string,
                                methodName: string, invocation: string, nestedClasses: string)
    ensures Contains(ClassText(classAccess, className, propertyAccess, propertyTypeName, methodName, invocation, nestedClasses),
                     ValueFieldDeclaration(propertyTypeName))
  {
    var opening := ClassOpening(classAccess, className);
    var field := ValueFieldDeclaration(propertyTypeName);
    ContainsLast(opening, field);
    ContainsPrefix(opening + field, field,
                   ClassAfterValueField(className, propertyAccess, propertyTypeName, methodName, invocation, nestedClasses));
  }

  /** The observable method of the class returns the invocation. */
  lemma ClassReturnsInvocation(classAccess: string, className: string, propertyAccess: string, propertyTypeName: string,
                               methodName: string, invocation: string, nestedClasses: string)
    ensures Contains(ClassText(classAccess, className, propertyAccess, propertyTypeName, methodName, invocation, nestedClasses),
                     ReturnInvocation(invocation))
  {
    AfterValueFieldReturns(className, propertyAccess, propertyTypeName, methodName, invocation, nestedClasses);
    ContainsSuffix(ClassOpening(classAccess, className) + ValueFieldDeclaration(propertyTypeName),
                   ClassAfterValueField(className, propertyAccess, propertyTypeName, methodName, invocation, nestedClasses),
                   ReturnInvocation(invocation));
  }

  lemma AfterValueFieldReturns(className: string, propertyAccess: string, propertyTypeName: string, methodName: string,
                               invocation: string, nestedClasses: string)
    ensures Contains(ClassAfterValueField(className, propertyAccess, propertyTypeName, methodName, invocation, nestedClasses),
                     ReturnInvocation(invocation))
  {
    var members := MembersBeforeReturn(className, propertyAccess, propertyTypeName, methodName);
    var ret := ReturnInvocation(invocation);
    ContainsLast(members, ret);
    ContainsPrefix(members + ret, ret, ClassClosing(nestedClasses));
  }

  lemma JoinThree(separator: string, a: string, b: string, c: string)
    ensures Join(separator, [a, b, c]) == a + separator + b + separator + c
  {
    assert [a, b, c][..2] == [a, b];
    assert [a, b][..1] == [a];
    assert Join(separator, [a, b]) == a + separator + b;
  }

  // ---------------------------------------------------------------------------------------------
  // The builder

  class WhenChangedHostBuilder {
    var propertyAccess: Accessibility
    var propertyTypeNameFunc: () -> string
    var invocation: string

    /** `Public` access, type `string`, and `this.WhenChanged(x => x.Value)`. */
    constructor ()
      ensures propertyAccess == Public
      ensures ValuePropertyTypeName() == "string"
      ensures invocation == GetWhenChangedInvocation(MemberAccess, This, "x => x.Value")
    {
      propertyAccess := Public;
      propertyTypeNameFunc := () => "string";
      invocation := GetWhenChangedInvocation(MemberAccess, This, "x => x.Value");
    }

    /** The type name of the `Value` property, as the stored function gives it now. */
    function ValuePropertyTypeName(): string
      reads this
    {
      propertyTypeNameFunc()
    }

    /** `WithPropertyType(BaseUserSourceBuilder)`: the type name is whatever the other builder's `GetTypeName` gives. */
    method WithPropertyTypeOf(getTypeName: () -> string) returns (self: WhenChangedHostBuilder)
      modifies this
      ensures self == this
      ensures propertyTypeNameFunc == getTypeName
      ensures propertyAccess == old(propertyAccess) && invocation == old(invocation)
    {
      propertyTypeNameFunc := getTypeName;
      self := this;
    }

    method WithPropertyType(value: string) returns (self: WhenChangedHostBuilder)
      modifies this
      ensures self == this
      ensures ValuePropertyTypeName() == value
      ensures propertyAccess == old(propertyAccess) && invocation == old(invocation)
    {
      propertyTypeNameFunc := () => value;
      self := this;
    }

    method WithPropertyAccess(value: Accessibility) returns (self: WhenChangedHostBuilder)
      modifies this
      ensures self == this
      ensures propertyAccess == value
      ensures unchanged(this`propertyTypeNameFunc) && invocation == old(invocation)
    {
      propertyAccess := value;
      self := this;
    }

    /** `WithInvocation(kind, receiver, expression)`, with the expression as its printed text. */
    method WithInvocation(invocationKind: InvocationKind, receiverKind: ReceiverKind, expression: string)
      returns (self: WhenChangedHostBuilder)
      modifies this
      ensures self == this
      ensures invocation == GetWhenChangedInvocation(invocationKind, receiverKind, expression)
      ensures unchanged(this`propertyTypeNameFunc) && propertyAccess == old(propertyAccess)
    {
      invocation := GetWhenChangedInvocation(invocationKind, receiverKind, expression);
      self := this;
    }

    /** The two-expression overload: both expressions and the conversion function, separated by `", "`. */
    method WithCombinedInvocation(invocationKind: InvocationKind, receiverKind: ReceiverKind,
                                  expression1: string, expression2: string, conversionFunc: string)
      returns (self: WhenChangedHostBuilder)
      modifies this
      ensures self == this
      ensures invocation == GetWhenChangedInvocation(invocationKind, receiverKind, Join(", ", [expression1, expression2, conversionFunc]))
      ensures unchanged(this`propertyTypeNameFunc) && propertyAccess == old(propertyAccess)
    {
      JoinThree(", ", expression1, expression2, conversionFunc);
      invocation := GetWhenChangedInvocation(invocationKind, receiverKind, expression1 + ", " + expression2 + ", " + conversionFunc);
      self := this;
    }

    /** The depth overload: a chain of `depth - 1` `Child` hops ending in `Value`. */
    method WithInvocationOfDepth(depth: int, invocationKind: InvocationKind, receiverKind: ReceiverKind)
      returns (self: WhenChangedHostBuilder)
      requires depth >= 1
      modifies this
      ensures self == this
      ensures invocation == GetWhenChangedInvocation(invocationKind, receiverKind, DepthExpression(depth))
      ensures unchanged(this`propertyTypeNameFunc) && propertyAccess == old(propertyAccess)
    {
      var expression := Join(".", ["x => x"] + Children(depth - 1) + ["Value"]);
      invocation := GetWhenChangedInvocation(invocationKind, receiverKind, expression);
      self := this;
    }

    /** `CreateClass(nestedClasses)`: the host class around the nested classes, the type name fixed up. */
    method CreateClass(classAccess: string, className: string, methodName: string, nestedClasses: string,
                       friendly: Accessibility -> string)
      returns (text: string)
      ensures text == ClassText(classAccess, className, friendly(propertyAccess), SourceTypeName(ValuePropertyTypeName()),
                                methodName, invocation, nestedClasses)
    {
      var access := friendly(propertyAccess);
      var propertyTypeName := propertyTypeNameFunc();
      propertyTypeName := ReplaceChar(propertyTypeName, '+', '.');
      text := ClassText(classAccess, className, access, propertyTypeName, methodName, invocation, nestedClasses);
    }
  }
}
