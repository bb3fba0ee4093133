/** TypeDeclarationExtentions: filters over sequences of type views and the
    flattening queries that collect the nested declarations of every view. */
module TypeQueries {
  import opened Results
  import opened Seqs
  import opened Text
  import opened Syntax
  import AttributeModel
  import ParameterModel
  import MethodModel
  import opened TypeModel

  // ---------------------------------------------------------------------
  // Filters

  /** The test `x => x.GetMethods().Any(pred)`. It hands pred method views
      that carry the type as parent; Legacy.MethodTest has the same shape
      over the earlier accessor, whose views carry none, so the two differ
      for a pred that reads the parent. */
  function MethodTest(pred: MethodModel.MethodDeclaration -> bool): (test: TypeDeclaration -> bool)
    ensures forall x :: test(x) <==> exists m :: m in GetMethods(x) && pred(m)
  {
    x => Any(pred, GetMethods(x))
  }

  /** The types declaring a method (not a constructor) that passes pred, in order. */
  function WithMethods(source: seq<TypeDeclaration>, pred: MethodModel.MethodDeclaration -> bool)
    : (r: seq<TypeDeclaration>)
    ensures Subsequence(r, source)
    ensures forall x :: x in r <==>
              x in source &&
              exists c :: c in x.syntaxNode.children && IsMethod(c) && pred(MethodModel.MethodDeclaration(c, Some(x.syntaxNode)))
    ensures KeepsCopies(r, source, MethodTest(pred))
  {
    FilterCounts(MethodTest(pred), source);
    var r := Filter(MethodTest(pred), source);
    assert forall x :: x in r <==>
             x in source &&
             exists c :: c in x.syntaxNode.children && IsMethod(c) && pred(MethodModel.MethodDeclaration(c, Some(x.syntaxNode))) by {
      forall x | x in source && (exists c :: c in x.syntaxNode.children && IsMethod(c) &&
                                               pred(MethodModel.MethodDeclaration(c, Some(x.syntaxNode))))
        ensures x in r
      {
        var c :| c in x.syntaxNode.children && IsMethod(c) && pred(MethodModel.MethodDeclaration(c, Some(x.syntaxNode)));
        assert MethodModel.MethodDeclaration(c, Some(x.syntaxNode)) in GetMethods(x);
      }
    }
    r
  }

  /** A type with constructors but no ordinary method never passes
      WithMethods, even for a test every constructor passes. */
  lemma WithMethodsIgnoresConstructors(x: TypeDeclaration, pred: MethodModel.MethodDeclaration -> bool)
    requires forall c :: c in x.syntaxNode.children ==> !IsMethod(c)
    ensures WithMethods([x], pred) == []
  {
    FilterNone(MethodTest(pred), [x]);
  }

  /** The test `x => pred(x.Name)`. */
  function NameTest(pred: string -> bool): (test: TypeDeclaration -> bool)
    ensures forall x :: test(x) <==> pred(Name(x))
  {
    x => pred(Name(x))
  }

  function WithName(source: seq<TypeDeclaration>, pred: string -> bool): (r: seq<TypeDeclaration>)
    ensures Subsequence(r, source)
    ensures forall x :: x in r <==> x in source && pred(Name(x))
    ensures KeepsCopies(r, source, NameTest(pred))
  {
    FilterCounts(NameTest(pred), source);
    Filter(NameTest(pred), source)
  }

  /** The test `x => x.Attributes.Any(pred)`. */
  function AttributeTest(pred: AttributeModel.AttributeDeclaration -> bool): (test: TypeDeclaration -> bool)
    ensures forall x :: test(x) <==> exists a :: a in Attributes(x) && pred(a)
  {
    x => Any(pred, Attributes(x))
  }

  function WithAttribute(source: seq<TypeDeclaration>, pred: AttributeModel.AttributeDeclaration -> bool)
    : (r: seq<TypeDeclaration>)
    ensures Subsequence(r, source)
    ensures forall x :: x in r <==> x in source && exists a :: a in Attributes(x) && pred(a)
    ensures KeepsCopies(r, source, AttributeTest(pred))
  {
    FilterCounts(AttributeTest(pred), source);
    Filter(AttributeTest(pred), source)
  }

  /** The types carrying an attribute whose whole name equals `name` up to
      letter case, in order. */
  function WithAttributeNamed(source: seq<TypeDeclaration>, name: string): (r: seq<TypeDeclaration>)
    ensures Subsequence(r, source)
    ensures forall x :: x in r <==>
              x in source &&
              exists l, a :: l in x.syntaxNode.attributeLists && a in l && EqualsIgnoreCase(a.name, name)
    ensures KeepsCopies(r, source, AttributeTest(AttributeModel.NameIs(name)))
  {
    var r := WithAttribute(source, AttributeModel.NameIs(name));
    assert forall x :: x in r <==>
             x in source &&
             exists l, a :: l in x.syntaxNode.attributeLists && a in l && EqualsIgnoreCase(a.name, name) by {
      forall x | x in source && exists l, a :: l in x.syntaxNode.attributeLists && a in l && EqualsIgnoreCase(a.name, name)
        ensures x in r
      {
        var l, a :| l in x.syntaxNode.attributeLists && a in l && EqualsIgnoreCase(a.name, name);
        assert AttributeModel.AttributeDeclaration(a) in Attributes(x);
      }
    }
    r
  }

  /** The test `x => x.GetBaseTypes().Any(pred)`. */
  function BaseTypeTest(pred: string -> bool): (test: TypeDeclaration -> bool)
    ensures forall x :: test(x) <==> exists b :: b in GetBaseTypes(x) && pred(b)
  {
    x => Any(pred, GetBaseTypes(x))
  }

  /** The types with some base-type text passing pred, in order. */
  function WithBaseTypes(source: seq<TypeDeclaration>, pred: string -> bool): (r: seq<TypeDeclaration>)
    ensures Subsequence(r, source)
    ensures forall x :: x in r <==> x in source && exists b :: b in GetBaseTypes(x) && pred(b)
    ensures KeepsCopies(r, source, BaseTypeTest(pred))
  {
    FilterCounts(BaseTypeTest(pred), source);
    Filter(BaseTypeTest(pred), source)
  }

  /** The types with a base-type text equal to `name` up to letter case. The
      text is compared whole: `IFoo<int>` or `Lib.IFoo` does not match "IFoo". */
  function WithBaseType(source: seq<TypeDeclaration>, name: string): (r: seq<TypeDeclaration>)
    ensures Subsequence(r, source)
    ensures forall x :: x in r <==> x in source && exists b :: b in GetBaseTypes(x) && EqualsIgnoreCase(b, name)
    ensures KeepsCopies(r, source, BaseTypeTest(EqualsIgnoringCase(name)))
  {
    FilterCounts(BaseTypeTest(EqualsIgnoringCase(name)), source);
    Filter(BaseTypeTest(EqualsIgnoringCase(name)), source)
  }

  /** The by-name base-type filter is the predicate filter with the name test. */
  lemma WithBaseTypeIsWithBaseTypes(source: seq<TypeDeclaration>, name: string)
    ensures WithBaseType(source, name) == WithBaseTypes(source, EqualsIgnoringCase(name))
  {
  }

  /** A type without a base list never passes a base-type filter. */
  lemma NoBaseListNoMatch(x: TypeDeclaration, pred: string -> bool)
    requires x.syntaxNode.kind.TypeDecl? && x.syntaxNode.kind.baseList.None?
    ensures WithBaseTypes([x], pred) == []
  {
  }

  function WithPublic(source: seq<TypeDeclaration>): (r: seq<TypeDeclaration>)
    ensures Subsequence(r, source) && forall x :: x in r <==> x in source && "public" in Modifiers(x)
    ensures KeepsCopies(r, source, IsPublic)
  {
    FilterCounts(IsPublic, source);
    Filter(IsPublic, source)
  }

  function WithProtected(source: seq<TypeDeclaration>): (r: seq<TypeDeclaration>)
    ensures Subsequence(r, source) && forall x :: x in r <==> x in source && "protected" in Modifiers(x)
    ensures KeepsCopies(r, source, IsProtected)
  {
    FilterCounts(IsProtected, source);
    Filter(IsProtected, source)
  }

  function WithInternal(source: seq<TypeDeclaration>): (r: seq<TypeDeclaration>)
    ensures Subsequence(r, source) && forall x :: x in r <==> x in source && "internal" in Modifiers(x)
    ensures KeepsCopies(r, source, IsInternal)
  {
    FilterCounts(IsInternal, source);
    Filter(IsInternal, source)
  }

  /** The types that are explicitly private or have no access modifier. */
  function WithPrivate(source: seq<TypeDeclaration>): (r: seq<TypeDeclaration>)
    ensures Subsequence(r, source)
    ensures forall x :: x in r <==>
              x in source &&
              ("private" in Modifiers(x) ||
               !("public" in Modifiers(x) || "protected" in Modifiers(x) || "internal" in Modifiers(x)))
    ensures KeepsCopies(r, source, IsPrivate)
  {
    FilterCounts(IsPrivate, source);
    Filter(IsPrivate, source)
  }

  function WithReadonly(source: seq<TypeDeclaration>): (r: seq<TypeDeclaration>)
    ensures Subsequence(r, source) && forall x :: x in r <==> x in source && "readonly" in Modifiers(x)
    ensures KeepsCopies(r, source, IsReadonly)
  {
    FilterCounts(IsReadonly, source);
    Filter(IsReadonly, source)
  }

  function WithStatic(source: seq<TypeDeclaration>): (r: seq<TypeDeclaration>)
    ensures Subsequence(r, source) && forall x :: x in r <==> x in source && "static" in Modifiers(x)
    ensures KeepsCopies(r, source, IsStatic)
  {
    FilterCounts(IsStatic, source);
    Filter(IsStatic, source)
  }

  function WithAbstract(source: seq<TypeDeclaration>): (r: seq<TypeDeclaration>)
    ensures Subsequence(r, source) && forall x :: x in r <==> x in source && "abstract" in Modifiers(x)
    ensures KeepsCopies(r, source, IsAbstract)
  {
    FilterCounts(IsAbstract, source);
    Filter(IsAbstract, source)
  }

  /** Every type survives at least one of the four access filters. */
  lemma AccessFiltersCover(source: seq<TypeDeclaration>)
    ensures forall x :: x in source ==>
              x in WithPublic(source) || x in WithProtected(source) || x in WithInternal(source) ||
              x in WithPrivate(source)
  {
  }

  // ---------------------------------------------------------------------
  // Flattening

  /** The direct methods of every type, in source order, that pass pred. */
  function GetMethodsWhere(source: seq<TypeDeclaration>, pred: MethodModel.MethodDeclaration -> bool)
    : (r: seq<MethodModel.MethodDeclaration>)
    ensures Subsequence(r, FlatMap(TypeModel.GetMethods, source))
    ensures forall m :: m in r <==> pred(m) && exists x :: x in source && m in TypeModel.GetMethods(x)
    ensures KeepsCopies(r, FlatMap(TypeModel.GetMethods, source), pred)
  {
    FilterCounts(pred, FlatMap(TypeModel.GetMethods, source));
    Filter(pred, FlatMap(TypeModel.GetMethods, source))
  }

  /** Each type's direct (or, with subTypes, all nested) types, concatenated in source order. */
  function GetTypes(source: seq<TypeDeclaration>, subTypes: bool): (r: seq<TypeDeclaration>)
    ensures !subTypes ==> r == FlatMap(TypeModel.GetTypes, source)
    ensures subTypes ==> r == FlatMap(TypeModel.GetAllTypes, source)
    ensures forall y :: y in r <==>
              exists x :: x in source && y in (if subTypes then TypeModel.GetAllTypes(x) else TypeModel.GetTypes(x))
    ensures forall y :: y in r ==> IsTypeDeclaration(y.syntaxNode)
  {
    if subTypes then FlatMap(TypeModel.GetAllTypes, source) else FlatMap(TypeModel.GetTypes, source)
  }

  function GetTypesWhere(source: seq<TypeDeclaration>, pred: TypeDeclaration -> bool, subTypes: bool)
    : (r: seq<TypeDeclaration>)
    ensures Subsequence(r, GetTypes(source, subTypes))
    ensures forall y :: y in r <==> y in GetTypes(source, subTypes) && pred(y)
    ensures KeepsCopies(r, GetTypes(source, subTypes), pred)
  {
    FilterCounts(pred, GetTypes(source, subTypes));
    Filter(pred, GetTypes(source, subTypes))
  }

  function GetClasses(source: seq<TypeDeclaration>, subClasses: bool): (r: seq<TypeDeclaration>)
    ensures !subClasses ==> r == FlatMap(TypeModel.GetClasses, source)
    ensures subClasses ==> r == FlatMap(TypeModel.GetAllClasses, source)
    ensures forall y :: y in r <==>
              exists x :: x in source && y in (if subClasses then TypeModel.GetAllClasses(x) else TypeModel.GetClasses(x))
    ensures forall y :: y in r ==> IsClass(y.syntaxNode)
  {
    if subClasses then FlatMap(TypeModel.GetAllClasses, source) else FlatMap(TypeModel.GetClasses, source)
  }

  function GetClassesWhere(source: seq<TypeDeclaration>, pred: TypeDeclaration -> bool, subClasses: bool)
    : (r: seq<TypeDeclaration>)
    ensures Subsequence(r, GetClasses(source, subClasses))
    ensures forall y :: y in r <==> y in GetClasses(source, subClasses) && pred(y)
    ensures KeepsCopies(r, GetClasses(source, subClasses), pred)
  {
    FilterCounts(pred, GetClasses(source, subClasses));
    Filter(pred, GetClasses(source, subClasses))
  }

  function GetInterfaces(source: seq<TypeDeclaration>, subInterfaces: bool): (r: seq<TypeDeclaration>)
    ensures !subInterfaces ==> r == FlatMap(TypeModel.GetInterfaces, source)
    ensures subInterfaces ==> r == FlatMap(TypeModel.GetAllInterfaces, source)
    ensures forall y :: y in r <==>
              exists x :: x in source && y in (if subInterfaces then TypeModel.GetAllInterfaces(x) else TypeModel.GetInterfaces(x))
    ensures forall y :: y in r ==> IsInterface(y.syntaxNode)
  {
    if subInterfaces then FlatMap(TypeModel.GetAllInterfaces, source) else FlatMap(TypeModel.GetInterfaces, source)
  }

  function GetInterfacesWhere(source: seq<TypeDeclaration>, pred: TypeDeclaration -> bool, subInterfaces: bool)
    : (r: seq<TypeDeclaration>)
    ensures Subsequence(r, GetInterfaces(source, subInterfaces))
    ensures forall y :: y in r <==> y in GetInterfaces(source, subInterfaces) && pred(y)
    ensures KeepsCopies(r, GetInterfaces(source, subInterfaces), pred)
  {
    FilterCounts(pred, GetInterfaces(source, subInterfaces));
    Filter(pred, GetInterfaces(source, subInterfaces))
  }

  function GetStructs(source: seq<TypeDeclaration>, subStructs: bool): (r: seq<TypeDeclaration>)
    ensures !subStructs ==> r == FlatMap(TypeModel.GetStructs, source)
    ensures subStructs ==> r == FlatMap(TypeModel.GetAllStructs, source)
    ensures forall y :: y in r <==>
              exists x :: x in source && y in (if subStructs then TypeModel.GetAllStructs(x) else TypeModel.GetStructs(x))
    ensures forall y :: y in r ==> IsStruct(y.syntaxNode)
  {
    if subStructs then FlatMap(TypeModel.GetAllStructs, source) else FlatMap(TypeModel.GetStructs, source)
  }

  function GetStructsWhere(source: seq<TypeDeclaration>, pred: TypeDeclaration -> bool, subStructs: bool)
    : (r: seq<TypeDeclaration>)
    ensures Subsequence(r, GetStructs(source, subStructs))
    ensures forall y :: y in r <==> y in GetStructs(source, subStructs) && pred(y)
    ensures KeepsCopies(r, GetStructs(source, subStructs), pred)
  {
    FilterCounts(pred, GetStructs(source, subStructs));
    Filter(pred, GetStructs(source, subStructs))
  }

  function GetRecords(source: seq<TypeDeclaration>, subRecords: bool): (r: seq<TypeDeclaration>)
    ensures !subRecords ==> r == FlatMap(TypeModel.GetRecords, source)
    ensures subRecords ==> r == FlatMap(TypeModel.GetAllRecords, source)
    ensures forall y :: y in r <==>
              exists x :: x in source && y in (if subRecords then TypeModel.GetAllRecords(x) else TypeModel.GetRecords(x))
    ensures forall y :: y in r ==> IsRecord(y.syntaxNode)
  {
    if subRecords then FlatMap(TypeModel.GetAllRecords, source) else FlatMap(TypeModel.GetRecords, source)
  }

  function GetRecordsWhere(source: seq<TypeDeclaration>, pred: TypeDeclaration -> bool, subRecords: bool)
    : (r: seq<TypeDeclaration>)
    ensures Subsequence(r, GetRecords(source, subRecords))
    ensures forall y :: y in r <==> y in GetRecords(source, subRecords) && pred(y)
    ensures KeepsCopies(r, GetRecords(source, subRecords), pred)
  {
    FilterCounts(pred, GetRecords(source, subRecords));
    Filter(pred, GetRecords(source, subRecords))
  }

  function GetEnums(source: seq<TypeDeclaration>, subEnums: bool): (r: seq<ParameterModel.ParameterDeclaration>)
    ensures !subEnums ==> r == FlatMap(TypeModel.GetEnums, source)
    ensures subEnums ==> r == FlatMap(TypeModel.GetAllEnums, source)
    ensures forall e :: e in r <==>
              exists x :: x in source && e in (if subEnums then TypeModel.GetAllEnums(x) else TypeModel.GetEnums(x))
    ensures forall e :: e in r ==> IsEnum(e.syntaxNode)
  {
    if subEnums then FlatMap(TypeModel.GetAllEnums, source) else FlatMap(TypeModel.GetEnums, source)
  }

  function GetEnumsWhere(source: seq<TypeDeclaration>, pred: ParameterModel.ParameterDeclaration -> bool, subEnums: bool)
    : (r: seq<ParameterModel.ParameterDeclaration>)
    ensures Subsequence(r, GetEnums(source, subEnums))
    ensures forall e :: e in r <==> e in GetEnums(source, subEnums) && pred(e)
    ensures KeepsCopies(r, GetEnums(source, subEnums), pred)
  {
    FilterCounts(pred, GetEnums(source, subEnums));
    Filter(pred, GetEnums(source, subEnums))
  }

  // ---------------------------------------------------------------------
  // Laws of the flattening queries

  /** Flattening distributes over concatenation of the sources. */
  lemma {:induction false} FlattenConcat(a: seq<TypeDeclaration>, b: seq<TypeDeclaration>, sub: bool)
    ensures GetTypes(a + b, sub) == GetTypes(a, sub) + GetTypes(b, sub)
    ensures GetClasses(a + b, sub) == GetClasses(a, sub) + GetClasses(b, sub)
    ensures GetInterfaces(a + b, sub) == GetInterfaces(a, sub) + GetInterfaces(b, sub)
    ensures GetStructs(a + b, sub) == GetStructs(a, sub) + GetStructs(b, sub)
    ensures GetRecords(a + b, sub) == GetRecords(a, sub) + GetRecords(b, sub)
    ensures GetEnums(a + b, sub) == GetEnums(a, sub) + GetEnums(b, sub)
  {
    assert GetTypes(a + b, sub) == GetTypes(a, sub) + GetTypes(b, sub) by {
      FlatMapConcat(TypeModel.GetTypes, a, b);
      FlatMapConcat(TypeModel.GetAllTypes, a, b);
    }
    assert GetClasses(a + b, sub) == GetClasses(a, sub) + GetClasses(b, sub) by {
      FlatMapConcat(TypeModel.GetClasses, a, b);
      FlatMapConcat(TypeModel.GetAllClasses, a, b);
    }
    assert GetInterfaces(a + b, sub) == GetInterfaces(a, sub) + GetInterfaces(b, sub) by {
      FlatMapConcat(TypeModel.GetInterfaces, a, b);
      FlatMapConcat(TypeModel.GetAllInterfaces, a, b);
    }
    assert GetStructs(a + b, sub) == GetStructs(a, sub) + GetStructs(b, sub) by {
      FlatMapConcat(TypeModel.GetStructs, a, b);
      FlatMapConcat(TypeModel.GetAllStructs, a, b);
    }
    assert GetRecords(a + b, sub) == GetRecords(a, sub) + GetRecords(b, sub) by {
      FlatMapConcat(TypeModel.GetRecords, a, b);
      FlatMapConcat(TypeModel.GetAllRecords, a, b);
    }
    assert GetEnums(a + b, sub) == GetEnums(a, sub) + GetEnums(b, sub) by {
      FlatMapConcat(TypeModel.GetEnums, a, b);
      FlatMapConcat(TypeModel.GetAllEnums, a, b);
    }
  }

  /** The shallow flattening occurs, in order, in the deep one. */
  lemma {:induction false} FlattenShallowInDeep(source: seq<TypeDeclaration>)
    ensures Subsequence(GetTypes(source, false), GetTypes(source, true))
    ensures Subsequence(GetClasses(source, false), GetClasses(source, true))
    ensures Subsequence(GetInterfaces(source, false), GetInterfaces(source, true))
    ensures Subsequence(GetStructs(source, false), GetStructs(source, true))
    ensures Subsequence(GetRecords(source, false), GetRecords(source, true))
    ensures Subsequence(GetEnums(source, false), GetEnums(source, true))
  {
    forall x | x in source
      ensures Subsequence(TypeModel.GetTypes(x), TypeModel.GetAllTypes(x))
      ensures Subsequence(TypeModel.GetClasses(x), TypeModel.GetAllClasses(x))
      ensures Subsequence(TypeModel.GetInterfaces(x), TypeModel.GetAllInterfaces(x))
      ensures Subsequence(TypeModel.GetStructs(x), TypeModel.GetAllStructs(x))
      ensures Subsequence(TypeModel.GetRecords(x), TypeModel.GetAllRecords(x))
      ensures Subsequence(TypeModel.GetEnums(x), TypeModel.GetAllEnums(x))
    {
      ShallowInDeep(x);
    }
    FlatMapMonotone(TypeModel.GetTypes, TypeModel.GetAllTypes, source);
    FlatMapMonotone(TypeModel.GetClasses, TypeModel.GetAllClasses, source);
    FlatMapMonotone(TypeModel.GetInterfaces, TypeModel.GetAllInterfaces, source);
    FlatMapMonotone(TypeModel.GetStructs, TypeModel.GetAllStructs, source);
    FlatMapMonotone(TypeModel.GetRecords, TypeModel.GetAllRecords, source);
    FlatMapMonotone(TypeModel.GetEnums, TypeModel.GetAllEnums, source);
  }

  /** Flattening the classes is flattening the types and keeping the classes. */
  lemma {:induction false} FlattenedClassesAreClassTypes(source: seq<TypeDeclaration>, sub: bool)
    ensures GetClasses(source, sub) == Filter(IsClassType, GetTypes(source, sub))
    ensures GetInterfaces(source, sub) == Filter(IsInterfaceType, GetTypes(source, sub))
    ensures GetStructs(source, sub) == Filter(IsStructType, GetTypes(source, sub))
    ensures GetRecords(source, sub) == Filter(IsRecordType, GetTypes(source, sub))
  {
    forall x | x in source
      ensures TypeModel.GetClasses(x) == Filter(IsClassType, TypeModel.GetTypes(x))
      ensures TypeModel.GetAllClasses(x) == Filter(IsClassType, TypeModel.GetAllTypes(x))
      ensures TypeModel.GetInterfaces(x) == Filter(IsInterfaceType, TypeModel.GetTypes(x))
      ensures TypeModel.GetAllInterfaces(x) == Filter(IsInterfaceType, TypeModel.GetAllTypes(x))
      ensures TypeModel.GetStructs(x) == Filter(IsStructType, TypeModel.GetTypes(x))
      ensures TypeModel.GetAllStructs(x) == Filter(IsStructType, TypeModel.GetAllTypes(x))
      ensures TypeModel.GetRecords(x) == Filter(IsRecordType, TypeModel.GetTypes(x))
      ensures TypeModel.GetAllRecords(x) == Filter(IsRecordType, TypeModel.GetAllTypes(x))
    {
      KindsRefineTypes(x);
    }
    if sub {
      FilterFlatMap(IsClassType, TypeModel.GetAllTypes, TypeModel.GetAllClasses, source);
      FilterFlatMap(IsInterfaceType, TypeModel.GetAllTypes, TypeModel.GetAllInterfaces, source);
      FilterFlatMap(IsStructType, TypeModel.GetAllTypes, TypeModel.GetAllStructs, source);
      FilterFlatMap(IsRecordType, TypeModel.GetAllTypes, TypeModel.GetAllRecords, source);
    } else {
      FilterFlatMap(IsClassType, TypeModel.GetTypes, TypeModel.GetClasses, source);
      FilterFlatMap(IsInterfaceType, TypeModel.GetTypes, TypeModel.GetInterfaces, source);
      FilterFlatMap(IsStructType, TypeModel.GetTypes, TypeModel.GetStructs, source);
      FilterFlatMap(IsRecordType, TypeModel.GetTypes, TypeModel.GetRecords, source);
    }
  }

  /** Filtering after flattening equals flattening the per-type filtered lists. */
  lemma {:induction false} GetMethodsWhereIsPerType(source: seq<TypeDeclaration>, pred: MethodModel.MethodDeclaration -> bool)
    ensures source == [] ==> GetMethodsWhere(source, pred) == []
    ensures source != [] ==>
              GetMethodsWhere(source, pred) ==
              Filter(pred, TypeModel.GetMethods(source[0])) + GetMethodsWhere(source[1..], pred)
  {
    if source != [] {
      FilterConcat(pred, TypeModel.GetMethods(source[0]), FlatMap(TypeModel.GetMethods, source[1..]));
    }
  }
}
