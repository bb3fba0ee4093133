/** TypeDeclaration: the read-only view of a class, interface, struct or
    record declaration inside a source file, with its modifier flags, its
    attributes, its textual base list and its shallow (direct children) and
    deep (all descendants) accessors for nested declarations. */
module TypeModel {
  import opened Results
  import opened Seqs
  import opened Text
  import opened Syntax
  import AttributeModel
  import ParameterModel
  import MethodModel

  /** The view of one type declaration node of a source file. */
  datatype TypeDeclaration = TypeDeclaration(sourceFile: SourceFile, syntaxNode: Node)

  /** The wrapping `new TypeDeclaration(SourceFile, y)` as a function value. */
  function AsTypeOf(f: SourceFile): (wrap: Node -> TypeDeclaration)
    ensures forall n :: wrap(n) == TypeDeclaration(f, n)
  {
    n => TypeDeclaration(f, n)
  }

  /** The modifier token texts, lower-cased, in source order. */
  function Modifiers(t: TypeDeclaration): (r: seq<string>)
    ensures |r| == |t.syntaxNode.modifiers|
    ensures forall i :: 0 <= i < |r| ==> r[i] == ToLower(t.syntaxNode.modifiers[i])
    ensures forall k :: k in r <==> exists i :: 0 <= i < |t.syntaxNode.modifiers| && ToLower(t.syntaxNode.modifiers[i]) == k
  {
    LowerAll(t.syntaxNode.modifiers)
  }

  predicate IsPublic(t: TypeDeclaration) { "public" in Modifiers(t) }
  predicate IsProtected(t: TypeDeclaration) { "protected" in Modifiers(t) }
  predicate IsInternal(t: TypeDeclaration) { "internal" in Modifiers(t) }
  predicate IsPrivate(t: TypeDeclaration) {
    "private" in Modifiers(t) || (!IsPublic(t) && !IsProtected(t) && !IsInternal(t))
  }
  predicate IsReadonly(t: TypeDeclaration) { "readonly" in Modifiers(t) }
  predicate IsStatic(t: TypeDeclaration) { "static" in Modifiers(t) }
  predicate IsAbstract(t: TypeDeclaration) { "abstract" in Modifiers(t) }

  /** Private is explicit or the default, so at least one access flag holds;
      in particular a type without any access modifier is private. */
  lemma AccessInvariant(t: TypeDeclaration)
    ensures IsPrivate(t) <==> "private" in Modifiers(t) || !(IsPublic(t) || IsProtected(t) || IsInternal(t))
    ensures IsPublic(t) || IsProtected(t) || IsInternal(t) || IsPrivate(t)
  {
  }

  /** With no modifier tokens at all, the type reports private and nothing else. */
  lemma NoModifiersMeansPrivate(t: TypeDeclaration)
    requires t.syntaxNode.modifiers == []
    ensures IsPrivate(t) && !IsPublic(t) && !IsProtected(t) && !IsInternal(t)
    ensures !IsReadonly(t) && !IsStatic(t) && !IsAbstract(t)
  {
  }

  /** Each flag other than private holds iff some modifier token, lower-cased,
      is the keyword. */
  lemma FlagTokens(t: TypeDeclaration)
    ensures IsPublic(t) <==> exists i :: 0 <= i < |t.syntaxNode.modifiers| && ToLower(t.syntaxNode.modifiers[i]) == "public"
    ensures IsProtected(t) <==> exists i :: 0 <= i < |t.syntaxNode.modifiers| && ToLower(t.syntaxNode.modifiers[i]) == "protected"
    ensures IsInternal(t) <==> exists i :: 0 <= i < |t.syntaxNode.modifiers| && ToLower(t.syntaxNode.modifiers[i]) == "internal"
    ensures IsReadonly(t) <==> exists i :: 0 <= i < |t.syntaxNode.modifiers| && ToLower(t.syntaxNode.modifiers[i]) == "readonly"
    ensures IsStatic(t) <==> exists i :: 0 <= i < |t.syntaxNode.modifiers| && ToLower(t.syntaxNode.modifiers[i]) == "static"
    ensures IsAbstract(t) <==> exists i :: 0 <= i < |t.syntaxNode.modifiers| && ToLower(t.syntaxNode.modifiers[i]) == "abstract"
  {
  }

  /** The attribute views of the declaration's attribute lists, in order.
      Types, methods and members each declare this property of their own
      view in the same words (TypeDeclaration.cs, MethodDeclaration.cs,
      ParameterDeclaration.cs); each view keeps its own accessor here. */
  function Attributes(t: TypeDeclaration): (r: seq<AttributeModel.AttributeDeclaration>)
    ensures forall a :: a in r <==> exists l :: l in t.syntaxNode.attributeLists && a.node in l
  {
    AttributeModel.AttributesOf(t.syntaxNode.attributeLists)
  }

  /** The type's identifier. */
  function Name(t: TypeDeclaration): string {
    t.syntaxNode.identifier
  }

  /** The name is the node's identifier; the file the view was read from
      plays no part in it. */
  lemma NameIgnoresFile(f1: SourceFile, f2: SourceFile, n: Node)
    ensures Name(TypeDeclaration(f1, n)) == n.identifier
    ensures Name(TypeDeclaration(f1, n)) == Name(TypeDeclaration(f2, n))
  {
  }

  /** The base list's type texts in declaration order; empty when there is no base list. */
  function GetBaseTypes(t: TypeDeclaration): (r: seq<string>)
    ensures t.syntaxNode.kind.TypeDecl? && t.syntaxNode.kind.baseList.Some? ==> r == t.syntaxNode.kind.baseList.value
    ensures !(t.syntaxNode.kind.TypeDecl? && t.syntaxNode.kind.baseList.Some?) ==> r == []
  {
    if t.syntaxNode.kind.TypeDecl? then t.syntaxNode.kind.baseList.GetOr([]) else []
  }

  // ---------------------------------------------------------------------
  // `OfType<X>().Select(wrap)` over a sequence of nodes, for the three views

  /** The nodes of ns that pass p, in order, each wrapped as a type view of f.
      The first ensures keeps the Map-of-Filter form in the contract so that
      the Filter and Map lemmas of Seqs apply to every accessor built on it;
      the next ones state what that form means. */
  function TypesOf(f: SourceFile, ns: seq<Node>, p: Node -> bool): (r: seq<TypeDeclaration>)
    ensures r == Map(AsTypeOf(f), Filter(p, ns))
    ensures |r| == |Filter(p, ns)| && forall i :: 0 <= i < |r| ==> r[i] == TypeDeclaration(f, Filter(p, ns)[i])
    ensures forall x :: x in r <==> x.sourceFile == f && x.syntaxNode in ns && p(x.syntaxNode)
  {
    var keep := Filter(p, ns);
    var r := Map(AsTypeOf(f), keep);
    assert forall x: TypeDeclaration :: x.sourceFile == f && x.syntaxNode in keep ==> x in r by {
      forall x: TypeDeclaration | x.sourceFile == f && x.syntaxNode in keep ensures x in r {
        var i :| 0 <= i < |keep| && keep[i] == x.syntaxNode;
        assert r[i] == x;
      }
    }
    r
  }

  /** The nodes of ns that pass p, in order, each wrapped as a member view
      (the Map-of-Filter ensures serves the Seqs lemmas, as for TypesOf). */
  function MembersOf(ns: seq<Node>, p: Node -> bool): (r: seq<ParameterModel.ParameterDeclaration>)
    ensures r == Map(ParameterModel.AsMember, Filter(p, ns))
    ensures forall x :: x in r <==> x.syntaxNode in ns && p(x.syntaxNode)
  {
    var keep := Filter(p, ns);
    var r := Map(ParameterModel.AsMember, keep);
    assert forall x: ParameterModel.ParameterDeclaration :: x.syntaxNode in keep ==> x in r by {
      forall x: ParameterModel.ParameterDeclaration | x.syntaxNode in keep ensures x in r {
        var i :| 0 <= i < |keep| && keep[i] == x.syntaxNode;
        assert r[i] == x;
      }
    }
    r
  }

  /** The nodes of ns that pass p, in order, each wrapped as a method view with
      the given parent (the Map-of-Filter ensures serves the Seqs lemmas, as
      for TypesOf). */
  function MethodsOf(parent: Option<Node>, ns: seq<Node>, p: Node -> bool): (r: seq<MethodModel.MethodDeclaration>)
    ensures r == Map(MethodModel.AsMethodOf(parent), Filter(p, ns))
    ensures forall x :: x in r <==> x.parent == parent && x.syntaxNode in ns && p(x.syntaxNode)
  {
    var keep := Filter(p, ns);
    var r := Map(MethodModel.AsMethodOf(parent), keep);
    assert forall x: MethodModel.MethodDeclaration :: x.parent == parent && x.syntaxNode in keep ==> x in r by {
      forall x: MethodModel.MethodDeclaration | x.parent == parent && x.syntaxNode in keep ensures x in r {
        var i :| 0 <= i < |keep| && keep[i] == x.syntaxNode;
        assert r[i] == x;
      }
    }
    r
  }

  /** Wrapping preserves the subsequence relation between node sequences. */
  lemma {:induction false} TypesOfMonotone(f: SourceFile, a: seq<Node>, b: seq<Node>, p: Node -> bool)
    requires Subsequence(a, b)
    ensures Subsequence(TypesOf(f, a, p), TypesOf(f, b, p))
  {
    FilterMonotone(p, a, b);
    MapMonotone(AsTypeOf(f), Filter(p, a), Filter(p, b));
  }

  lemma {:induction false} MembersOfMonotone(a: seq<Node>, b: seq<Node>, p: Node -> bool)
    requires Subsequence(a, b)
    ensures Subsequence(MembersOf(a, p), MembersOf(b, p))
  {
    FilterMonotone(p, a, b);
    MapMonotone(ParameterModel.AsMember, Filter(p, a), Filter(p, b));
  }

  /** Wrapping distributes over concatenation. */
  lemma {:induction false} TypesOfConcat(f: SourceFile, a: seq<Node>, b: seq<Node>, p: Node -> bool)
    ensures TypesOf(f, a + b, p) == TypesOf(f, a, p) + TypesOf(f, b, p)
  {
    FilterConcat(p, a, b);
    MapConcat(AsTypeOf(f), Filter(p, a), Filter(p, b));
  }

  /** Selecting kind q among the type views of the p-nodes is wrapping the
      nodes that pass q, when q implies p. */
  lemma {:induction false} TypesOfNarrows(f: SourceFile, ns: seq<Node>, p: Node -> bool, q: Node -> bool,
                                          test: TypeDeclaration -> bool)
    requires forall n :: q(n) ==> p(n)
    requires forall x :: test(x) == q(x.syntaxNode)
    ensures Filter(test, TypesOf(f, ns, p)) == TypesOf(f, ns, q)
  {
    FilterMap(q, test, AsTypeOf(f), Filter(p, ns));
    FilterNarrows(p, q, ns);
  }

  // ---------------------------------------------------------------------
  // The accessors

  /** The constructors declared directly in the type, in order, each tied to this type. */
  function GetConstructors(t: TypeDeclaration): (r: seq<MethodModel.MethodDeclaration>)
    ensures forall m :: m in r <==>
              m.parent == Some(t.syntaxNode) && m.syntaxNode in t.syntaxNode.children && IsConstructor(m.syntaxNode)
  {
    MethodsOf(Some(t.syntaxNode), ChildNodes(t.syntaxNode), IsConstructor)
  }

  /** The ordinary methods declared directly in the type, in order, each tied to this type. */
  function GetMethods(t: TypeDeclaration): (r: seq<MethodModel.MethodDeclaration>)
    ensures forall m :: m in r <==>
              m.parent == Some(t.syntaxNode) && m.syntaxNode in t.syntaxNode.children && IsMethod(m.syntaxNode)
  {
    MethodsOf(Some(t.syntaxNode), ChildNodes(t.syntaxNode), IsMethod)
  }

  function GetFields(t: TypeDeclaration): (r: seq<ParameterModel.ParameterDeclaration>)
    ensures forall x :: x in r <==> x.syntaxNode in t.syntaxNode.children && IsField(x.syntaxNode)
  {
    MembersOf(ChildNodes(t.syntaxNode), IsField)
  }

  function GetProperties(t: TypeDeclaration): (r: seq<ParameterModel.ParameterDeclaration>)
    ensures forall x :: x in r <==> x.syntaxNode in t.syntaxNode.children && IsProperty(x.syntaxNode)
  {
    MembersOf(ChildNodes(t.syntaxNode), IsProperty)
  }

  function GetClasses(t: TypeDeclaration): (r: seq<TypeDeclaration>)
    ensures forall x :: x in r <==>
              x.sourceFile == t.sourceFile && x.syntaxNode in t.syntaxNode.children && IsClass(x.syntaxNode)
  {
    TypesOf(t.sourceFile, ChildNodes(t.syntaxNode), IsClass)
  }

  function GetAllClasses(t: TypeDeclaration): (r: seq<TypeDeclaration>)
    ensures forall x :: x in r <==>
              x.sourceFile == t.sourceFile && x.syntaxNode in DescendantNodes(t.syntaxNode) && IsClass(x.syntaxNode)
  {
    TypesOf(t.sourceFile, DescendantNodes(t.syntaxNode), IsClass)
  }

  function GetInterfaces(t: TypeDeclaration): (r: seq<TypeDeclaration>)
    ensures forall x :: x in r <==>
              x.sourceFile == t.sourceFile && x.syntaxNode in t.syntaxNode.children && IsInterface(x.syntaxNode)
  {
    TypesOf(t.sourceFile, ChildNodes(t.syntaxNode), IsInterface)
  }

  function GetAllInterfaces(t: TypeDeclaration): (r: seq<TypeDeclaration>)
    ensures forall x :: x in r <==>
              x.sourceFile == t.sourceFile && x.syntaxNode in DescendantNodes(t.syntaxNode) && IsInterface(x.syntaxNode)
  {
    TypesOf(t.sourceFile, DescendantNodes(t.syntaxNode), IsInterface)
  }

  function GetRecords(t: TypeDeclaration): (r: seq<TypeDeclaration>)
    ensures forall x :: x in r <==>
              x.sourceFile == t.sourceFile && x.syntaxNode in t.syntaxNode.children && IsRecord(x.syntaxNode)
  {
    TypesOf(t.sourceFile, ChildNodes(t.syntaxNode), IsRecord)
  }

  function GetAllRecords(t: TypeDeclaration): (r: seq<TypeDeclaration>)
    ensures forall x :: x in r <==>
              x.sourceFile == t.sourceFile && x.syntaxNode in DescendantNodes(t.syntaxNode) && IsRecord(x.syntaxNode)
  {
    TypesOf(t.sourceFile, DescendantNodes(t.syntaxNode), IsRecord)
  }

  function GetStructs(t: TypeDeclaration): (r: seq<TypeDeclaration>)
    ensures forall x :: x in r <==>
              x.sourceFile == t.sourceFile && x.syntaxNode in t.syntaxNode.children && IsStruct(x.syntaxNode)
  {
    TypesOf(t.sourceFile, ChildNodes(t.syntaxNode), IsStruct)
  }

  function GetAllStructs(t: TypeDeclaration): (r: seq<TypeDeclaration>)
    ensures forall x :: x in r <==>
              x.sourceFile == t.sourceFile && x.syntaxNode in DescendantNodes(t.syntaxNode) && IsStruct(x.syntaxNode)
  {
    TypesOf(t.sourceFile, DescendantNodes(t.syntaxNode), IsStruct)
  }

  function GetEnums(t: TypeDeclaration): (r: seq<ParameterModel.ParameterDeclaration>)
    ensures forall x :: x in r <==> x.syntaxNode in t.syntaxNode.children && IsEnum(x.syntaxNode)
  {
    MembersOf(ChildNodes(t.syntaxNode), IsEnum)
  }

  function GetAllEnums(t: TypeDeclaration): (r: seq<ParameterModel.ParameterDeclaration>)
    ensures forall x :: x in r <==> x.syntaxNode in DescendantNodes(t.syntaxNode) && IsEnum(x.syntaxNode)
  {
    MembersOf(DescendantNodes(t.syntaxNode), IsEnum)
  }

  /** The nested classes, interfaces, structs and records (never enums). */
  function GetTypes(t: TypeDeclaration): (r: seq<TypeDeclaration>)
    ensures forall x :: x in r <==>
              x.sourceFile == t.sourceFile && x.syntaxNode in t.syntaxNode.children && IsTypeDeclaration(x.syntaxNode)
  {
    TypesOf(t.sourceFile, ChildNodes(t.syntaxNode), IsTypeDeclaration)
  }

  function GetAllTypes(t: TypeDeclaration): (r: seq<TypeDeclaration>)
    ensures forall x :: x in r <==>
              x.sourceFile == t.sourceFile && x.syntaxNode in DescendantNodes(t.syntaxNode) && IsTypeDeclaration(x.syntaxNode)
  {
    TypesOf(t.sourceFile, DescendantNodes(t.syntaxNode), IsTypeDeclaration)
  }

  // ---------------------------------------------------------------------
  // How the accessors relate

  /** Every shallow result occurs, in the same order, in the deep result of its kind. */
  lemma {:induction false} ShallowInDeep(t: TypeDeclaration)
    ensures Subsequence(GetClasses(t), GetAllClasses(t))
    ensures Subsequence(GetInterfaces(t), GetAllInterfaces(t))
    ensures Subsequence(GetRecords(t), GetAllRecords(t))
    ensures Subsequence(GetStructs(t), GetAllStructs(t))
    ensures Subsequence(GetEnums(t), GetAllEnums(t))
    ensures Subsequence(GetTypes(t), GetAllTypes(t))
  {
    var f, n := t.sourceFile, t.syntaxNode;
    ChildrenInDescendants(n);
    TypesOfMonotone(f, ChildNodes(n), DescendantNodes(n), IsClass);
    TypesOfMonotone(f, ChildNodes(n), DescendantNodes(n), IsInterface);
    TypesOfMonotone(f, ChildNodes(n), DescendantNodes(n), IsRecord);
    TypesOfMonotone(f, ChildNodes(n), DescendantNodes(n), IsStruct);
    TypesOfMonotone(f, ChildNodes(n), DescendantNodes(n), IsTypeDeclaration);
    MembersOfMonotone(ChildNodes(n), DescendantNodes(n), IsEnum);
  }

  /** No node of the kind p lies below the type's direct members. */
  ghost predicate FlatFor(t: TypeDeclaration, p: Node -> bool) {
    forall c, d :: c in t.syntaxNode.children && d in DescendantNodes(c) ==> !p(d)
  }

  /** When no node of the kind p lies below depth one, the deep and the
      shallow selection of that kind agree. */
  lemma {:induction false} FlatSelection(t: TypeDeclaration, p: Node -> bool)
    requires FlatFor(t, p)
    ensures Filter(p, DescendantNodes(t.syntaxNode)) == Filter(p, ChildNodes(t.syntaxNode))
  {
    Syntax.DeepIsShallowWhenFlat(p, t.syntaxNode);
  }

  /** Each deep accessor equals its shallow one as soon as its own kind does
      not nest below the direct members, whatever the other kinds do. */
  lemma {:induction false} DeepIsShallowWhenFlat(t: TypeDeclaration)
    ensures FlatFor(t, IsClass) ==> GetAllClasses(t) == GetClasses(t)
    ensures FlatFor(t, IsInterface) ==> GetAllInterfaces(t) == GetInterfaces(t)
    ensures FlatFor(t, IsRecord) ==> GetAllRecords(t) == GetRecords(t)
    ensures FlatFor(t, IsStruct) ==> GetAllStructs(t) == GetStructs(t)
    ensures FlatFor(t, IsEnum) ==> GetAllEnums(t) == GetEnums(t)
    ensures FlatFor(t, IsTypeDeclaration) ==> GetAllTypes(t) == GetTypes(t)
  {
    if FlatFor(t, IsClass) { FlatSelection(t, IsClass); }
    if FlatFor(t, IsInterface) { FlatSelection(t, IsInterface); }
    if FlatFor(t, IsRecord) { FlatSelection(t, IsRecord); }
    if FlatFor(t, IsStruct) { FlatSelection(t, IsStruct); }
    if FlatFor(t, IsEnum) { FlatSelection(t, IsEnum); }
    if FlatFor(t, IsTypeDeclaration) { FlatSelection(t, IsTypeDeclaration); }
  }

  predicate IsClassType(x: TypeDeclaration) { IsClass(x.syntaxNode) }
  predicate IsInterfaceType(x: TypeDeclaration) { IsInterface(x.syntaxNode) }
  predicate IsStructType(x: TypeDeclaration) { IsStruct(x.syntaxNode) }
  predicate IsRecordType(x: TypeDeclaration) { IsRecord(x.syntaxNode) }

  /** Each kind accessor is the type accessor restricted to that kind. */
  lemma {:induction false} KindsRefineTypes(t: TypeDeclaration)
    ensures GetClasses(t) == Filter(IsClassType, GetTypes(t))
    ensures GetAllClasses(t) == Filter(IsClassType, GetAllTypes(t))
    ensures GetInterfaces(t) == Filter(IsInterfaceType, GetTypes(t))
    ensures GetAllInterfaces(t) == Filter(IsInterfaceType, GetAllTypes(t))
    ensures GetStructs(t) == Filter(IsStructType, GetTypes(t))
    ensures GetAllStructs(t) == Filter(IsStructType, GetAllTypes(t))
    ensures GetRecords(t) == Filter(IsRecordType, GetTypes(t))
    ensures GetAllRecords(t) == Filter(IsRecordType, GetAllTypes(t))
  {
    var f, n := t.sourceFile, t.syntaxNode;
    TypesOfNarrows(f, ChildNodes(n), IsTypeDeclaration, IsClass, IsClassType);
    TypesOfNarrows(f, DescendantNodes(n), IsTypeDeclaration, IsClass, IsClassType);
    TypesOfNarrows(f, ChildNodes(n), IsTypeDeclaration, IsInterface, IsInterfaceType);
    TypesOfNarrows(f, DescendantNodes(n), IsTypeDeclaration, IsInterface, IsInterfaceType);
    TypesOfNarrows(f, ChildNodes(n), IsTypeDeclaration, IsStruct, IsStructType);
    TypesOfNarrows(f, DescendantNodes(n), IsTypeDeclaration, IsStruct, IsStructType);
    TypesOfNarrows(f, ChildNodes(n), IsTypeDeclaration, IsRecord, IsRecordType);
    TypesOfNarrows(f, DescendantNodes(n), IsTypeDeclaration, IsRecord, IsRecordType);
  }

  /** The types are exactly the classes, interfaces, structs and records, and
      no enum is among them. */
  lemma TypesAreTheFourKinds(t: TypeDeclaration)
    ensures forall x :: x in GetAllTypes(t) <==>
              x in GetAllClasses(t) || x in GetAllInterfaces(t) || x in GetAllStructs(t) || x in GetAllRecords(t)
    ensures forall x :: x in GetAllTypes(t) ==> !IsEnum(x.syntaxNode)
  {
  }
}
