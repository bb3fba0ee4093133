/** MethodDeclaration: the read-only view of a method, constructor or other
    BaseMethodDeclarationSyntax node, optionally tied to the type it was read
    from, and the extension filters over sequences of such views. */
module MethodModel {
  import opened Results
  import opened Seqs
  import opened Text
  import opened Syntax
  import AttributeModel
  import ParameterModel

  /** The view of one method-like node; `parent` is the node of the type the
      view was read from, when there is one. */
  datatype MethodDeclaration = MethodDeclaration(syntaxNode: Node, parent: Option<Node>)

  /** The wrapping `new MethodDeclaration(y, parent)` as a function value. */
  function AsMethodOf(parent: Option<Node>): (wrap: Node -> MethodDeclaration)
    ensures forall n :: wrap(n) == MethodDeclaration(n, parent)
  {
    n => MethodDeclaration(n, parent)
  }

  /** The modifier token texts as written (not lower-cased), in source order. */
  function Modifiers(m: MethodDeclaration): seq<string> {
    m.syntaxNode.modifiers
  }

  predicate IsPublic(m: MethodDeclaration) { "public" in Modifiers(m) }
  predicate IsProtected(m: MethodDeclaration) { "protected" in Modifiers(m) }
  predicate IsInternal(m: MethodDeclaration) { "internal" in Modifiers(m) }
  predicate IsPrivate(m: MethodDeclaration) {
    "private" in Modifiers(m) || (!IsPublic(m) && !IsProtected(m) && !IsInternal(m))
  }
  predicate IsReadonly(m: MethodDeclaration) { "readonly" in Modifiers(m) }
  predicate IsStatic(m: MethodDeclaration) { "static" in Modifiers(m) }
  predicate IsAbstract(m: MethodDeclaration) { "abstract" in Modifiers(m) }
  predicate IsAsync(m: MethodDeclaration) { "async" in Modifiers(m) }

  /** Private is explicit or the default, so at least one access flag holds.
      The tokens are compared as written. */
  lemma AccessInvariant(m: MethodDeclaration)
    ensures IsPrivate(m) <==> "private" in m.syntaxNode.modifiers || !(IsPublic(m) || IsProtected(m) || IsInternal(m))
    ensures IsPublic(m) || IsProtected(m) || IsInternal(m) || IsPrivate(m)
    ensures IsPublic(m) <==> exists i :: 0 <= i < |m.syntaxNode.modifiers| && m.syntaxNode.modifiers[i] == "public"
  {
  }

  /** The flags are not exclusive: `protected internal` reports both
      protected and internal, and not private. */
  lemma ProtectedInternalSetsTwo(m: MethodDeclaration)
    requires m.syntaxNode.modifiers == ["protected", "internal"]
    ensures IsProtected(m) && IsInternal(m) && !IsPublic(m) && !IsPrivate(m)
  {
    assert m.syntaxNode.modifiers[0] == "protected" && m.syntaxNode.modifiers[1] == "internal";
    assert forall k :: k in m.syntaxNode.modifiers ==> k == "protected" || k == "internal";
  }

  /** Every other flag is a test on one token as written: it holds iff some
      modifier token is exactly the lower-case keyword. */
  lemma FlagTokens(m: MethodDeclaration)
    ensures IsProtected(m) <==> exists i :: 0 <= i < |m.syntaxNode.modifiers| && m.syntaxNode.modifiers[i] == "protected"
    ensures IsInternal(m) <==> exists i :: 0 <= i < |m.syntaxNode.modifiers| && m.syntaxNode.modifiers[i] == "internal"
    ensures IsReadonly(m) <==> exists i :: 0 <= i < |m.syntaxNode.modifiers| && m.syntaxNode.modifiers[i] == "readonly"
    ensures IsStatic(m) <==> exists i :: 0 <= i < |m.syntaxNode.modifiers| && m.syntaxNode.modifiers[i] == "static"
    ensures IsAbstract(m) <==> exists i :: 0 <= i < |m.syntaxNode.modifiers| && m.syntaxNode.modifiers[i] == "abstract"
    ensures IsAsync(m) <==> exists i :: 0 <= i < |m.syntaxNode.modifiers| && m.syntaxNode.modifiers[i] == "async"
  {
  }

  /** The flags read the modifier list and nothing else: two views with the
      same modifiers agree on every flag, whatever their kind, name or parent. */
  lemma ModifiersDetermineFlags(m1: MethodDeclaration, m2: MethodDeclaration)
    requires Modifiers(m1) == Modifiers(m2)
    ensures IsPublic(m1) == IsPublic(m2) && IsProtected(m1) == IsProtected(m2)
    ensures IsInternal(m1) == IsInternal(m2) && IsPrivate(m1) == IsPrivate(m2)
    ensures IsReadonly(m1) == IsReadonly(m2) && IsStatic(m1) == IsStatic(m2)
    ensures IsAbstract(m1) == IsAbstract(m2) && IsAsync(m1) == IsAsync(m2)
  {
  }

  /** `public static async` lists its three tokens in order and sets exactly
      the public, static and async flags. */
  lemma PublicStaticAsync(m: MethodDeclaration)
    requires m.syntaxNode.modifiers == ["public", "static", "async"]
    ensures Modifiers(m) == ["public", "static", "async"]
    ensures IsPublic(m) && IsStatic(m) && IsAsync(m)
    ensures !IsProtected(m) && !IsInternal(m) && !IsPrivate(m) && !IsReadonly(m) && !IsAbstract(m)
  {
    var mods := m.syntaxNode.modifiers;
    assert mods[0] == "public" && mods[1] == "static" && mods[2] == "async";
    assert forall k :: k in mods ==> k == "public" || k == "static" || k == "async";
  }

  /** The identifier of a method or constructor; every other kind (operator,
      conversion operator, destructor) throws ArgumentNullException. */
  function Name(m: MethodDeclaration): (r: Result<string>)
    ensures r.Ok? <==> IsMethod(m.syntaxNode) || IsConstructor(m.syntaxNode)
    ensures r.Ok? ==> r.value == m.syntaxNode.identifier
    ensures r.Throws? ==> r.exception == ArgumentNullException
  {
    if IsMethod(m.syntaxNode) || IsConstructor(m.syntaxNode) then Ok(m.syntaxNode.identifier)
    else Throws(ArgumentNullException)
  }

  /** The Name setter: it builds a renamed node and drops it, then throws on
      every kind, so a view has no way to change its name. */
  function SetName(m: MethodDeclaration, value: string): (r: Result<MethodDeclaration>)
    ensures r.Throws? && r.exception == NotImplementedException
  {
    Throws(NotImplementedException)
  }

  /** The declared return type's text for a method, "void" for every other kind. */
  function ReturnType(m: MethodDeclaration): (r: string)
    ensures IsMethod(m.syntaxNode) ==> r == m.syntaxNode.kind.callable.returnType.text
    ensures !IsMethod(m.syntaxNode) ==> r == "void"
  {
    if IsMethod(m.syntaxNode) then m.syntaxNode.kind.callable.returnType.text else "void"
  }

  /** The return type's IsNotNull flag for a method, false for every other kind. */
  function ReturnTypeIsNullable(m: MethodDeclaration): (r: bool)
    ensures r ==> IsMethod(m.syntaxNode)
    ensures IsMethod(m.syntaxNode) ==> r == m.syntaxNode.kind.callable.returnType.isNotNull
  {
    IsMethod(m.syntaxNode) && m.syntaxNode.kind.callable.returnType.isNotNull
  }

  /** The attribute views of the declaration's attribute lists, in order
      (the same property as TypeModel.Attributes, declared on this view). */
  function Attributes(m: MethodDeclaration): (r: seq<AttributeModel.AttributeDeclaration>)
    ensures forall a :: a in r <==> exists l :: l in m.syntaxNode.attributeLists && a.node in l
  {
    AttributeModel.AttributesOf(m.syntaxNode.attributeLists)
  }

  /** One parameter view per formal parameter, in order. */
  function Parameters(m: MethodDeclaration): (r: seq<ParameterModel.ParameterDeclaration>)
    ensures |r| == |Filter(IsParameter, m.syntaxNode.children)|
    ensures forall i :: 0 <= i < |r| ==> r[i].syntaxNode == Filter(IsParameter, m.syntaxNode.children)[i]
    ensures forall p :: p in r <==> p.syntaxNode in m.syntaxNode.children && IsParameter(p.syntaxNode)
  {
    var ps := Filter(IsParameter, m.syntaxNode.children);
    var r := Map(ParameterModel.AsMember, ps);
    assert forall p: ParameterModel.ParameterDeclaration :: p.syntaxNode in ps ==> p in r by {
      forall p: ParameterModel.ParameterDeclaration | p.syntaxNode in ps ensures p in r {
        var i :| 0 <= i < |ps| && ps[i] == p.syntaxNode;
        assert r[i] == p;
      }
    }
    r
  }

  /** The text of the block body; a declaration without one (abstract,
      extern, interface or expression-bodied) throws NullReferenceException. */
  function Body(m: MethodDeclaration): (r: Result<string>)
    ensures r.Ok? <==> m.syntaxNode.kind.BaseMethodDecl? && m.syntaxNode.kind.body.Some?
    ensures r.Ok? ==> r.value == m.syntaxNode.kind.body.value
    ensures r.Throws? ==> r.exception == NullReferenceException
  {
    if m.syntaxNode.kind.BaseMethodDecl? && m.syntaxNode.kind.body.Some? then Ok(m.syntaxNode.kind.body.value)
    else Throws(NullReferenceException)
  }

  /** A constructor is named by its identifier, returns "void", and its
      return type is never nullable. */
  lemma ConstructorView(m: MethodDeclaration)
    requires IsConstructor(m.syntaxNode)
    ensures Name(m) == Ok(m.syntaxNode.identifier) && ReturnType(m) == "void" && !ReturnTypeIsNullable(m)
  {
  }

  /** An operator, conversion operator or destructor has no name to give. */
  lemma OperatorHasNoName(m: MethodDeclaration)
    requires m.syntaxNode.kind.BaseMethodDecl? && !m.syntaxNode.kind.callable.OrdinaryMethod? &&
             !m.syntaxNode.kind.callable.ConstructorKind?
    ensures Name(m) == Throws(ArgumentNullException) && ReturnType(m) == "void"
  {
  }

  /** Reading the parameters of `F(p0, ..., pk)` gives back p0, ..., pk in order. */
  lemma {:induction false} ParametersRoundTrip(m: MethodDeclaration)
    requires forall c :: c in m.syntaxNode.children ==> IsParameter(c)
    ensures Map((p: ParameterModel.ParameterDeclaration) => p.syntaxNode, Parameters(m)) == m.syntaxNode.children
  {
    FilterAll(IsParameter, m.syntaxNode.children);
  }

  // ---------------------------------------------------------------------
  // MethodDeclarationExtentions

  /** The test `x => pred(x.Name)`, which throws where Name throws. */
  function NameTest(pred: string -> bool): (test: MethodDeclaration -> Result<bool>)
    ensures forall m :: test(m).Ok? <==> Name(m).Ok?
    ensures forall m :: Name(m).Ok? ==> test(m) == Ok(pred(Name(m).value))
    ensures forall m :: test(m).Throws? ==> test(m) == Throws(ArgumentNullException)
  {
    m => match Name(m)
         case Ok(name) => Ok(pred(name))
         case Throws(e) => Throws(e)
  }

  /** The methods whose name passes the predicate, in order. Enumerating the
      result throws when it meets a view without a name. */
  function WithName(source: seq<MethodDeclaration>, pred: string -> bool): (r: Result<seq<MethodDeclaration>>)
    ensures r.Ok? <==> forall m :: m in source ==> IsMethod(m.syntaxNode) || IsConstructor(m.syntaxNode)
    ensures r.Ok? ==> Subsequence(r.value, source)
    ensures r.Ok? ==> forall m :: m in r.value <==> m in source && pred(m.syntaxNode.identifier)
    ensures r.Throws? ==> r.exception == ArgumentNullException
    ensures r.Ok? ==> forall m :: m in source && pred(m.syntaxNode.identifier) ==>
                                multiset(r.value)[m] == multiset(source)[m]
  {
    TryFilter(NameTest(pred), source)
  }

  /** The test `x => x.Attributes.Any(pred)`. */
  function AttributeTest(pred: AttributeModel.AttributeDeclaration -> bool): (test: MethodDeclaration -> bool)
    ensures forall m :: test(m) <==> exists a :: a in Attributes(m) && pred(a)
  {
    m => Any(pred, Attributes(m))
  }

  /** The methods with some attribute passing the predicate, in order. */
  function WithAttribute(source: seq<MethodDeclaration>, pred: AttributeModel.AttributeDeclaration -> bool)
    : (r: seq<MethodDeclaration>)
    ensures Subsequence(r, source)
    ensures forall m :: m in r <==> m in source && exists a :: a in Attributes(m) && pred(a)
    ensures KeepsCopies(r, source, AttributeTest(pred))
  {
    FilterCounts(AttributeTest(pred), source);
    Filter(AttributeTest(pred), source)
  }

  /** The test `x => x.Attributes.Any(a => a.Name.Equals(name, OrdinalIgnoreCase))`. */
  function AttributeNamedTest(name: string): (test: MethodDeclaration -> bool)
    ensures forall m :: test(m) <==> AttributeModel.HasAttributeNamed(Attributes(m), name)
  {
    m => AttributeModel.HasAttributeNamed(Attributes(m), name)
  }

  /** The methods carrying an attribute whose whole name equals `name` up to
      letter case, in order. */
  function WithAttributeNamed(source: seq<MethodDeclaration>, name: string): (r: seq<MethodDeclaration>)
    ensures Subsequence(r, source)
    ensures forall m :: m in r <==>
              m in source &&
              exists l, a :: l in m.syntaxNode.attributeLists && a in l && EqualsIgnoreCase(a.name, name)
    ensures KeepsCopies(r, source, AttributeNamedTest(name))
  {
    FilterCounts(AttributeNamedTest(name), source);
    var r := Filter(AttributeNamedTest(name), source);
    assert forall m :: AttributeNamedTest(name)(m) <==>
             exists l, a :: l in m.syntaxNode.attributeLists && a in l && EqualsIgnoreCase(a.name, name) by {
      forall m ensures AttributeNamedTest(name)(m) <==>
                       exists l, a :: l in m.syntaxNode.attributeLists && a in l && EqualsIgnoreCase(a.name, name) {
        if exists l, a :: l in m.syntaxNode.attributeLists && a in l && EqualsIgnoreCase(a.name, name) {
          var l, a :| l in m.syntaxNode.attributeLists && a in l && EqualsIgnoreCase(a.name, name);
          assert AttributeModel.AttributeDeclaration(a) in Attributes(m);
        }
      }
    }
    r
  }

  /** The by-name overload is the predicate overload with the name test. */
  lemma {:induction false} WithAttributeNamedIsWithAttribute(source: seq<MethodDeclaration>, name: string)
    ensures WithAttributeNamed(source, name) == WithAttribute(source, AttributeModel.NameIs(name))
  {
    FilterCongruent(AttributeNamedTest(name), AttributeTest(AttributeModel.NameIs(name)), source);
  }

  function WithPublic(source: seq<MethodDeclaration>): (r: seq<MethodDeclaration>)
    ensures Subsequence(r, source) && forall m :: m in r <==> m in source && "public" in m.syntaxNode.modifiers
    ensures KeepsCopies(r, source, IsPublic)
  {
    FilterCounts(IsPublic, source);
    Filter(IsPublic, source)
  }

  function WithProtected(source: seq<MethodDeclaration>): (r: seq<MethodDeclaration>)
    ensures Subsequence(r, source) && forall m :: m in r <==> m in source && "protected" in m.syntaxNode.modifiers
    ensures KeepsCopies(r, source, IsProtected)
  {
    FilterCounts(IsProtected, source);
    Filter(IsProtected, source)
  }

  function WithInternal(source: seq<MethodDeclaration>): (r: seq<MethodDeclaration>)
    ensures Subsequence(r, source) && forall m :: m in r <==> m in source && "internal" in m.syntaxNode.modifiers
    ensures KeepsCopies(r, source, IsInternal)
  {
    FilterCounts(IsInternal, source);
    Filter(IsInternal, source)
  }

  /** The methods that are explicitly private or have no access modifier. */
  function WithPrivate(source: seq<MethodDeclaration>): (r: seq<MethodDeclaration>)
    ensures Subsequence(r, source)
    ensures forall m :: m in r <==>
              m in source &&
              ("private" in m.syntaxNode.modifiers ||
               !("public" in m.syntaxNode.modifiers || "protected" in m.syntaxNode.modifiers ||
                 "internal" in m.syntaxNode.modifiers))
    ensures KeepsCopies(r, source, IsPrivate)
  {
    FilterCounts(IsPrivate, source);
    Filter(IsPrivate, source)
  }

  function WithReadonly(source: seq<MethodDeclaration>): (r: seq<MethodDeclaration>)
    ensures Subsequence(r, source) && forall m :: m in r <==> m in source && "readonly" in m.syntaxNode.modifiers
    ensures KeepsCopies(r, source, IsReadonly)
  {
    FilterCounts(IsReadonly, source);
    Filter(IsReadonly, source)
  }

  function WithStatic(source: seq<MethodDeclaration>): (r: seq<MethodDeclaration>)
    ensures Subsequence(r, source) && forall m :: m in r <==> m in source && "static" in m.syntaxNode.modifiers
    ensures KeepsCopies(r, source, IsStatic)
  {
    FilterCounts(IsStatic, source);
    Filter(IsStatic, source)
  }

  function WithAbstract(source: seq<MethodDeclaration>): (r: seq<MethodDeclaration>)
    ensures Subsequence(r, source) && forall m :: m in r <==> m in source && "abstract" in m.syntaxNode.modifiers
    ensures KeepsCopies(r, source, IsAbstract)
  {
    FilterCounts(IsAbstract, source);
    Filter(IsAbstract, source)
  }

  /** Every method survives at least one of the four access filters. */
  lemma AccessFiltersCover(source: seq<MethodDeclaration>)
    ensures forall m :: m in source ==>
              m in WithPublic(source) || m in WithProtected(source) || m in WithInternal(source) ||
              m in WithPrivate(source)
  {
  }

  /** Applying any of the seven flag filters twice is applying it once. */
  lemma {:induction false} AccessFiltersIdempotent(source: seq<MethodDeclaration>)
    ensures WithPublic(WithPublic(source)) == WithPublic(source)
    ensures WithProtected(WithProtected(source)) == WithProtected(source)
    ensures WithInternal(WithInternal(source)) == WithInternal(source)
    ensures WithPrivate(WithPrivate(source)) == WithPrivate(source)
    ensures WithReadonly(WithReadonly(source)) == WithReadonly(source)
    ensures WithStatic(WithStatic(source)) == WithStatic(source)
    ensures WithAbstract(WithAbstract(source)) == WithAbstract(source)
  {
    assert WithPublic(WithPublic(source)) == WithPublic(source) by { FilterIdempotent(IsPublic, source); }
    assert WithProtected(WithProtected(source)) == WithProtected(source) by { FilterIdempotent(IsProtected, source); }
    assert WithInternal(WithInternal(source)) == WithInternal(source) by { FilterIdempotent(IsInternal, source); }
    assert WithPrivate(WithPrivate(source)) == WithPrivate(source) by { FilterIdempotent(IsPrivate, source); }
    assert WithReadonly(WithReadonly(source)) == WithReadonly(source) by { FilterIdempotent(IsReadonly, source); }
    assert WithStatic(WithStatic(source)) == WithStatic(source) by { FilterIdempotent(IsStatic, source); }
    assert WithAbstract(WithAbstract(source)) == WithAbstract(source) by { FilterIdempotent(IsAbstract, source); }
  }

  /** Any two of the seven flag filters give the same result in either order. */
  lemma {:induction false} AccessFiltersCompose(source: seq<MethodDeclaration>)
    ensures WithPublic(WithProtected(source)) == WithProtected(WithPublic(source))
    ensures WithPublic(WithInternal(source)) == WithInternal(WithPublic(source))
    ensures WithPublic(WithPrivate(source)) == WithPrivate(WithPublic(source))
    ensures WithPublic(WithReadonly(source)) == WithReadonly(WithPublic(source))
    ensures WithPublic(WithStatic(source)) == WithStatic(WithPublic(source))
    ensures WithPublic(WithAbstract(source)) == WithAbstract(WithPublic(source))
    ensures WithProtected(WithInternal(source)) == WithInternal(WithProtected(source))
    ensures WithProtected(WithPrivate(source)) == WithPrivate(WithProtected(source))
    ensures WithProtected(WithReadonly(source)) == WithReadonly(WithProtected(source))
    ensures WithProtected(WithStatic(source)) == WithStatic(WithProtected(source))
    ensures WithProtected(WithAbstract(source)) == WithAbstract(WithProtected(source))
    ensures WithInternal(WithPrivate(source)) == WithPrivate(WithInternal(source))
    ensures WithInternal(WithReadonly(source)) == WithReadonly(WithInternal(source))
    ensures WithInternal(WithStatic(source)) == WithStatic(WithInternal(source))
    ensures WithInternal(WithAbstract(source)) == WithAbstract(WithInternal(source))
    ensures WithPrivate(WithReadonly(source)) == WithReadonly(WithPrivate(source))
    ensures WithPrivate(WithStatic(source)) == WithStatic(WithPrivate(source))
    ensures WithPrivate(WithAbstract(source)) == WithAbstract(WithPrivate(source))
    ensures WithReadonly(WithStatic(source)) == WithStatic(WithReadonly(source))
    ensures WithReadonly(WithAbstract(source)) == WithAbstract(WithReadonly(source))
    ensures WithStatic(WithAbstract(source)) == WithAbstract(WithStatic(source))
  {
    assert WithPublic(WithProtected(source)) == WithProtected(WithPublic(source)) by { FilterCommutes(IsPublic, IsProtected, source); }
    assert WithPublic(WithInternal(source)) == WithInternal(WithPublic(source)) by { FilterCommutes(IsPublic, IsInternal, source); }
    assert WithPublic(WithPrivate(source)) == WithPrivate(WithPublic(source)) by { FilterCommutes(IsPublic, IsPrivate, source); }
    assert WithPublic(WithReadonly(source)) == WithReadonly(WithPublic(source)) by { FilterCommutes(IsPublic, IsReadonly, source); }
    assert WithPublic(WithStatic(source)) == WithStatic(WithPublic(source)) by { FilterCommutes(IsPublic, IsStatic, source); }
    assert WithPublic(WithAbstract(source)) == WithAbstract(WithPublic(source)) by { FilterCommutes(IsPublic, IsAbstract, source); }
    assert WithProtected(WithInternal(source)) == WithInternal(WithProtected(source)) by { FilterCommutes(IsProtected, IsInternal, source); }
    assert WithProtected(WithPrivate(source)) == WithPrivate(WithProtected(source)) by { FilterCommutes(IsProtected, IsPrivate, source); }
    assert WithProtected(WithReadonly(source)) == WithReadonly(WithProtected(source)) by { FilterCommutes(IsProtected, IsReadonly, source); }
    assert WithProtected(WithStatic(source)) == WithStatic(WithProtected(source)) by { FilterCommutes(IsProtected, IsStatic, source); }
    assert WithProtected(WithAbstract(source)) == WithAbstract(WithProtected(source)) by { FilterCommutes(IsProtected, IsAbstract, source); }
    assert WithInternal(WithPrivate(source)) == WithPrivate(WithInternal(source)) by { FilterCommutes(IsInternal, IsPrivate, source); }
    assert WithInternal(WithReadonly(source)) == WithReadonly(WithInternal(source)) by { FilterCommutes(IsInternal, IsReadonly, source); }
    assert WithInternal(WithStatic(source)) == WithStatic(WithInternal(source)) by { FilterCommutes(IsInternal, IsStatic, source); }
    assert WithInternal(WithAbstract(source)) == WithAbstract(WithInternal(source)) by { FilterCommutes(IsInternal, IsAbstract, source); }
    assert WithPrivate(WithReadonly(source)) == WithReadonly(WithPrivate(source)) by { FilterCommutes(IsPrivate, IsReadonly, source); }
    assert WithPrivate(WithStatic(source)) == WithStatic(WithPrivate(source)) by { FilterCommutes(IsPrivate, IsStatic, source); }
    assert WithPrivate(WithAbstract(source)) == WithAbstract(WithPrivate(source)) by { FilterCommutes(IsPrivate, IsAbstract, source); }
    assert WithReadonly(WithStatic(source)) == WithStatic(WithReadonly(source)) by { FilterCommutes(IsReadonly, IsStatic, source); }
    assert WithReadonly(WithAbstract(source)) == WithAbstract(WithReadonly(source)) by { FilterCommutes(IsReadonly, IsAbstract, source); }
    assert WithStatic(WithAbstract(source)) == WithAbstract(WithStatic(source)) by { FilterCommutes(IsStatic, IsAbstract, source); }
  }
}
