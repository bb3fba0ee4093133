/** The earlier variant of the declaration views (the root-level
    Declarations directory). Its type view is the current one except that
    the method views it creates carry no parent, and its method view has no
    parent field and no extension filters. The parameter view is identical.
    Everything else is shared with the current model; this module states the
    differences and how far they reach. */
module Legacy {
  import opened Results
  import opened Seqs
  import opened Syntax
  import ParameterModel
  import MethodModel
  import TypeModel
  import TypeQueries

  /** `node.ChildNodes().OfType<ConstructorDeclarationSyntax>().Select(y => new MethodDeclaration(y))`. */
  function GetConstructors(t: TypeModel.TypeDeclaration): (r: seq<MethodModel.MethodDeclaration>)
    ensures forall m :: m in r <==>
              m.parent == None && m.syntaxNode in t.syntaxNode.children && IsConstructor(m.syntaxNode)
  {
    TypeModel.MethodsOf(None, ChildNodes(t.syntaxNode), IsConstructor)
  }

  function GetMethods(t: TypeModel.TypeDeclaration): (r: seq<MethodModel.MethodDeclaration>)
    ensures forall m :: m in r <==>
              m.parent == None && m.syntaxNode in t.syntaxNode.children && IsMethod(m.syntaxNode)
  {
    TypeModel.MethodsOf(None, ChildNodes(t.syntaxNode), IsMethod)
  }

  /** A method view with its parent dropped. */
  function Orphan(m: MethodModel.MethodDeclaration): (r: MethodModel.MethodDeclaration)
    ensures r.syntaxNode == m.syntaxNode && r.parent == None
  {
    MethodModel.MethodDeclaration(m.syntaxNode, None)
  }

  /** The earlier accessors list the same nodes, in the same order, as the
      current ones; only the parent is missing. */
  lemma {:induction false} SameMethodsWithoutParent(t: TypeModel.TypeDeclaration)
    ensures GetMethods(t) == Map(Orphan, TypeModel.GetMethods(t))
    ensures GetConstructors(t) == Map(Orphan, TypeModel.GetConstructors(t))
  {
    var cs := ChildNodes(t.syntaxNode);
    var ms, cons := Filter(IsMethod, cs), Filter(IsConstructor, cs);
    assert forall i :: 0 <= i < |ms| ==> Map(Orphan, TypeModel.GetMethods(t))[i] == GetMethods(t)[i];
    assert forall i :: 0 <= i < |cons| ==> Map(Orphan, TypeModel.GetConstructors(t))[i] == GetConstructors(t)[i];
  }

  /** A predicate on method views that does not look at the parent. */
  ghost predicate IgnoresParent(pred: MethodModel.MethodDeclaration -> bool) {
    forall m :: pred(m) == pred(Orphan(m))
  }

  /** The test `x => x.GetMethods().Any(m => predicate(m))` over the earlier accessor. */
  function MethodTest(pred: MethodModel.MethodDeclaration -> bool): (test: TypeModel.TypeDeclaration -> bool)
    ensures forall x :: test(x) <==> exists m :: m in GetMethods(x) && pred(m)
  {
    x => Any(pred, GetMethods(x))
  }

  /** WithMethods of the earlier variant. */
  function WithMethods(source: seq<TypeModel.TypeDeclaration>, pred: MethodModel.MethodDeclaration -> bool)
    : (r: seq<TypeModel.TypeDeclaration>)
    ensures Subsequence(r, source)
    ensures forall x :: x in r <==>
              x in source &&
              exists c :: c in x.syntaxNode.children && IsMethod(c) && pred(MethodModel.MethodDeclaration(c, None))
    ensures KeepsCopies(r, source, MethodTest(pred))
  {
    FilterCounts(MethodTest(pred), source);
    var r := Filter(MethodTest(pred), source);
    assert forall x :: x in r <==> x in source && exists m :: m in GetMethods(x) && pred(m);
    assert forall x: TypeModel.TypeDeclaration, c :: c in x.syntaxNode.children && IsMethod(c) ==> MethodModel.MethodDeclaration(c, None) in GetMethods(x);
    r
  }

  /** GetMethods(source, predicate) of the earlier variant. */
  function GetMethodsWhere(source: seq<TypeModel.TypeDeclaration>, pred: MethodModel.MethodDeclaration -> bool)
    : (r: seq<MethodModel.MethodDeclaration>)
    ensures Subsequence(r, FlatMap(GetMethods, source))
    ensures forall m :: m in r <==> pred(m) && exists x :: x in source && m in GetMethods(x)
    ensures KeepsCopies(r, FlatMap(GetMethods, source), pred)
  {
    FilterCounts(pred, FlatMap(GetMethods, source));
    Filter(pred, FlatMap(GetMethods, source))
  }

  /** For a predicate that ignores the parent, both variants of WithMethods select the same types. */
  lemma {:induction false} WithMethodsAgree(source: seq<TypeModel.TypeDeclaration>, pred: MethodModel.MethodDeclaration -> bool)
    requires IgnoresParent(pred)
    ensures WithMethods(source, pred) == TypeQueries.WithMethods(source, pred)
  {
    forall x | x in source ensures MethodTest(pred)(x) == TypeQueries.MethodTest(pred)(x) {
      if TypeQueries.MethodTest(pred)(x) {
        var m :| m in TypeModel.GetMethods(x) && pred(m);
        assert Orphan(m) in GetMethods(x) && pred(Orphan(m));
      }
      if MethodTest(pred)(x) {
        var m :| m in GetMethods(x) && pred(m);
        var m' := MethodModel.MethodDeclaration(m.syntaxNode, Some(x.syntaxNode));
        assert m' in TypeModel.GetMethods(x) && pred(Orphan(m')) && Orphan(m') == m;
      }
    }
    FilterCongruent(MethodTest(pred), TypeQueries.MethodTest(pred), source);
  }

  /** The kind-based parts of a method view read only the node, so a view
      without parent reports the same name, return type and flags. */
  lemma OrphanReadsTheSame(m: MethodModel.MethodDeclaration)
    ensures MethodModel.Name(Orphan(m)) == MethodModel.Name(m)
    ensures MethodModel.ReturnType(Orphan(m)) == MethodModel.ReturnType(m)
    ensures MethodModel.Parameters(Orphan(m)) == MethodModel.Parameters(m)
    ensures MethodModel.IsPublic(Orphan(m)) == MethodModel.IsPublic(m)
    ensures MethodModel.IsProtected(Orphan(m)) == MethodModel.IsProtected(m)
    ensures MethodModel.IsInternal(Orphan(m)) == MethodModel.IsInternal(m)
    ensures MethodModel.IsPrivate(Orphan(m)) == MethodModel.IsPrivate(m)
  {
  }

  /** The earlier parameter view is the current one: for a parameter every
      flag is false; for any other member private is explicit or the
      default; enums report their own identifier as type and name and no
      default; an unlisted kind has no type; a parameter without a default
      clause fails; only an enum has values. */
  lemma ParameterViewFacts(p: ParameterModel.ParameterDeclaration)
    ensures IsParameter(p.syntaxNode) ==>
              !ParameterModel.IsPublic(p) && !ParameterModel.IsProtected(p) && !ParameterModel.IsInternal(p) &&
              !ParameterModel.IsPrivate(p) && !ParameterModel.IsReadonly(p) && !ParameterModel.IsStatic(p) &&
              !ParameterModel.IsAbstract(p)
    ensures !IsParameter(p.syntaxNode) ==>
              (ParameterModel.IsPrivate(p) <==>
                 "private" in ParameterModel.Modifiers(p) ||
                 !(ParameterModel.IsPublic(p) || ParameterModel.IsProtected(p) || ParameterModel.IsInternal(p)))
    ensures IsEnum(p.syntaxNode) ==>
              ParameterModel.Type(p) == Ok(p.syntaxNode.identifier) && ParameterModel.DefaultValue(p) == Ok(None)
    ensures !(IsParameter(p.syntaxNode) || IsField(p.syntaxNode) || IsProperty(p.syntaxNode) || IsEnum(p.syntaxNode)) ==>
              ParameterModel.Type(p) == Throws(ArgumentException) && ParameterModel.DefaultValue(p) == Ok(None)
    ensures IsParameter(p.syntaxNode) && p.syntaxNode.kind.defaultValue.None? ==>
              ParameterModel.DefaultValue(p) == Throws(NullReferenceException)
    ensures ParameterModel.Values(p) != [] ==> IsEnum(p.syntaxNode)
  {
  }

  /** The earlier method view, which never has a parent: at least one access
      flag holds, the name exists exactly for methods and constructors,
      every other kind returns "void" and is not nullable, and the
      parameters are the parameter children in order. */
  lemma MethodViewFacts(m: MethodModel.MethodDeclaration)
    requires m.parent == None
    ensures MethodModel.IsPublic(m) || MethodModel.IsProtected(m) || MethodModel.IsInternal(m) || MethodModel.IsPrivate(m)
    ensures MethodModel.Name(m).Ok? <==> IsMethod(m.syntaxNode) || IsConstructor(m.syntaxNode)
    ensures !IsMethod(m.syntaxNode) ==> MethodModel.ReturnType(m) == "void" && !MethodModel.ReturnTypeIsNullable(m)
    ensures Map((p: ParameterModel.ParameterDeclaration) => p.syntaxNode, MethodModel.Parameters(m)) ==
            Filter(IsParameter, m.syntaxNode.children)
  {
    var ps := MethodModel.Parameters(m);
    var q := Map((p: ParameterModel.ParameterDeclaration) => p.syntaxNode, ps);
    assert |q| == |Filter(IsParameter, m.syntaxNode.children)|;
    assert forall i :: 0 <= i < |q| ==> q[i] == Filter(IsParameter, m.syntaxNode.children)[i];
  }
}
