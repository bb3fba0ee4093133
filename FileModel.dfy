/** SourceFile: one parsed file of the compilation together with the
    project's entry path (the directory holding the project file). It
    lists the root-level using directives and namespaces, gives shallow
    (types declared directly in a block-bodied namespace) and deep (every
    type anywhere in the file) type accessors, and renders the file's path
    relative to the entry path. */
module FileModel {
  import opened Results
  import opened Seqs
  import opened Text
  import opened Syntax
  import TypeModel

  /** The block-bodied namespaces directly under the root, in order. A
      file-scoped `namespace N;` is a different syntax class and is not one of them. */
  function GetNamespaces(f: SourceFile): (r: seq<Node>)
    ensures Subsequence(r, f.syntaxTree.root.children)
    ensures forall n :: n in r <==> n in f.syntaxTree.root.children && IsNamespace(n)
  {
    Filter(IsNamespace, ChildNodes(f.syntaxTree.root))
  }

  /** The name text of a using directive or namespace. */
  function NameText(n: Node): string {
    n.identifier
  }

  /** The names of the root-level using directives, in source order. Usings
      inside a namespace are not listed. */
  function Usings(f: SourceFile): (r: seq<string>)
    ensures |r| == |Filter(IsUsing, f.syntaxTree.root.children)|
    ensures forall i :: 0 <= i < |r| ==> r[i] == Filter(IsUsing, f.syntaxTree.root.children)[i].identifier
    ensures forall u :: u in r <==> exists n :: n in f.syntaxTree.root.children && IsUsing(n) && n.identifier == u
  {
    var cs := f.syntaxTree.root.children;
    var us := Filter(IsUsing, cs);
    var r := Map(NameText, us);
    assert forall u :: u in r ==> exists n :: n in cs && IsUsing(n) && n.identifier == u by {
      forall u | u in r ensures exists n :: n in cs && IsUsing(n) && n.identifier == u {
        var i :| 0 <= i < |r| && r[i] == u;
        assert us[i] in us;
      }
    }
    assert forall u :: (exists n :: n in cs && IsUsing(n) && n.identifier == u) ==> u in r by {
      forall u | exists n :: n in cs && IsUsing(n) && n.identifier == u ensures u in r {
        var n :| n in cs && IsUsing(n) && n.identifier == u;
        assert n in us;
        var i :| 0 <= i < |us| && us[i] == n;
        assert r[i] == u;
      }
    }
    r
  }

  /** The names of the root-level block-bodied namespaces, in source order. */
  function Namespaces(f: SourceFile): (r: seq<string>)
    ensures |r| == |GetNamespaces(f)|
    ensures forall i :: 0 <= i < |r| ==> r[i] == GetNamespaces(f)[i].identifier
  {
    Map(NameText, GetNamespaces(f))
  }

  /** The selection `x => x.ChildNodes().OfType<K>().Select(wrap)` applied to one namespace. */
  function NamespaceTypes(f: SourceFile, p: Node -> bool): (select: Node -> seq<TypeModel.TypeDeclaration>)
    ensures forall ns :: select(ns) == TypeModel.TypesOf(f, ChildNodes(ns), p)
  {
    ns => TypeModel.TypesOf(f, ChildNodes(ns), p)
  }

  /** The types of kind p declared directly in a root-level namespace, namespace by namespace. */
  function ShallowTypes(f: SourceFile, p: Node -> bool): (r: seq<TypeModel.TypeDeclaration>)
    ensures forall x :: x in r <==>
              x.sourceFile == f && p(x.syntaxNode) &&
              exists ns :: ns in GetNamespaces(f) && x.syntaxNode in ns.children
  {
    FlatMap(NamespaceTypes(f, p), GetNamespaces(f))
  }

  /** The types of kind p anywhere under the root, in pre-order. */
  function DeepTypes(f: SourceFile, p: Node -> bool): (r: seq<TypeModel.TypeDeclaration>)
    ensures forall x :: x in r <==>
              x.sourceFile == f && p(x.syntaxNode) && x.syntaxNode in DescendantNodes(f.syntaxTree.root)
  {
    TypeModel.TypesOf(f, DescendantNodes(f.syntaxTree.root), p)
  }

  function GetClasses(f: SourceFile): (r: seq<TypeModel.TypeDeclaration>)
    ensures forall x :: x in r <==>
              x.sourceFile == f && IsClass(x.syntaxNode) &&
              exists ns :: ns in GetNamespaces(f) && x.syntaxNode in ns.children
  {
    ShallowTypes(f, IsClass)
  }

  function GetAllClasses(f: SourceFile): (r: seq<TypeModel.TypeDeclaration>)
    ensures forall x :: x in r <==>
              x.sourceFile == f && IsClass(x.syntaxNode) && x.syntaxNode in DescendantNodes(f.syntaxTree.root)
  {
    DeepTypes(f, IsClass)
  }

  function GetRecords(f: SourceFile): (r: seq<TypeModel.TypeDeclaration>)
    ensures forall x :: x in r <==>
              x.sourceFile == f && IsRecord(x.syntaxNode) &&
              exists ns :: ns in GetNamespaces(f) && x.syntaxNode in ns.children
  {
    ShallowTypes(f, IsRecord)
  }

  function GetAllRecords(f: SourceFile): (r: seq<TypeModel.TypeDeclaration>)
    ensures forall x :: x in r <==>
              x.sourceFile == f && IsRecord(x.syntaxNode) && x.syntaxNode in DescendantNodes(f.syntaxTree.root)
  {
    DeepTypes(f, IsRecord)
  }

  function GetStructs(f: SourceFile): (r: seq<TypeModel.TypeDeclaration>)
    ensures forall x :: x in r <==>
              x.sourceFile == f && IsStruct(x.syntaxNode) &&
              exists ns :: ns in GetNamespaces(f) && x.syntaxNode in ns.children
  {
    ShallowTypes(f, IsStruct)
  }

  function GetAllStructs(f: SourceFile): (r: seq<TypeModel.TypeDeclaration>)
    ensures forall x :: x in r <==>
              x.sourceFile == f && IsStruct(x.syntaxNode) && x.syntaxNode in DescendantNodes(f.syntaxTree.root)
  {
    DeepTypes(f, IsStruct)
  }

  function GetInterfaces(f: SourceFile): (r: seq<TypeModel.TypeDeclaration>)
    ensures forall x :: x in r <==>
              x.sourceFile == f && IsInterface(x.syntaxNode) &&
              exists ns :: ns in GetNamespaces(f) && x.syntaxNode in ns.children
  {
    ShallowTypes(f, IsInterface)
  }

  function GetAllInterfaces(f: SourceFile): (r: seq<TypeModel.TypeDeclaration>)
    ensures forall x :: x in r <==>
              x.sourceFile == f && IsInterface(x.syntaxNode) && x.syntaxNode in DescendantNodes(f.syntaxTree.root)
  {
    DeepTypes(f, IsInterface)
  }

  /** Classes, interfaces, structs and records declared directly in a root-level namespace. */
  function GetTypes(f: SourceFile): (r: seq<TypeModel.TypeDeclaration>)
    ensures forall x :: x in r <==>
              x.sourceFile == f && IsTypeDeclaration(x.syntaxNode) &&
              exists ns :: ns in GetNamespaces(f) && x.syntaxNode in ns.children
  {
    ShallowTypes(f, IsTypeDeclaration)
  }

  function GetAllTypes(f: SourceFile): (r: seq<TypeModel.TypeDeclaration>)
    ensures forall x :: x in r <==>
              x.sourceFile == f && IsTypeDeclaration(x.syntaxNode) && x.syntaxNode in DescendantNodes(f.syntaxTree.root)
  {
    DeepTypes(f, IsTypeDeclaration)
  }

  /** The file's full text. */
  function Body(f: SourceFile): string {
    f.syntaxTree.text
  }

  /** The body is the tree's text; the entry path plays no part in it. */
  lemma BodyIgnoresEntryPath(tree: SyntaxTree, e1: string, e2: string)
    ensures Body(SourceFile(tree, e1)) == tree.text
    ensures Body(SourceFile(tree, e1)) == Body(SourceFile(tree, e2))
  {
  }

  /** The text after the last separator of s (all of s when it has none). */
  function LastSegment(s: string, separators: set<char>): (r: string)
    ensures |r| <= |s| && r == s[|s| - |r|..]
    ensures forall c :: c in r ==> c !in separators
    ensures |r| < |s| ==> s[|s| - |r| - 1] in separators
    decreases |s|
  {
    if s == [] then []
    else if s[|s| - 1] in separators then []
    else
      var rest := LastSegment(s[..|s| - 1], separators);
      assert forall c :: c in rest + [s[|s| - 1]] ==> c in rest || c == s[|s| - 1];
      rest + [s[|s| - 1]]
  }

  /** Path.GetFileName: the file path's last segment. Which characters
      separate directories depends on the platform and is a parameter here. */
  function FileName(f: SourceFile, separators: set<char>): (r: string)
    ensures forall c :: c in r ==> c !in separators
    ensures |r| <= |f.syntaxTree.filePath| && r == f.syntaxTree.filePath[|f.syntaxTree.filePath| - |r|..]
    ensures |r| < |f.syntaxTree.filePath| ==> f.syntaxTree.filePath[|f.syntaxTree.filePath| - |r| - 1] in separators
  {
    LastSegment(f.syntaxTree.filePath, separators)
  }

  /** "./" followed by the tree path without its first EntryPath.Length + 1
      characters, every '\' turned into '/'. Only the length of the entry
      path is used; the tree path must be longer, or Substring throws. */
  function FilePath(f: SourceFile): (r: Result<string>)
    ensures r.Ok? <==> |f.syntaxTree.filePath| > |f.entryPath|
    ensures r.Throws? ==> r.exception == ArgumentOutOfRangeException
    ensures r.Ok? ==> StartsWith(r.value, "./") && '\\' !in r.value
    ensures r.Ok? ==> |r.value| == |f.syntaxTree.filePath| - |f.entryPath| + 1
    ensures r.Ok? ==> forall i :: |f.entryPath| < i < |f.syntaxTree.filePath| ==>
              r.value[i - |f.entryPath| + 1] ==
                if f.syntaxTree.filePath[i] == '\\' then '/' else f.syntaxTree.filePath[i]
  {
    match Substring(f.syntaxTree.filePath, |f.entryPath| + 1)
    case Throws(e) => Throws(e)
    case Ok(relative) =>
      var r := "./" + Replace(relative, '\\', '/');
      assert r[..2] == "./";
      Ok(r)
  }

  /** The file path of `entry\dir\...\name` is `./dir/.../name`: FilePath
      undoes the Windows spelling of a relative path without '\'. */
  lemma {:induction false} FilePathRoundTrip(f: SourceFile, relative: string)
    requires '\\' !in relative && relative != []
    requires f.syntaxTree.filePath == f.entryPath + "\\" + Replace(relative, '/', '\\')
    ensures FilePath(f) == Ok("./" + relative)
  {
    var tp := f.syntaxTree.filePath;
    assert tp[|f.entryPath| + 1..] == Replace(relative, '/', '\\');
    ReplaceRoundTrip(relative, '/', '\\');
  }

  /** FilePath compares lengths only: any tree path longer than the entry
      path is accepted, whether or not the entry path is its prefix. */
  lemma FilePathIgnoresEntryText(tree: SyntaxTree, e1: string, e2: string)
    requires |e1| == |e2|
    ensures FilePath(SourceFile(tree, e1)) == FilePath(SourceFile(tree, e2))
  {
  }

  // ---------------------------------------------------------------------
  // How the accessors relate

  /** The shallow selection is the selection of kind p among the direct
      children of the root-level namespaces, taken together in order. */
  lemma {:induction false} ShallowIsNamespaceChildren(f: SourceFile, p: Node -> bool, nss: seq<Node>)
    ensures FlatMap(NamespaceTypes(f, p), nss) == TypeModel.TypesOf(f, FlatMap(ChildNodes, nss), p)
    decreases |nss|
  {
    if nss != [] {
      ShallowIsNamespaceChildren(f, p, nss[1..]);
      TypeModel.TypesOfConcat(f, ChildNodes(nss[0]), FlatMap(ChildNodes, nss[1..]), p);
    }
  }

  /** Every shallow selection occurs in order in the deep one. */
  lemma {:induction false} ShallowTypesInDeep(f: SourceFile, p: Node -> bool)
    ensures Subsequence(ShallowTypes(f, p), DeepTypes(f, p))
  {
    var root := f.syntaxTree.root;
    ShallowIsNamespaceChildren(f, p, GetNamespaces(f));
    GrandchildrenInDescendants(IsNamespace, root.children);
    TypeModel.TypesOfMonotone(f, FlatMap(ChildNodes, GetNamespaces(f)), DescendantNodes(root), p);
  }

  lemma {:induction false} ShallowInDeep(f: SourceFile)
    ensures Subsequence(GetClasses(f), GetAllClasses(f))
    ensures Subsequence(GetRecords(f), GetAllRecords(f))
    ensures Subsequence(GetStructs(f), GetAllStructs(f))
    ensures Subsequence(GetInterfaces(f), GetAllInterfaces(f))
    ensures Subsequence(GetTypes(f), GetAllTypes(f))
  {
    ShallowTypesInDeep(f, IsClass);
    ShallowTypesInDeep(f, IsRecord);
    ShallowTypesInDeep(f, IsStruct);
    ShallowTypesInDeep(f, IsInterface);
    ShallowTypesInDeep(f, IsTypeDeclaration);
  }

  /** Each kind accessor is the type accessor restricted to that kind. */
  lemma {:induction false} KindsRefineTypes(f: SourceFile)
    ensures GetClasses(f) == Filter(TypeModel.IsClassType, GetTypes(f))
    ensures GetAllClasses(f) == Filter(TypeModel.IsClassType, GetAllTypes(f))
    ensures GetInterfaces(f) == Filter(TypeModel.IsInterfaceType, GetTypes(f))
    ensures GetAllInterfaces(f) == Filter(TypeModel.IsInterfaceType, GetAllTypes(f))
    ensures GetStructs(f) == Filter(TypeModel.IsStructType, GetTypes(f))
    ensures GetAllStructs(f) == Filter(TypeModel.IsStructType, GetAllTypes(f))
    ensures GetRecords(f) == Filter(TypeModel.IsRecordType, GetTypes(f))
    ensures GetAllRecords(f) == Filter(TypeModel.IsRecordType, GetAllTypes(f))
  {
    var nss, d := GetNamespaces(f), DescendantNodes(f.syntaxTree.root);
    var g := FlatMap(ChildNodes, nss);
    ShallowIsNamespaceChildren(f, IsTypeDeclaration, nss);
    ShallowIsNamespaceChildren(f, IsClass, nss);
    ShallowIsNamespaceChildren(f, IsInterface, nss);
    ShallowIsNamespaceChildren(f, IsStruct, nss);
    ShallowIsNamespaceChildren(f, IsRecord, nss);
    TypeModel.TypesOfNarrows(f, g, IsTypeDeclaration, IsClass, TypeModel.IsClassType);
    TypeModel.TypesOfNarrows(f, d, IsTypeDeclaration, IsClass, TypeModel.IsClassType);
    TypeModel.TypesOfNarrows(f, g, IsTypeDeclaration, IsInterface, TypeModel.IsInterfaceType);
    TypeModel.TypesOfNarrows(f, d, IsTypeDeclaration, IsInterface, TypeModel.IsInterfaceType);
    TypeModel.TypesOfNarrows(f, g, IsTypeDeclaration, IsStruct, TypeModel.IsStructType);
    TypeModel.TypesOfNarrows(f, d, IsTypeDeclaration, IsStruct, TypeModel.IsStructType);
    TypeModel.TypesOfNarrows(f, g, IsTypeDeclaration, IsRecord, TypeModel.IsRecordType);
    TypeModel.TypesOfNarrows(f, d, IsTypeDeclaration, IsRecord, TypeModel.IsRecordType);
  }

  /** A class in a file-scoped namespace is found by the deep accessor only. */
  lemma FileScopedNamespaceIsDeepOnly(f: SourceFile, ns: Node, c: Node)
    requires f.syntaxTree.root.children == [ns]
    requires ns.kind == FileScopedNamespaceDecl && ns.children == [c] && IsClass(c)
    ensures GetClasses(f) == [] && GetTypes(f) == []
    ensures TypeModel.TypeDeclaration(f, c) in GetAllClasses(f)
  {
    var root := f.syntaxTree.root;
    assert GetNamespaces(f) == [];
    assert DescendantNodes(root) == [ns] + DescendantNodes(ns) + DescendantsOfAll([]);
    assert DescendantNodes(ns) == DescendantsOfAll([c]);
    assert DescendantsOfAll([c])[0] == c;
  }
}
