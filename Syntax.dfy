/** The parsed C# syntax tree the query layer reads, as an immutable value.
    A `Node` has a `Kind`, which mirrors the Roslyn syntax class of the node
    and carries the data only that class has, and the parts every declaration
    shares: its identifier, modifier tokens, attribute lists and child nodes.
    Rendered text (`ToString()`, `GetText()`) is stored as strings, and
    Roslyn's `TypeSyntax.IsNotNull` as a boolean. */
module Syntax {
  import opened Results
  import opened Seqs

  /** A type reference: its rendered text and its `IsNotNull` flag. */
  datatype TypeRef = TypeRef(text: string, isNotNull: bool)

  /** One argument of an attribute: an optional `name =` part and the expression text. */
  datatype AttributeArgument = AttributeArgument(nameEquals: Option<string>, expression: string)

  /** An attribute as written: its (possibly qualified) name and its argument
      list, which is absent when the attribute has no parentheses. */
  datatype Attribute = Attribute(name: string, argumentList: Option<seq<AttributeArgument>>)

  /** An enum member and the text of its explicit value, if any. */
  datatype EnumMember = EnumMember(identifier: string, equalsValue: Option<string>)

  /** One declarator of a field declaration and its initializer text, if any. */
  datatype Variable = Variable(identifier: string, initializer: Option<string>)

  /** The concrete classes derived from TypeDeclarationSyntax. */
  datatype TypeKind = ClassKind | InterfaceKind | StructKind | RecordKind

  /** The concrete classes derived from BaseMethodDeclarationSyntax. */
  datatype CallableKind =
    | OrdinaryMethod(returnType: TypeRef)
    | ConstructorKind
    | DestructorKind
    | OperatorKind
    | ConversionOperatorKind

  /** The syntax class of a node, with the data only that class carries. */
  datatype Kind =
    | CompilationUnit
    | NamespaceDecl                  // block-bodied `namespace N { }`; identifier is its name
    | FileScopedNamespaceDecl        // `namespace N;`, a different class
    | UsingDirective                 // identifier is the imported name
    | TypeDecl(typeKind: TypeKind, baseList: Option<seq<string>>)
    | EnumDecl(members: seq<EnumMember>)
    | FieldDecl(declarationType: TypeRef, variables: seq<Variable>)
    | PropertyDecl(propertyType: TypeRef, initializer: Option<string>)
    | BaseMethodDecl(callable: CallableKind, body: Option<string>)
    | OtherMemberDecl                // events, indexers, delegates, ...
    | ParameterNode(parameterType: TypeRef, defaultValue: Option<string>)
    | OtherNode                      // statements, expressions, lists, clauses

  /** A syntax node. A method's formal parameters are its ParameterNode
      children (the ParameterList node between them is elided). */
  datatype Node = Node(
    kind: Kind,
    identifier: string,
    modifiers: seq<string>,
    attributeLists: seq<seq<Attribute>>,
    children: seq<Node>)

  /** A parsed file: its path on disk, its root node and its full text. */
  datatype SyntaxTree = SyntaxTree(filePath: string, root: Node, text: string)

  /** SourceFile's state: the tree it wraps and the project's entry path. */
  datatype SourceFile = SourceFile(syntaxTree: SyntaxTree, entryPath: string)

  // ---------------------------------------------------------------------
  // The `is`/`OfType` tests of the source, one per syntax class

  predicate IsTypeDeclaration(n: Node) { n.kind.TypeDecl? }
  predicate IsClass(n: Node) { n.kind.TypeDecl? && n.kind.typeKind == ClassKind }
  predicate IsInterface(n: Node) { n.kind.TypeDecl? && n.kind.typeKind == InterfaceKind }
  predicate IsStruct(n: Node) { n.kind.TypeDecl? && n.kind.typeKind == StructKind }
  predicate IsRecord(n: Node) { n.kind.TypeDecl? && n.kind.typeKind == RecordKind }
  predicate IsEnum(n: Node) { n.kind.EnumDecl? }
  predicate IsField(n: Node) { n.kind.FieldDecl? }
  predicate IsProperty(n: Node) { n.kind.PropertyDecl? }
  predicate IsMethod(n: Node) { n.kind.BaseMethodDecl? && n.kind.callable.OrdinaryMethod? }
  predicate IsConstructor(n: Node) { n.kind.BaseMethodDecl? && n.kind.callable.ConstructorKind? }
  predicate IsParameter(n: Node) { n.kind.ParameterNode? }
  predicate IsNamespace(n: Node) { n.kind.NamespaceDecl? }
  predicate IsUsing(n: Node) { n.kind.UsingDirective? }

  /** MemberDeclarationSyntax: every declaration that can appear in a type or namespace body. */
  predicate IsMember(n: Node) {
    !(n.kind.CompilationUnit? || n.kind.UsingDirective? || n.kind.ParameterNode? || n.kind.OtherNode?)
  }

  // ---------------------------------------------------------------------
  // Traversal

  /** ChildNodes(): the direct children, in document order. */
  function ChildNodes(n: Node): seq<Node> {
    n.children
  }

  /** DescendantNodes(): every node below n, in pre-order, n itself excluded. */
  function DescendantNodes(n: Node): seq<Node>
    decreases n
  {
    DescendantsOfAll(n.children)
  }

  /** Each node of cs followed by its descendants, in order. */
  function DescendantsOfAll(cs: seq<Node>): seq<Node>
    decreases cs
  {
    if cs == [] then [] else [cs[0]] + DescendantNodes(cs[0]) + DescendantsOfAll(cs[1..])
  }

  /** The children of a node occur among its descendants, in the same order. */
  lemma {:induction false} ChildrenInDescendants(n: Node)
    ensures Subsequence(ChildNodes(n), DescendantNodes(n))
  {
    ListInDescendants(n.children);
  }

  lemma {:induction false} ListInDescendants(cs: seq<Node>)
    ensures Subsequence(cs, DescendantsOfAll(cs))
    decreases |cs|
  {
    if cs != [] {
      ListInDescendants(cs[1..]);
      SubsequencePrepend(DescendantNodes(cs[0]), cs[1..], DescendantsOfAll(cs[1..]));
      var d := DescendantsOfAll(cs);
      assert d[0] == cs[0] && d[1..] == DescendantNodes(cs[0]) + DescendantsOfAll(cs[1..]);
    }
  }

  /** Descendants are closed under descent: a node below a descendant of n
      is itself a descendant of n, to any depth. */
  lemma {:induction false} DescendantsTransitive(n: Node, c: Node, d: Node)
    requires c in DescendantNodes(n) && d in DescendantNodes(c)
    ensures d in DescendantNodes(n)
    decreases n, 1
  {
    ListDescendantsTransitive(n.children, c, d);
  }

  lemma {:induction false} ListDescendantsTransitive(cs: seq<Node>, c: Node, d: Node)
    requires c in DescendantsOfAll(cs) && d in DescendantNodes(c)
    ensures d in DescendantsOfAll(cs)
    decreases cs, 0
  {
    var head, here, rest := cs[0], DescendantNodes(cs[0]), DescendantsOfAll(cs[1..]);
    assert DescendantsOfAll(cs) == [head] + here + rest;
    if c == head {
    } else if c in here {
      DescendantsTransitive(head, c, d);
    } else {
      ListDescendantsTransitive(cs[1..], c, d);
    }
  }

  /** A child's descendants are among the parent's descendants. */
  lemma {:induction false} ChildDescendants(n: Node, c: Node, d: Node)
    requires c in n.children && d in DescendantNodes(c)
    ensures d in DescendantNodes(n)
  {
    ChildrenInDescendants(n);
    SubsequenceMembers(n.children, DescendantNodes(n));
    DescendantsTransitive(n, c, d);
  }

  /** When no node passing p lies below the children of n, the deep and the
      shallow selection of p agree. */
  lemma {:induction false} DeepIsShallowWhenFlat(p: Node -> bool, n: Node)
    requires forall c, d :: c in n.children && d in DescendantNodes(c) ==> !p(d)
    ensures Filter(p, DescendantNodes(n)) == Filter(p, ChildNodes(n))
  {
    ListDeepIsShallowWhenFlat(p, n.children);
  }

  lemma {:induction false} ListDeepIsShallowWhenFlat(p: Node -> bool, cs: seq<Node>)
    requires forall c, d :: c in cs && d in DescendantNodes(c) ==> !p(d)
    ensures Filter(p, DescendantsOfAll(cs)) == Filter(p, cs)
    decreases |cs|
  {
    if cs != [] {
      var head, here, rest := cs[0], DescendantNodes(cs[0]), DescendantsOfAll(cs[1..]);
      assert forall c :: c in cs[1..] ==> c in cs;
      ListDeepIsShallowWhenFlat(p, cs[1..]);
      assert forall d :: d in here ==> !p(d);
      FilterNone(p, here);
      FilterConcat(p, [head] + here, rest);
      FilterConcat(p, [head], here);
      assert cs == [head] + cs[1..];
      FilterConcat(p, [head], cs[1..]);
    }
  }

  /** The children of the nodes of cs that pass q occur, in order, among the
      descendants of cs. */
  lemma {:induction false} GrandchildrenInDescendants(q: Node -> bool, cs: seq<Node>)
    ensures Subsequence(FlatMap(ChildNodes, Filter(q, cs)), DescendantsOfAll(cs))
    decreases |cs|
  {
    if cs != [] {
      var head, here, rest := cs[0], DescendantNodes(cs[0]), DescendantsOfAll(cs[1..]);
      GrandchildrenInDescendants(q, cs[1..]);
      var tail := FlatMap(ChildNodes, Filter(q, cs[1..]));
      assert DescendantsOfAll(cs) == ([head] + here) + rest;
      if q(head) {
        ChildrenInDescendants(head);
        SubsequencePrepend([head], head.children, here);
        assert Filter(q, cs) == [head] + Filter(q, cs[1..]);
        assert FlatMap(ChildNodes, Filter(q, cs)) == head.children + tail;
        SubsequenceConcat(head.children, [head] + here, tail, rest);
      } else {
        SubsequencePrepend([head] + here, tail, rest);
      }
    }
  }
}
