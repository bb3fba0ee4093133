/** ParameterDeclaration: the read-only view the query layer gives a method
    parameter, a field, a property, an enum or any other member
    declaration. Every accessor dispatches on the syntax class of the
    wrapped node; the view never changes after it is built. */
module ParameterModel {
  import opened Results
  import opened Seqs
  import opened Text
  import opened Syntax
  import AttributeModel

  /** The view of one member or parameter node. */
  datatype ParameterDeclaration = ParameterDeclaration(syntaxNode: Node)

  /** The wrapping `new ParameterDeclaration(x)` as a function value. */
  function AsMember(n: Node): (r: ParameterDeclaration)
    ensures r.syntaxNode == n
  {
    ParameterDeclaration(n)
  }

  /** Member and parameter nodes carry modifier tokens and attribute lists;
      any other node falls back to the empty (default) lists. */
  predicate HasModifierList(n: Node) {
    IsMember(n) || IsParameter(n)
  }

  /** The modifier token texts, lower-cased, in source order. */
  function Modifiers(p: ParameterDeclaration): (r: seq<string>)
    ensures HasModifierList(p.syntaxNode) ==> r == LowerAll(p.syntaxNode.modifiers)
    ensures !HasModifierList(p.syntaxNode) ==> r == []
    ensures forall k :: k in r <==>
              HasModifierList(p.syntaxNode) &&
              exists i :: 0 <= i < |p.syntaxNode.modifiers| && ToLower(p.syntaxNode.modifiers[i]) == k
  {
    if HasModifierList(p.syntaxNode) then LowerAll(p.syntaxNode.modifiers) else []
  }

  // The flags ask a parameter nothing: each is false for a parameter node.

  predicate IsPublic(p: ParameterDeclaration) { !IsParameter(p.syntaxNode) && "public" in Modifiers(p) }
  predicate IsProtected(p: ParameterDeclaration) { !IsParameter(p.syntaxNode) && "protected" in Modifiers(p) }
  predicate IsInternal(p: ParameterDeclaration) { !IsParameter(p.syntaxNode) && "internal" in Modifiers(p) }
  predicate IsPrivate(p: ParameterDeclaration) {
    !IsParameter(p.syntaxNode) &&
    ("private" in Modifiers(p) || (!IsPublic(p) && !IsProtected(p) && !IsInternal(p)))
  }
  predicate IsReadonly(p: ParameterDeclaration) { !IsParameter(p.syntaxNode) && "readonly" in Modifiers(p) }
  predicate IsStatic(p: ParameterDeclaration) { !IsParameter(p.syntaxNode) && "static" in Modifiers(p) }
  predicate IsAbstract(p: ParameterDeclaration) { !IsParameter(p.syntaxNode) && "abstract" in Modifiers(p) }

  /** A parameter reports every flag false, whatever modifiers it has
      (`ref`, `this`, `params`, ... or even a stray `public`). */
  lemma ParameterHasNoFlags(p: ParameterDeclaration)
    requires IsParameter(p.syntaxNode)
    ensures !IsPublic(p) && !IsProtected(p) && !IsInternal(p) && !IsPrivate(p)
    ensures !IsReadonly(p) && !IsStatic(p) && !IsAbstract(p)
  {
  }

  /** On a member, private is explicit or the default, so at least one access
      flag holds; a token counts whatever its letter case. */
  lemma {:induction false} AccessInvariant(p: ParameterDeclaration)
    requires !IsParameter(p.syntaxNode)
    ensures IsPrivate(p) <==> "private" in Modifiers(p) || !(IsPublic(p) || IsProtected(p) || IsInternal(p))
    ensures IsPublic(p) || IsProtected(p) || IsInternal(p) || IsPrivate(p)
    ensures IsMember(p.syntaxNode) ==>
              (IsPublic(p) <==> exists i :: 0 <= i < |p.syntaxNode.modifiers| && ToLower(p.syntaxNode.modifiers[i]) == "public")
  {
  }

  /** On a member, each flag other than private holds iff some modifier
      token, lower-cased, is the keyword. */
  lemma {:induction false} FlagTokens(p: ParameterDeclaration)
    requires IsMember(p.syntaxNode)
    ensures IsProtected(p) <==> exists i :: 0 <= i < |p.syntaxNode.modifiers| && ToLower(p.syntaxNode.modifiers[i]) == "protected"
    ensures IsInternal(p) <==> exists i :: 0 <= i < |p.syntaxNode.modifiers| && ToLower(p.syntaxNode.modifiers[i]) == "internal"
    ensures IsReadonly(p) <==> exists i :: 0 <= i < |p.syntaxNode.modifiers| && ToLower(p.syntaxNode.modifiers[i]) == "readonly"
    ensures IsStatic(p) <==> exists i :: 0 <= i < |p.syntaxNode.modifiers| && ToLower(p.syntaxNode.modifiers[i]) == "static"
    ensures IsAbstract(p) <==> exists i :: 0 <= i < |p.syntaxNode.modifiers| && ToLower(p.syntaxNode.modifiers[i]) == "abstract"
  {
  }

  /** A node that is neither a member nor a parameter has no modifiers, so it
      reports private and no other flag. */
  lemma OtherNodeIsPrivate(p: ParameterDeclaration)
    requires !HasModifierList(p.syntaxNode)
    ensures Modifiers(p) == []
    ensures IsPrivate(p) && !IsPublic(p) && !IsProtected(p) && !IsInternal(p)
    ensures !IsReadonly(p) && !IsStatic(p) && !IsAbstract(p)
  {
  }

  /** The attribute views of the node's attribute lists, in order; unlike the
      type and method views, a node without lists gives none. */
  function Attributes(p: ParameterDeclaration): (r: seq<AttributeModel.AttributeDeclaration>)
    ensures HasModifierList(p.syntaxNode) ==> r == AttributeModel.AttributesOf(p.syntaxNode.attributeLists)
    ensures !HasModifierList(p.syntaxNode) ==> r == []
    ensures forall a :: a in r <==>
              HasModifierList(p.syntaxNode) && exists l :: l in p.syntaxNode.attributeLists && a.node in l
  {
    if HasModifierList(p.syntaxNode) then AttributeModel.AttributesOf(p.syntaxNode.attributeLists) else []
  }

  /** The declared type's text; an enum gives its own name; every other kind
      throws ArgumentException. */
  function Type(p: ParameterDeclaration): (r: Result<string>)
    ensures r.Ok? <==> IsParameter(p.syntaxNode) || IsField(p.syntaxNode) || IsProperty(p.syntaxNode) || IsEnum(p.syntaxNode)
    ensures r.Throws? ==> r.exception == ArgumentException
    ensures IsParameter(p.syntaxNode) ==> r.Ok? && r.value == p.syntaxNode.kind.parameterType.text
    ensures IsField(p.syntaxNode) ==> r.Ok? && r.value == p.syntaxNode.kind.declarationType.text
    ensures IsProperty(p.syntaxNode) ==> r.Ok? && r.value == p.syntaxNode.kind.propertyType.text
    ensures IsEnum(p.syntaxNode) ==> r.Ok? && r.value == p.syntaxNode.identifier
  {
    match p.syntaxNode.kind
    case ParameterNode(t, _) => Ok(t.text)
    case FieldDecl(t, _) => Ok(t.text)
    case PropertyDecl(t, _) => Ok(t.text)
    case EnumDecl(_) => Ok(p.syntaxNode.identifier)
    case _ => Throws(ArgumentException)
  }

  /** The declared type's IsNotNull flag; false for an enum and every other kind. */
  function IsNullable(p: ParameterDeclaration): (r: bool)
    ensures r ==> IsParameter(p.syntaxNode) || IsField(p.syntaxNode) || IsProperty(p.syntaxNode)
    ensures IsParameter(p.syntaxNode) ==> r == p.syntaxNode.kind.parameterType.isNotNull
    ensures IsField(p.syntaxNode) ==> r == p.syntaxNode.kind.declarationType.isNotNull
    ensures IsProperty(p.syntaxNode) ==> r == p.syntaxNode.kind.propertyType.isNotNull
  {
    match p.syntaxNode.kind
    case ParameterNode(t, _) => t.isNotNull
    case FieldDecl(t, _) => t.isNotNull
    case PropertyDecl(t, _) => t.isNotNull
    case _ => false
  }

  /** The declared name: a field's is its first declarator's (`Variables[0]`,
      which throws on a field without declarators); kinds other than
      parameter, field, property and enum give null. */
  function Name(p: ParameterDeclaration): (r: Result<Option<string>>)
    ensures r == Ok(None) <==>
              !(IsParameter(p.syntaxNode) || IsField(p.syntaxNode) || IsProperty(p.syntaxNode) || IsEnum(p.syntaxNode))
    ensures r.Throws? <==> IsField(p.syntaxNode) && p.syntaxNode.kind.variables == []
    ensures r.Throws? ==> r.exception == ArgumentOutOfRangeException
    ensures IsField(p.syntaxNode) && p.syntaxNode.kind.variables != [] ==>
              r == Ok(Some(p.syntaxNode.kind.variables[0].identifier))
    ensures IsParameter(p.syntaxNode) || IsProperty(p.syntaxNode) || IsEnum(p.syntaxNode) ==>
              r == Ok(Some(p.syntaxNode.identifier))
  {
    match p.syntaxNode.kind
    case ParameterNode(_, _) => Ok(Some(p.syntaxNode.identifier))
    case FieldDecl(_, vars) =>
      if vars == [] then Throws(ArgumentOutOfRangeException) else Ok(Some(vars[0].identifier))
    case PropertyDecl(_, _) => Ok(Some(p.syntaxNode.identifier))
    case EnumDecl(_) => Ok(Some(p.syntaxNode.identifier))
    case _ => Ok(None)
  }

  /** The default or initial value's text: a parameter's default clause (read
      without a null check, so a parameter without one throws), a field's
      first declarator's initializer, a property's initializer; every other
      kind gives null. */
  function DefaultValue(p: ParameterDeclaration): (r: Result<Option<string>>)
    ensures r.Throws? <==>
              (IsParameter(p.syntaxNode) && p.syntaxNode.kind.defaultValue.None?) ||
              (IsField(p.syntaxNode) && p.syntaxNode.kind.variables == [])
    ensures r.Throws? && IsParameter(p.syntaxNode) ==> r.exception == NullReferenceException
    ensures r.Throws? && IsField(p.syntaxNode) ==> r.exception == ArgumentOutOfRangeException
    ensures IsParameter(p.syntaxNode) && r.Ok? ==> r.value == p.syntaxNode.kind.defaultValue
    ensures IsField(p.syntaxNode) && r.Ok? ==> r.value == p.syntaxNode.kind.variables[0].initializer
    ensures IsProperty(p.syntaxNode) ==> r == Ok(p.syntaxNode.kind.initializer)
    ensures !(IsParameter(p.syntaxNode) || IsField(p.syntaxNode) || IsProperty(p.syntaxNode)) ==> r == Ok(None)
  {
    match p.syntaxNode.kind
    case ParameterNode(_, d) => if d.None? then Throws(NullReferenceException) else Ok(d)
    case FieldDecl(_, vars) =>
      if vars == [] then Throws(ArgumentOutOfRangeException) else Ok(vars[0].initializer)
    case PropertyDecl(_, init) => Ok(init)
    case _ => Ok(None)
  }

  /** One (member name, explicit value text or null) pair. */
  function MemberValue(m: EnumMember): (string, Option<string>) {
    (m.identifier, m.equalsValue)
  }

  /** An enum's members as (name, value) pairs, in declaration order; empty
      for every other kind. */
  function Values(p: ParameterDeclaration): (r: seq<(string, Option<string>)>)
    ensures IsEnum(p.syntaxNode) ==>
              |r| == |p.syntaxNode.kind.members| &&
              forall i :: 0 <= i < |r| ==>
                r[i].0 == p.syntaxNode.kind.members[i].identifier &&
                r[i].1 == p.syntaxNode.kind.members[i].equalsValue
    ensures !IsEnum(p.syntaxNode) ==> r == []
  {
    match p.syntaxNode.kind
    case EnumDecl(members) => Map(MemberValue, members)
    case _ => []
  }

  // ---------------------------------------------------------------------
  // Reading back what a declaration was built from

  /** A field view of `T a = v, b;` reports T, a, and a's initializer: the
      later declarators are never looked at. */
  lemma FieldUsesFirstVariable(t: TypeRef, first: Variable, rest: seq<Variable>, mods: seq<string>,
                               attrs: seq<seq<Attribute>>, children: seq<Node>, id: string)
    ensures var p := ParameterDeclaration(Node(FieldDecl(t, [first] + rest), id, mods, attrs, children));
            Type(p) == Ok(t.text) && IsNullable(p) == t.isNotNull &&
            Name(p) == Ok(Some(first.identifier)) && DefaultValue(p) == Ok(first.initializer) &&
            Values(p) == [] && Modifiers(p) == LowerAll(mods)
    ensures forall other: seq<Variable> ::
              var p := ParameterDeclaration(Node(FieldDecl(t, [first] + rest), id, mods, attrs, children));
              var q := ParameterDeclaration(Node(FieldDecl(t, [first] + other), id, mods, attrs, children));
              Name(p) == Name(q) && DefaultValue(p) == DefaultValue(q)
  {
  }

  /** An enum view reports its own name as both its type and its name, no
      default value, and exactly its members' names in order. */
  lemma {:induction false} EnumViewRoundTrip(p: ParameterDeclaration)
    requires IsEnum(p.syntaxNode)
    ensures Type(p) == Ok(p.syntaxNode.identifier) && Name(p) == Ok(Some(p.syntaxNode.identifier))
    ensures DefaultValue(p) == Ok(None) && !IsNullable(p)
    ensures Map((v: (string, Option<string>)) => v.0, Values(p)) ==
            Map((m: EnumMember) => m.identifier, p.syntaxNode.kind.members)
  {
  }

  /** Only an enum has values. */
  lemma ValuesOnlyForEnums(p: ParameterDeclaration)
    ensures Values(p) != [] ==> IsEnum(p.syntaxNode) && p.syntaxNode.kind.members != []
  {
  }

  /** `enum Color { Red, Green = 5 }` gives [("Red", null), ("Green", "5")]. */
  lemma EnumValuesExample()
    ensures Values(ParameterDeclaration(Node(EnumDecl([EnumMember("Red", None), EnumMember("Green", Some("5"))]),
                                            "Color", [], [], []))) ==
            [("Red", None), ("Green", Some("5"))]
  {
    var members := [EnumMember("Red", None), EnumMember("Green", Some("5"))];
    var r := Values(ParameterDeclaration(Node(EnumDecl(members), "Color", [], [], [])));
    assert |r| == 2 && r[0] == ("Red", None) && r[1] == ("Green", Some("5"));
  }

  /** A parameter without a default clause cannot be asked for its default:
      `void F(int x)` throws, `void F(int x = 3)` gives "3". */
  lemma ParameterDefaultValue(t: TypeRef, id: string, mods: seq<string>, attrs: seq<seq<Attribute>>)
    ensures DefaultValue(ParameterDeclaration(Node(ParameterNode(t, None), id, mods, attrs, []))) ==
            Throws(NullReferenceException)
    ensures DefaultValue(ParameterDeclaration(Node(ParameterNode(t, Some("3")), id, mods, attrs, []))) ==
            Ok(Some("3"))
    ensures Name(ParameterDeclaration(Node(ParameterNode(t, None), id, mods, attrs, []))) == Ok(Some(id))
  {
  }
}
