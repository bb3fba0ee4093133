/** ArgumentDeclaration and AttributeDeclaration: read-only views of one
    attribute argument and one attribute. A view is a value that holds the
    node it was built from and nothing else, so it cannot change after it is
    built and reading it has no effect. */
module AttributeModel {
  import opened Results
  import opened Seqs
  import opened Text
  import opened Syntax

  /** The view of one attribute argument. */
  datatype ArgumentDeclaration = ArgumentDeclaration(node: AttributeArgument)

  /** The argument's expression as written. A `name =` part is not included. */
  function Expression(a: ArgumentDeclaration): string {
    a.node.expression
  }

  /** A named argument gives the text of its expression only, whatever its name. */
  lemma ExpressionOmitsName(name: Option<string>, expression: string)
    ensures Expression(ArgumentDeclaration(AttributeArgument(name, expression))) == expression
    ensures forall other :: Expression(ArgumentDeclaration(AttributeArgument(name, expression))) ==
                            Expression(ArgumentDeclaration(AttributeArgument(other, expression)))
  {
  }

  /** The view of one attribute. */
  datatype AttributeDeclaration = AttributeDeclaration(node: Attribute)

  /** The attribute's name as written, qualifier included. */
  function Name(a: AttributeDeclaration): string {
    a.node.name
  }

  /** The name is the text as written, qualifier included, whatever the
      attribute's arguments. */
  lemma NameIsAsWritten(name: string, arguments: Option<seq<AttributeArgument>>)
    ensures Name(AttributeDeclaration(Attribute(name, arguments))) == name
    ensures forall other :: Name(AttributeDeclaration(Attribute(name, arguments))) ==
                            Name(AttributeDeclaration(Attribute(name, other)))
  {
  }

  /** One argument view per argument, in order. An attribute without an
      argument list has no arguments. */
  function Arguments(a: AttributeDeclaration): (r: seq<ArgumentDeclaration>)
    ensures a.node.argumentList.None? ==> r == []
    ensures a.node.argumentList.Some? ==>
              |r| == |a.node.argumentList.value| &&
              forall i :: 0 <= i < |r| ==> r[i].node == a.node.argumentList.value[i]
  {
    match a.node.argumentList
    case None => []
    case Some(arguments) => Map(arg => ArgumentDeclaration(arg), arguments)
  }

  /** Reading the arguments' nodes back gives the argument list, or the
      empty list when there is none. */
  lemma ArgumentsRoundTrip(a: AttributeDeclaration)
    ensures Map((arg: ArgumentDeclaration) => arg.node, Arguments(a)) == a.node.argumentList.GetOr([])
  {
  }

  /** One attribute list's attributes, each wrapped in a view, in order. */
  function WrapAll(l: seq<Attribute>): (r: seq<AttributeDeclaration>)
    ensures |r| == |l| && forall i :: 0 <= i < |l| ==> r[i].node == l[i]
    ensures forall x :: x in r <==> x.node in l
  {
    var r := Map(a => AttributeDeclaration(a), l);
    assert forall x: AttributeDeclaration :: x.node in l ==> x in r by {
      forall x: AttributeDeclaration | x.node in l ensures x in r {
        var i :| 0 <= i < |l| && l[i] == x.node;
        assert r[i] == x;
      }
    }
    r
  }

  /** The attribute views of a declaration's attribute lists
      (`AttributeLists.SelectMany(x => x.Attributes.Select(...))`): every
      attribute of every list, and nothing else. */
  function AttributesOf(lists: seq<seq<Attribute>>): (r: seq<AttributeDeclaration>)
    ensures forall x :: x in r <==> exists l :: l in lists && x.node in l
  {
    FlatMap(WrapAll, lists)
  }

  /** Attribute lists are flattened in source order. */
  lemma {:induction false} AttributesOfConcat(a: seq<seq<Attribute>>, b: seq<seq<Attribute>>)
    ensures AttributesOf(a + b) == AttributesOf(a) + AttributesOf(b)
  {
    FlatMapConcat(WrapAll, a, b);
  }

  /** A declaration with one attribute list gives exactly that list's attributes, in order. */
  lemma AttributesOfSingleList(l: seq<Attribute>)
    ensures |AttributesOf([l])| == |l|
    ensures forall i :: 0 <= i < |l| ==> AttributesOf([l])[i].node == l[i]
  {
    var lists := [l];
    assert lists[0] == l && lists[1..] == [];
    assert AttributesOf(lists) == WrapAll(l) + FlatMap(WrapAll, []);
  }

  /** The test `a => a.Name.Equals(name, OrdinalIgnoreCase)`. */
  function NameIs(name: string): (test: AttributeDeclaration -> bool)
    ensures forall a :: test(a) <==> EqualsIgnoreCase(a.node.name, name)
  {
    a => EqualsIgnoreCase(Name(a), name)
  }

  /** `Attributes.Any(a => a.Name.Equals(name, OrdinalIgnoreCase))`. */
  predicate HasAttributeNamed(attributes: seq<AttributeDeclaration>, name: string) {
    Any(NameIs(name), attributes)
  }

  /** The name test ignores letter case: `[myattribute]` matches "MyAttribute". */
  lemma NameMatchIgnoresCase()
    ensures HasAttributeNamed([AttributeDeclaration(Attribute("myattribute", None))], "MyAttribute")
  {
    var a := AttributeDeclaration(Attribute("myattribute", None));
    EqualsIgnoreCasePointwise(Name(a), "MyAttribute");
    assert EqualsIgnoreCase(Name(a), "MyAttribute");
    assert a in [a];
  }

  /** Names of different lengths never match, whatever their case. */
  lemma {:induction false} NameMatchNeedsEqualLength(a: AttributeDeclaration, name: string)
    requires |Name(a)| != |name|
    ensures !HasAttributeNamed([a], name)
  {
    assert |ToLower(Name(a))| != |ToLower(name)|;
    assert forall x :: x in [a] ==> x == a;
  }

  /** The name test needs the whole name and does not strip a qualifier:
      `[MyAttributeVariant]` and `[Lib.MyAttribute]` do not match "MyAttribute". */
  lemma NameMatchIsExact()
    ensures !HasAttributeNamed([AttributeDeclaration(Attribute("MyAttributeVariant", None))], "MyAttribute")
    ensures !HasAttributeNamed([AttributeDeclaration(Attribute("Lib.MyAttribute", None))], "MyAttribute")
  {
    NameMatchNeedsEqualLength(AttributeDeclaration(Attribute("MyAttributeVariant", None)), "MyAttribute");
    NameMatchNeedsEqualLength(AttributeDeclaration(Attribute("Lib.MyAttribute", None)), "MyAttribute");
  }
}
