/** SourceGeneratorQuery: the entry point. It derives the project directory
    (the entry path) from the path of the compilation's last source
    location, which lies under the project's `obj` directory, and starts a
    query with one SourceFile per syntax tree of the compilation. */
module QueryRoot {
  import opened Results
  import opened Seqs
  import opened Text
  import opened Syntax

  /** What the generator host provides: the compilation's syntax trees, in
      order, and the file path of the source tree of its last location. */
  datatype GeneratorContext = GeneratorContext(syntaxTrees: seq<SyntaxTree>, lastLocationPath: string)

  /** The query's state, set once by the constructor. */
  datatype SourceGeneratorQuery = SourceGeneratorQuery(context: GeneratorContext, entryPath: string)

  /** The separator-delimited `obj` directory the entry path ends before. */
  const ObjDirectory: string := "\\obj\\"

  /** `objPath.Substring(0, objPath.IndexOf("\obj\"))`: the text before the
      first "\obj\". Without one, IndexOf gives -1 and Substring throws. */
  function EntryPathOf(objPath: string): (r: Result<string>)
    ensures r.Ok? <==> exists j :: OccursAt(objPath, ObjDirectory, j)
    ensures r.Throws? ==> r.exception == ArgumentOutOfRangeException
    ensures r.Ok? ==> StartsWith(objPath, r.value) && OccursAt(objPath, ObjDirectory, |r.value|)
    ensures r.Ok? ==> forall j :: !OccursAt(r.value, ObjDirectory, j)
  {
    var i := IndexOf(objPath, ObjDirectory);
    var r := SubstringOfLength(objPath, 0, i);
    assert r.Ok? ==> forall j :: !OccursAt(r.value, ObjDirectory, j) by {
      if r.Ok? {
        forall j | OccursAt(r.value, ObjDirectory, j) ensures false {
          assert objPath[j..j + |ObjDirectory|] == r.value[j..j + |ObjDirectory|];
          assert OccursAt(objPath, ObjDirectory, j);
        }
      }
    }
    r
  }

  /** The path of the project directory followed by "\obj\" gives back that
      directory, provided "\obj\" does not occur earlier. */
  lemma {:induction false} EntryPathRoundTrip(project: string, rest: string)
    requires forall j :: 0 <= j < |project| ==> !OccursAt(project + ObjDirectory + rest, ObjDirectory, j)
    ensures EntryPathOf(project + ObjDirectory + rest) == Ok(project)
  {
    var p := project + ObjDirectory + rest;
    assert p[|project|..|project| + |ObjDirectory|] == ObjDirectory;
    assert OccursAt(p, ObjDirectory, |project|);
    assert p[..|project|] == project;
  }

  /** The constructor: it fails exactly when the location path has no "\obj\". */
  function Create(context: GeneratorContext): (r: Result<SourceGeneratorQuery>)
    ensures r.Ok? <==> EntryPathOf(context.lastLocationPath).Ok?
    ensures r.Ok? ==> r.value.context == context && Ok(r.value.entryPath) == EntryPathOf(context.lastLocationPath)
    ensures r.Throws? ==> r.exception == ArgumentOutOfRangeException
  {
    match EntryPathOf(context.lastLocationPath)
    case Throws(e) => Throws(e)
    case Ok(entryPath) => Ok(SourceGeneratorQuery(context, entryPath))
  }

  /** The wrapping `x => new SourceFile(x, entryPath)` as a function value. */
  function AsSourceFileIn(entryPath: string): (wrap: SyntaxTree -> SourceFile)
    ensures forall t :: wrap(t) == SourceFile(t, entryPath)
  {
    t => SourceFile(t, entryPath)
  }

  /** The tree a source file wraps. */
  function TreeOf(f: SourceFile): SyntaxTree {
    f.syntaxTree
  }

  /** One source file per syntax tree, in the compilation's order, all with
      the query's entry path. */
  function NewQuery(q: SourceGeneratorQuery): (r: seq<SourceFile>)
    ensures |r| == |q.context.syntaxTrees|
    ensures forall i :: 0 <= i < |r| ==> r[i].syntaxTree == q.context.syntaxTrees[i]
    ensures forall f :: f in r ==> f.entryPath == q.entryPath
  {
    Map(AsSourceFileIn(q.entryPath), q.context.syntaxTrees)
  }

  /** The files of a query give back the compilation's trees. */
  lemma NewQueryRoundTrip(q: SourceGeneratorQuery)
    ensures Map(TreeOf, NewQuery(q)) == q.context.syntaxTrees
  {
  }

  /** `context.NewQuery()`: a new query object, then its file sequence. */
  function ContextNewQuery(context: GeneratorContext): (r: Result<seq<SourceFile>>)
    ensures r.Ok? <==> EntryPathOf(context.lastLocationPath).Ok?
    ensures r.Ok? ==> |r.value| == |context.syntaxTrees| &&
                      forall i :: 0 <= i < |r.value| ==>
                        r.value[i] == SourceFile(context.syntaxTrees[i], EntryPathOf(context.lastLocationPath).value)
  {
    match Create(context)
    case Throws(e) => Throws(e)
    case Ok(q) => Ok(NewQuery(q))
  }
}
