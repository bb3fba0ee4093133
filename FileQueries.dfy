/** SourceFileExtentions: filters over sequences of source files (by path,
    by the types they declare) and the flattening queries that collect the
    types of every file. */
module FileQueries {
  import opened Results
  import opened Seqs
  import opened Text
  import opened Syntax
  import ParameterModel
  import TypeModel
  import FileModel

  // ---------------------------------------------------------------------
  // WithPath, as written

  /** The characters WithPath strips from the front of the query path. */
  const PathTrim: set<char> := {'.', '/'}

  /** The query path after the two rebindings of `path`: leading '.' and '/'
      stripped, every '/' spelled '\', and "./" put in front by two PadLeft calls. */
  function NormalisePath(path: string): (r: string)
    ensures r == "./" + Replace(TrimStart(path, PathTrim), '/', '\\')
    ensures StartsWith(r, "./") && '/' !in r[2..]
  {
    var p := Replace(TrimStart(path, PathTrim), '/', '\\');
    var q := PadLeft(p, |p| + 1, '/');
    assert q == [q[0]] + q[1..] == "/" + p;
    var r := PadLeft(q, |p| + 2, '.');
    assert r == [r[0]] + r[1..] == "./" + p;
    assert r[2..] == p;
    r
  }

  /** Whether WithPath keeps f. FilePath is read first and may throw;
      the Substring call is reached only for a prefix match without
      subDirectories, and throws when the file path is the prefix itself. */
  function PathMatch(f: SourceFile, p: string, subDirectories: bool): (r: Result<bool>)
    ensures FileModel.FilePath(f).Throws? ==> r == Throws(FileModel.FilePath(f).exception)
    ensures FileModel.FilePath(f).Ok? ==>
              (r.Throws? <==> !subDirectories && FileModel.FilePath(f).value == p)
    ensures r.Throws? ==> r.exception == ArgumentOutOfRangeException
    ensures r.Ok? ==> r.value == StartsWith(FileModel.FilePath(f).value, p)
  {
    match FileModel.FilePath(f)
    case Throws(e) => Throws(e)
    case Ok(fp) =>
      if !StartsWith(fp, p) then Ok(false)
      else if subDirectories then Ok(true)
      else
        match Substring(fp, |p| + 1)
        case Throws(e) => Throws(e)
        case Ok(rest) =>
          assert forall c :: c in rest ==> c in fp;
          Ok('\\' !in rest)
  }

  /** The test `x => x.FilePath.StartsWith(path) && (...)` as a function value. */
  function PathTest(p: string, subDirectories: bool): (test: SourceFile -> Result<bool>)
    ensures forall f :: test(f) == PathMatch(f, p, subDirectories)
  {
    f => PathMatch(f, p, subDirectories)
  }

  /** The files whose FilePath starts with the normalised query path, in
      order. The query throws as soon as one file's FilePath throws, or,
      without subDirectories, when a file's FilePath is the normalised path itself. */
  function WithPath(source: seq<SourceFile>, path: string, subDirectories: bool): (r: Result<seq<SourceFile>>)
    ensures r.Ok? <==> forall f :: f in source ==>
              FileModel.FilePath(f).Ok? && (subDirectories || FileModel.FilePath(f).value != NormalisePath(path))
    ensures r.Throws? ==> r.exception == ArgumentOutOfRangeException
    ensures r.Ok? ==> Subsequence(r.value, source)
    ensures r.Ok? ==> forall f :: f in r.value <==>
              f in source && StartsWith(FileModel.FilePath(f).value, NormalisePath(path))
    ensures r.Ok? ==> forall f :: f in source && StartsWith(FileModel.FilePath(f).value, NormalisePath(path)) ==>
                                multiset(r.value)[f] == multiset(source)[f]
  {
    TryFilter(PathTest(NormalisePath(path), subDirectories), source)
  }

  /** "Social", "./Social" and "/Social" are the same query: leading '.'
      and '/' characters do not change the normalised path. */
  lemma {:induction false} NormaliseIgnoresDotSlash(prefix: string, path: string)
    requires forall i :: 0 <= i < |prefix| ==> prefix[i] in PathTrim
    ensures NormalisePath(prefix + path) == NormalisePath(path)
  {
    TrimStartPrefix(prefix, path, PathTrim);
  }

  /** A query path with a '/' after its leading dots and slashes holds a
      '\' once normalised, and FilePath never does: no file is kept. */
  lemma MultiSegmentNeverMatches(source: seq<SourceFile>, path: string, subDirectories: bool)
    requires '/' in TrimStart(path, PathTrim)
    ensures forall f :: f in source && FileModel.FilePath(f).Ok? ==>
              !StartsWith(FileModel.FilePath(f).value, NormalisePath(path))
    ensures WithPath(source, path, subDirectories).Ok? ==> WithPath(source, path, subDirectories).value == []
  {
    var p := NormalisePath(path);
    NormalisedSegmentsUseBackslash(path);
    forall f | f in source && FileModel.FilePath(f).Ok?
      ensures !StartsWith(FileModel.FilePath(f).value, p)
    {
      BackslashIsNeverAPrefix(FileModel.FilePath(f).value, p);
    }
    var r := WithPath(source, path, subDirectories);
    if r.Ok? && r.value != [] {
      assert r.value[0] in r.value;
    }
  }

  lemma NormalisedSegmentsUseBackslash(path: string)
    requires '/' in TrimStart(path, PathTrim)
    ensures '\\' in NormalisePath(path)
  {
    var t := TrimStart(path, PathTrim);
    var j :| 0 <= j < |t| && t[j] == '/';
    assert NormalisePath(path)[j + 2] == '\\';
  }

  lemma BackslashIsNeverAPrefix(s: string, p: string)
    requires '\\' in p && '\\' !in s
    ensures !StartsWith(s, p)
  {
  }

  /** subDirectories = false excludes nothing: whenever that query succeeds
      it gives exactly the files of the subDirectories = true query. */
  lemma {:induction false} SubDirectoriesFlagIsVacuous(source: seq<SourceFile>, path: string)
    ensures WithPath(source, path, false).Ok? ==> WithPath(source, path, false) == WithPath(source, path, true)
  {
    var p := NormalisePath(path);
    TryFilterCongruent(PathTest(p, false), PathTest(p, true), source);
  }

  /** A file whose FilePath is exactly the normalised query path makes the
      subDirectories = false query throw, though it is kept when subDirectories is true. */
  lemma ExactPathThrows(f: SourceFile, path: string)
    requires FileModel.FilePath(f) == Ok(NormalisePath(path))
    ensures WithPath([f], path, false) == Throws(ArgumentOutOfRangeException)
    ensures WithPath([f], path, true) == Ok([f])
  {
    var p := NormalisePath(path);
    assert p[..|p|] == p;
    TryFilterSingleton(PathTest(p, false), f);
    TryFilterSingleton(PathTest(p, true), f);
  }

  /** The match is a raw text prefix: the query "./Social" keeps a file
      under "./SocialNetwork/", whichever subDirectories says. */
  lemma RawPrefixMatchesSibling(f: SourceFile, path: string, rest: string)
    requires rest != [] && FileModel.FilePath(f) == Ok(NormalisePath(path) + rest)
    ensures WithPath([f], path, false) == Ok([f])
    ensures WithPath([f], path, true) == Ok([f])
  {
    var p := NormalisePath(path);
    assert (p + rest)[..|p|] == p && p + rest != p;
    TryFilterSingleton(PathTest(p, false), f);
    TryFilterSingleton(PathTest(p, true), f);
  }

  // ---------------------------------------------------------------------
  // WithPath, as evidently intended

  /** The directory the query path names, spelled as FilePath spells it:
      "./", the path without leading '.' and '/', '\' turned into '/', and
      a closing '/' unless it already has one. */
  function DirectoryPrefix(path: string): (r: string)
    ensures StartsWith(r, "./") && r[|r| - 1] == '/' && '\\' !in r
    ensures var dir := Replace(TrimStart(path, PathTrim), '\\', '/');
            r == "./" + dir || r == "./" + dir + "/"
  {
    var dir := Replace(TrimStart(path, PathTrim), '\\', '/');
    if dir == [] || dir[|dir| - 1] == '/' then "./" + dir else "./" + dir + "/"
  }

  /** Keep f when its path lies under the directory, and, without
      subDirectories, directly in it. Only FilePath can throw. */
  function IntendedMatch(f: SourceFile, prefix: string, subDirectories: bool): (r: Result<bool>)
    ensures r.Ok? <==> FileModel.FilePath(f).Ok?
    ensures r.Throws? ==> r.exception == ArgumentOutOfRangeException
    ensures r.Ok? ==> (r.value <==>
              StartsWith(FileModel.FilePath(f).value, prefix) &&
              (subDirectories || '/' !in FileModel.FilePath(f).value[|prefix|..]))
  {
    match FileModel.FilePath(f)
    case Throws(e) => Throws(e)
    case Ok(fp) => Ok(StartsWith(fp, prefix) && (subDirectories || '/' !in fp[|prefix|..]))
  }

  function IntendedTest(prefix: string, subDirectories: bool): (test: SourceFile -> Result<bool>)
    ensures forall f :: test(f) == IntendedMatch(f, prefix, subDirectories)
  {
    f => IntendedMatch(f, prefix, subDirectories)
  }

  /** The files under the directory the query path names (directly in it
      when subDirectories is false), in order; it throws only where
      FilePath itself throws. */
  function WithPathIntended(source: seq<SourceFile>, path: string, subDirectories: bool): (r: Result<seq<SourceFile>>)
    ensures r.Ok? <==> forall f :: f in source ==> FileModel.FilePath(f).Ok?
    ensures r.Ok? ==> Subsequence(r.value, source)
    ensures r.Ok? ==> forall f :: f in r.value <==> f in source && IntendedMatch(f, DirectoryPrefix(path), subDirectories) == Ok(true)
    ensures r.Ok? ==> forall f :: IntendedMatch(f, DirectoryPrefix(path), subDirectories) == Ok(true) ==>
                                multiset(r.value)[f] == multiset(source)[f]
  {
    TryFilter(IntendedTest(DirectoryPrefix(path), subDirectories), source)
  }

  /** A file below the named directory is kept; without subDirectories,
      exactly when no further directory lies between. */
  lemma IntendedKeepsDirectoryContents(f: SourceFile, path: string, rest: string)
    requires FileModel.FilePath(f) == Ok(DirectoryPrefix(path) + rest)
    ensures WithPathIntended([f], path, true) == Ok([f])
    ensures WithPathIntended([f], path, false) == (if '/' in rest then Ok([]) else Ok([f]))
  {
    var p := DirectoryPrefix(path);
    assert (p + rest)[..|p|] == p && (p + rest)[|p|..] == rest;
    TryFilterSingleton(IntendedTest(p, false), f);
    TryFilterSingleton(IntendedTest(p, true), f);
  }

  /** The directory prefix of a clean relative directory: no leading '.'
      or '/', no '\\', and no closing '/'. */
  lemma {:induction false} CleanDirectoryPrefix(dir: string)
    requires dir != [] && dir[0] !in PathTrim && '\\' !in dir && dir[|dir| - 1] != '/'
    ensures DirectoryPrefix("./" + dir) == "./" + dir + "/"
  {
    assert TrimStart("./" + dir, PathTrim) == dir by {
      TrimStartPrefix("./", dir, PathTrim);
      TrimStartStops(dir, PathTrim);
    }
    ReplaceAbsent(dir, '\\', '/');
  }

  /** The directory prefix of a two-segment query path. */
  lemma {:induction false} NestedDirectoryPrefix(a: string, b: string)
    requires a != [] && b != [] && a[0] !in PathTrim
    requires '/' !in a && '\\' !in a && '/' !in b && '\\' !in b
    ensures DirectoryPrefix("./" + a + "/" + b) == "./" + a + "/" + b + "/"
  {
    var dir := a + "/" + b;
    assert "./" + a + "/" + b == "./" + dir;
    assert dir[0] == a[0];
    assert dir[|dir| - 1] == b[|b| - 1] && b[|b| - 1] in b;
    assert '\\' !in dir;
    CleanDirectoryPrefix(dir);
  }

  /** A query naming a nested directory, such as "./Social/Feed", selects
      the files directly in it. */
  lemma {:induction false} IntendedMultiSegment(f: SourceFile, a: string, b: string, name: string)
    requires a != [] && b != [] && a[0] !in PathTrim
    requires '/' !in a && '\\' !in a && '/' !in b && '\\' !in b && '/' !in name
    requires FileModel.FilePath(f) == Ok("./" + a + "/" + b + "/" + name)
    ensures WithPathIntended([f], "./" + a + "/" + b, false) == Ok([f])
  {
    var path := "./" + a + "/" + b;
    NestedDirectoryPrefix(a, b);
    assert "./" + a + "/" + b + "/" + name == DirectoryPrefix(path) + name;
    IntendedKeepsDirectoryContents(f, path, name);
  }

  /** A sibling directory whose name only starts with the query's is not selected. */
  lemma IntendedExcludesSibling(f: SourceFile, path: string, c: char, rest: string)
    requires '/' !in path && '\\' !in path && c != '/' && TrimStart(path, PathTrim) != []
    requires FileModel.FilePath(f) == Ok("./" + TrimStart(path, PathTrim) + [c] + rest)
    ensures WithPathIntended([f], path, true) == Ok([])
    ensures WithPathIntended([f], path, false) == Ok([])
  {
    var dir := TrimStart(path, PathTrim);
    assert forall ch :: ch in dir ==> ch in path;
    ReplaceAbsent(dir, '\\', '/');
    assert dir[|dir| - 1] in dir;
    var p := DirectoryPrefix(path);
    assert p == "./" + dir + "/";
    var fp := "./" + dir + [c] + rest;
    assert fp[|dir| + 2] == c && p[|dir| + 2] == '/';
    assert !StartsWith(fp, p);
    TryFilterSingleton(IntendedTest(p, true), f);
    TryFilterSingleton(IntendedTest(p, false), f);
  }

  /** subDirectories = false narrows the query and fails exactly where the other does. */
  lemma {:induction false} IntendedSubDirectoriesNarrows(source: seq<SourceFile>, path: string)
    ensures WithPathIntended(source, path, false).Ok? <==> WithPathIntended(source, path, true).Ok?
    ensures WithPathIntended(source, path, false).Ok? ==>
              Subsequence(WithPathIntended(source, path, false).value, WithPathIntended(source, path, true).value)
  {
    var p := DirectoryPrefix(path);
    TryFilterWeaker(IntendedTest(p, false), IntendedTest(p, true), source);
  }

  // ---------------------------------------------------------------------
  // Filters by declared types

  /** The test `f => (sub ? f.GetAllClasses() : f.GetClasses()).Any(pred)`. */
  function ClassTest(pred: TypeModel.TypeDeclaration -> bool, subClasses: bool): (test: SourceFile -> bool)
    ensures forall f :: test(f) <==>
              exists x :: x in (if subClasses then FileModel.GetAllClasses(f) else FileModel.GetClasses(f)) && pred(x)
  {
    f => Any(pred, if subClasses then FileModel.GetAllClasses(f) else FileModel.GetClasses(f))
  }

  /** The files declaring a class that passes pred, in order. */
  function WithClasses(source: seq<SourceFile>, pred: TypeModel.TypeDeclaration -> bool, subClasses: bool)
    : (r: seq<SourceFile>)
    ensures Subsequence(r, source)
    ensures forall f :: f in r <==>
              f in source && exists x :: x in (if subClasses then FileModel.GetAllClasses(f) else FileModel.GetClasses(f)) && pred(x)
    ensures KeepsCopies(r, source, ClassTest(pred, subClasses))
  {
    FilterCounts(ClassTest(pred, subClasses), source);
    Filter(ClassTest(pred, subClasses), source)
  }

  function InterfaceTest(pred: TypeModel.TypeDeclaration -> bool, subInterfaces: bool): (test: SourceFile -> bool)
    ensures forall f :: test(f) <==>
              exists x :: x in (if subInterfaces then FileModel.GetAllInterfaces(f) else FileModel.GetInterfaces(f)) && pred(x)
  {
    f => Any(pred, if subInterfaces then FileModel.GetAllInterfaces(f) else FileModel.GetInterfaces(f))
  }

  function WithInterfaces(source: seq<SourceFile>, pred: TypeModel.TypeDeclaration -> bool, subInterfaces: bool)
    : (r: seq<SourceFile>)
    ensures Subsequence(r, source)
    ensures forall f :: f in r <==>
              f in source && exists x :: x in (if subInterfaces then FileModel.GetAllInterfaces(f) else FileModel.GetInterfaces(f)) && pred(x)
    ensures KeepsCopies(r, source, InterfaceTest(pred, subInterfaces))
  {
    FilterCounts(InterfaceTest(pred, subInterfaces), source);
    Filter(InterfaceTest(pred, subInterfaces), source)
  }

  function StructTest(pred: TypeModel.TypeDeclaration -> bool, subStructs: bool): (test: SourceFile -> bool)
    ensures forall f :: test(f) <==>
              exists x :: x in (if subStructs then FileModel.GetAllStructs(f) else FileModel.GetStructs(f)) && pred(x)
  {
    f => Any(pred, if subStructs then FileModel.GetAllStructs(f) else FileModel.GetStructs(f))
  }

  function WithStructs(source: seq<SourceFile>, pred: TypeModel.TypeDeclaration -> bool, subStructs: bool)
    : (r: seq<SourceFile>)
    ensures Subsequence(r, source)
    ensures forall f :: f in r <==>
              f in source && exists x :: x in (if subStructs then FileModel.GetAllStructs(f) else FileModel.GetStructs(f)) && pred(x)
    ensures KeepsCopies(r, source, StructTest(pred, subStructs))
  {
    FilterCounts(StructTest(pred, subStructs), source);
    Filter(StructTest(pred, subStructs), source)
  }

  function RecordTest(pred: TypeModel.TypeDeclaration -> bool, subRecords: bool): (test: SourceFile -> bool)
    ensures forall f :: test(f) <==>
              exists x :: x in (if subRecords then FileModel.GetAllRecords(f) else FileModel.GetRecords(f)) && pred(x)
  {
    f => Any(pred, if subRecords then FileModel.GetAllRecords(f) else FileModel.GetRecords(f))
  }

  function WithRecords(source: seq<SourceFile>, pred: TypeModel.TypeDeclaration -> bool, subRecords: bool)
    : (r: seq<SourceFile>)
    ensures Subsequence(r, source)
    ensures forall f :: f in r <==>
              f in source && exists x :: x in (if subRecords then FileModel.GetAllRecords(f) else FileModel.GetRecords(f)) && pred(x)
    ensures KeepsCopies(r, source, RecordTest(pred, subRecords))
  {
    FilterCounts(RecordTest(pred, subRecords), source);
    Filter(RecordTest(pred, subRecords), source)
  }

  /** The test `f => (sub ? f.GetAllEnums() : f.GetEnums()).Any(pred)` on a type. */
  function EnumTest(pred: ParameterModel.ParameterDeclaration -> bool, subEnums: bool): (test: TypeModel.TypeDeclaration -> bool)
    ensures forall t :: test(t) <==>
              exists e :: e in (if subEnums then TypeModel.GetAllEnums(t) else TypeModel.GetEnums(t)) && pred(e)
  {
    t => Any(pred, if subEnums then TypeModel.GetAllEnums(t) else TypeModel.GetEnums(t))
  }

  /** Unlike the other filters this returns types, not files: every type
      anywhere in the files that declares an enum passing pred. */
  function WithEnums(source: seq<SourceFile>, pred: ParameterModel.ParameterDeclaration -> bool, subEnums: bool)
    : (r: seq<TypeModel.TypeDeclaration>)
    ensures Subsequence(r, FlatMap(FileModel.GetAllTypes, source))
    ensures forall t :: t in r <==>
              (exists f :: f in source && t in FileModel.GetAllTypes(f)) &&
              exists e :: e in (if subEnums then TypeModel.GetAllEnums(t) else TypeModel.GetEnums(t)) && pred(e)
    ensures KeepsCopies(r, FlatMap(FileModel.GetAllTypes, source), EnumTest(pred, subEnums))
  {
    FilterCounts(EnumTest(pred, subEnums), FlatMap(FileModel.GetAllTypes, source));
    Filter(EnumTest(pred, subEnums), FlatMap(FileModel.GetAllTypes, source))
  }

  /** Looking deep keeps every file that looking shallow keeps, in order. */
  lemma {:induction false} WithClassesShallowInDeep(source: seq<SourceFile>, pred: TypeModel.TypeDeclaration -> bool)
    ensures Subsequence(WithClasses(source, pred, false), WithClasses(source, pred, true))
  {
    forall f ensures ClassTest(pred, false)(f) ==> ClassTest(pred, true)(f) {
      FileModel.ShallowInDeep(f);
      SubsequenceMembers(FileModel.GetClasses(f), FileModel.GetAllClasses(f));
    }
    FilterNarrows(ClassTest(pred, true), ClassTest(pred, false), source);
  }

  // ---------------------------------------------------------------------
  // Flattening queries

  /** Each file's shallow (or, with subTypes, deep) types, concatenated in file order. */
  function GetTypes(source: seq<SourceFile>, subTypes: bool): (r: seq<TypeModel.TypeDeclaration>)
    ensures !subTypes ==> r == FlatMap(FileModel.GetTypes, source)
    ensures subTypes ==> r == FlatMap(FileModel.GetAllTypes, source)
    ensures forall t :: t in r <==>
              exists f :: f in source && t in (if subTypes then FileModel.GetAllTypes(f) else FileModel.GetTypes(f))
    ensures forall t :: t in r ==> IsTypeDeclaration(t.syntaxNode) && t.sourceFile in source
  {
    if subTypes then FlatMap(FileModel.GetAllTypes, source) else FlatMap(FileModel.GetTypes, source)
  }

  function GetTypesWhere(source: seq<SourceFile>, pred: TypeModel.TypeDeclaration -> bool, subTypes: bool)
    : (r: seq<TypeModel.TypeDeclaration>)
    ensures Subsequence(r, GetTypes(source, subTypes))
    ensures forall t :: t in r <==> t in GetTypes(source, subTypes) && pred(t)
    ensures KeepsCopies(r, GetTypes(source, subTypes), pred)
  {
    FilterCounts(pred, GetTypes(source, subTypes));
    Filter(pred, GetTypes(source, subTypes))
  }

  function GetClasses(source: seq<SourceFile>, subClasses: bool): (r: seq<TypeModel.TypeDeclaration>)
    ensures !subClasses ==> r == FlatMap(FileModel.GetClasses, source)
    ensures subClasses ==> r == FlatMap(FileModel.GetAllClasses, source)
    ensures forall t :: t in r <==>
              exists f :: f in source && t in (if subClasses then FileModel.GetAllClasses(f) else FileModel.GetClasses(f))
    ensures forall t :: t in r ==> IsClass(t.syntaxNode) && t.sourceFile in source
  {
    if subClasses then FlatMap(FileModel.GetAllClasses, source) else FlatMap(FileModel.GetClasses, source)
  }

  function GetClassesWhere(source: seq<SourceFile>, pred: TypeModel.TypeDeclaration -> bool, subClasses: bool)
    : (r: seq<TypeModel.TypeDeclaration>)
    ensures Subsequence(r, GetClasses(source, subClasses))
    ensures forall t :: t in r <==> t in GetClasses(source, subClasses) && pred(t)
    ensures KeepsCopies(r, GetClasses(source, subClasses), pred)
  {
    FilterCounts(pred, GetClasses(source, subClasses));
    Filter(pred, GetClasses(source, subClasses))
  }

  function GetInterfaces(source: seq<SourceFile>, subInterfaces: bool): (r: seq<TypeModel.TypeDeclaration>)
    ensures !subInterfaces ==> r == FlatMap(FileModel.GetInterfaces, source)
    ensures subInterfaces ==> r == FlatMap(FileModel.GetAllInterfaces, source)
    ensures forall t :: t in r <==>
              exists f :: f in source && t in (if subInterfaces then FileModel.GetAllInterfaces(f) else FileModel.GetInterfaces(f))
    ensures forall t :: t in r ==> IsInterface(t.syntaxNode) && t.sourceFile in source
  {
    if subInterfaces then FlatMap(FileModel.GetAllInterfaces, source) else FlatMap(FileModel.GetInterfaces, source)
  }

  function GetInterfacesWhere(source: seq<SourceFile>, pred: TypeModel.TypeDeclaration -> bool, subInterfaces: bool)
    : (r: seq<TypeModel.TypeDeclaration>)
    ensures Subsequence(r, GetInterfaces(source, subInterfaces))
    ensures forall t :: t in r <==> t in GetInterfaces(source, subInterfaces) && pred(t)
    ensures KeepsCopies(r, GetInterfaces(source, subInterfaces), pred)
  {
    FilterCounts(pred, GetInterfaces(source, subInterfaces));
    Filter(pred, GetInterfaces(source, subInterfaces))
  }

  function GetStructs(source: seq<SourceFile>, subStructs: bool): (r: seq<TypeModel.TypeDeclaration>)
    ensures !subStructs ==> r == FlatMap(FileModel.GetStructs, source)
    ensures subStructs ==> r == FlatMap(FileModel.GetAllStructs, source)
    ensures forall t :: t in r <==>
              exists f :: f in source && t in (if subStructs then FileModel.GetAllStructs(f) else FileModel.GetStructs(f))
    ensures forall t :: t in r ==> IsStruct(t.syntaxNode) && t.sourceFile in source
  {
    if subStructs then FlatMap(FileModel.GetAllStructs, source) else FlatMap(FileModel.GetStructs, source)
  }

  function GetStructsWhere(source: seq<SourceFile>, pred: TypeModel.TypeDeclaration -> bool, subStructs: bool)
    : (r: seq<TypeModel.TypeDeclaration>)
    ensures Subsequence(r, GetStructs(source, subStructs))
    ensures forall t :: t in r <==> t in GetStructs(source, subStructs) && pred(t)
    ensures KeepsCopies(r, GetStructs(source, subStructs), pred)
  {
    FilterCounts(pred, GetStructs(source, subStructs));
    Filter(pred, GetStructs(source, subStructs))
  }

  function GetRecords(source: seq<SourceFile>, subRecords: bool): (r: seq<TypeModel.TypeDeclaration>)
    ensures !subRecords ==> r == FlatMap(FileModel.GetRecords, source)
    ensures subRecords ==> r == FlatMap(FileModel.GetAllRecords, source)
    ensures forall t :: t in r <==>
              exists f :: f in source && t in (if subRecords then FileModel.GetAllRecords(f) else FileModel.GetRecords(f))
    ensures forall t :: t in r ==> IsRecord(t.syntaxNode) && t.sourceFile in source
  {
    if subRecords then FlatMap(FileModel.GetAllRecords, source) else FlatMap(FileModel.GetRecords, source)
  }

  function GetRecordsWhere(source: seq<SourceFile>, pred: TypeModel.TypeDeclaration -> bool, subRecords: bool)
    : (r: seq<TypeModel.TypeDeclaration>)
    ensures Subsequence(r, GetRecords(source, subRecords))
    ensures forall t :: t in r <==> t in GetRecords(source, subRecords) && pred(t)
    ensures KeepsCopies(r, GetRecords(source, subRecords), pred)
  {
    FilterCounts(pred, GetRecords(source, subRecords));
    Filter(pred, GetRecords(source, subRecords))
  }

  /** Flattening distributes over concatenation of the file sequences. */
  lemma {:induction false} FlattenConcat(a: seq<SourceFile>, b: seq<SourceFile>, sub: bool)
    ensures GetTypes(a + b, sub) == GetTypes(a, sub) + GetTypes(b, sub)
    ensures GetClasses(a + b, sub) == GetClasses(a, sub) + GetClasses(b, sub)
    ensures GetInterfaces(a + b, sub) == GetInterfaces(a, sub) + GetInterfaces(b, sub)
    ensures GetStructs(a + b, sub) == GetStructs(a, sub) + GetStructs(b, sub)
    ensures GetRecords(a + b, sub) == GetRecords(a, sub) + GetRecords(b, sub)
  {
    assert GetTypes(a + b, sub) == GetTypes(a, sub) + GetTypes(b, sub) by {
      FlatMapConcat(FileModel.GetTypes, a, b);
      FlatMapConcat(FileModel.GetAllTypes, a, b);
    }
    assert GetClasses(a + b, sub) == GetClasses(a, sub) + GetClasses(b, sub) by {
      FlatMapConcat(FileModel.GetClasses, a, b);
      FlatMapConcat(FileModel.GetAllClasses, a, b);
    }
    assert GetInterfaces(a + b, sub) == GetInterfaces(a, sub) + GetInterfaces(b, sub) by {
      FlatMapConcat(FileModel.GetInterfaces, a, b);
      FlatMapConcat(FileModel.GetAllInterfaces, a, b);
    }
    assert GetStructs(a + b, sub) == GetStructs(a, sub) + GetStructs(b, sub) by {
      FlatMapConcat(FileModel.GetStructs, a, b);
      FlatMapConcat(FileModel.GetAllStructs, a, b);
    }
    assert GetRecords(a + b, sub) == GetRecords(a, sub) + GetRecords(b, sub) by {
      FlatMapConcat(FileModel.GetRecords, a, b);
      FlatMapConcat(FileModel.GetAllRecords, a, b);
    }
  }

  /** The shallow flattening occurs, in order, in the deep one. */
  lemma {:induction false} FlattenShallowInDeep(source: seq<SourceFile>)
    ensures Subsequence(GetTypes(source, false), GetTypes(source, true))
    ensures Subsequence(GetClasses(source, false), GetClasses(source, true))
    ensures Subsequence(GetInterfaces(source, false), GetInterfaces(source, true))
    ensures Subsequence(GetStructs(source, false), GetStructs(source, true))
    ensures Subsequence(GetRecords(source, false), GetRecords(source, true))
  {
    forall f | f in source
      ensures Subsequence(FileModel.GetTypes(f), FileModel.GetAllTypes(f))
      ensures Subsequence(FileModel.GetClasses(f), FileModel.GetAllClasses(f))
      ensures Subsequence(FileModel.GetInterfaces(f), FileModel.GetAllInterfaces(f))
      ensures Subsequence(FileModel.GetStructs(f), FileModel.GetAllStructs(f))
      ensures Subsequence(FileModel.GetRecords(f), FileModel.GetAllRecords(f))
    {
      FileModel.ShallowInDeep(f);
    }
    FlatMapMonotone(FileModel.GetTypes, FileModel.GetAllTypes, source);
    FlatMapMonotone(FileModel.GetClasses, FileModel.GetAllClasses, source);
    FlatMapMonotone(FileModel.GetInterfaces, FileModel.GetAllInterfaces, source);
    FlatMapMonotone(FileModel.GetStructs, FileModel.GetAllStructs, source);
    FlatMapMonotone(FileModel.GetRecords, FileModel.GetAllRecords, source);
  }

  /** Flattening the classes of the files is flattening their types and keeping the classes. */
  lemma {:induction false} FlattenedClassesAreClassTypes(source: seq<SourceFile>, sub: bool)
    ensures GetClasses(source, sub) == Filter(TypeModel.IsClassType, GetTypes(source, sub))
    ensures GetInterfaces(source, sub) == Filter(TypeModel.IsInterfaceType, GetTypes(source, sub))
    ensures GetStructs(source, sub) == Filter(TypeModel.IsStructType, GetTypes(source, sub))
    ensures GetRecords(source, sub) == Filter(TypeModel.IsRecordType, GetTypes(source, sub))
  {
    forall f | f in source
      ensures FileModel.GetClasses(f) == Filter(TypeModel.IsClassType, FileModel.GetTypes(f))
      ensures FileModel.GetAllClasses(f) == Filter(TypeModel.IsClassType, FileModel.GetAllTypes(f))
      ensures FileModel.GetInterfaces(f) == Filter(TypeModel.IsInterfaceType, FileModel.GetTypes(f))
      ensures FileModel.GetAllInterfaces(f) == Filter(TypeModel.IsInterfaceType, FileModel.GetAllTypes(f))
      ensures FileModel.GetStructs(f) == Filter(TypeModel.IsStructType, FileModel.GetTypes(f))
      ensures FileModel.GetAllStructs(f) == Filter(TypeModel.IsStructType, FileModel.GetAllTypes(f))
      ensures FileModel.GetRecords(f) == Filter(TypeModel.IsRecordType, FileModel.GetTypes(f))
      ensures FileModel.GetAllRecords(f) == Filter(TypeModel.IsRecordType, FileModel.GetAllTypes(f))
    {
      FileModel.KindsRefineTypes(f);
    }
    if sub {
      FilterFlatMap(TypeModel.IsClassType, FileModel.GetAllTypes, FileModel.GetAllClasses, source);
      FilterFlatMap(TypeModel.IsInterfaceType, FileModel.GetAllTypes, FileModel.GetAllInterfaces, source);
      FilterFlatMap(TypeModel.IsStructType, FileModel.GetAllTypes, FileModel.GetAllStructs, source);
      FilterFlatMap(TypeModel.IsRecordType, FileModel.GetAllTypes, FileModel.GetAllRecords, source);
    } else {
      FilterFlatMap(TypeModel.IsClassType, FileModel.GetTypes, FileModel.GetClasses, source);
      FilterFlatMap(TypeModel.IsInterfaceType, FileModel.GetTypes, FileModel.GetInterfaces, source);
      FilterFlatMap(TypeModel.IsStructType, FileModel.GetTypes, FileModel.GetStructs, source);
      FilterFlatMap(TypeModel.IsRecordType, FileModel.GetTypes, FileModel.GetRecords, source);
    }
  }
}
