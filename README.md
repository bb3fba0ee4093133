# SourceGeneratorQuery in Dafny

SourceGeneratorQuery is a read-only query layer that C# source generators use
over Roslyn syntax trees. A query starts from the compilation's syntax trees.
It wraps each tree as a `SourceFile` and gives uniform views of:

- type declarations (classes, interfaces, structs, records);
- methods and constructors;
- members (parameters, fields, properties and enums);
- attributes and their arguments.

On top of these views it offers LINQ-style filters, such as `WithPath`,
`WithClasses`, `WithName`, `WithAttribute` and `WithPublic`. It also offers
flatteners such as `GetTypes(subTypes)` and `GetClasses(predicate, subClasses)`.

This project models that layer on values. The Roslyn tree becomes an input
datatype (`Syntax.Node`), with one `Kind` case per syntax class the views
dispatch on. Each view is a datatype holding its node, and every property
of a view is a function of that node. A property that can throw returns
`Results.Result<T>`, and the exception is named as in .NET. A
null-returning property returns `Option<T>`. `Where`, `Select` and
`SelectMany` become `Seqs.Filter`, `Seqs.Map` and `Seqs.FlatMap`; a filter
whose test can throw uses `Seqs.TryFilter`. Shallow access uses the direct
children (`ChildNodes`). Deep access uses the pre-order descendants,
without the node itself (`DescendantNodes`).

Modules, in dependency order:

| module | models |
|---|---|
| `Results`, `Seqs`, `Text` | .NET exceptions, LINQ operators over sequences, the string operations used (`ToLower`, ordinal-ignore-case equality, `StartsWith`, `Replace`, `TrimStart`, `PadLeft`, `Substring`, `IndexOf`) |
| `Syntax` | the syntax tree, `ChildNodes`, `DescendantNodes` |
| `AttributeModel` | `ArgumentDeclaration`, `AttributeDeclaration` |
| `ParameterModel` | `ParameterDeclaration`, shared by both parameter files |
| `MethodModel` | `MethodDeclaration` and `MethodDeclarationExtentions` |
| `TypeModel` | `TypeDeclaration` |
| `TypeQueries` | `TypeDeclarationExtentions` |
| `FileModel` | `SourceFile` |
| `FileQueries` | `SourceFileExtentions`, and a corrected `WithPath` |
| `QueryRoot` | `SourceGeneratorQuery` and its `NewQuery` extension |
| `Legacy` | the earlier root-level `Declarations/*` variant |

The code behaves as follows in these cases, and the model does the same:

- Access flags can overlap. `protected internal` sets two access flags, so
  the proved invariant is "at least one access flag holds", not "exactly one".
- `WithPath(path, false)` does not restrict the result to files directly
  inside the directory. The path query also does not match multi-segment
  paths (see "## Findings").
- Errors keep the exceptions the code throws:
  - `ArgumentException` for a member kind without a type;
  - `ArgumentNullException` for a method kind without a name;
  - `NullReferenceException` for a missing body or a missing default;
  - `ArgumentOutOfRangeException` for a short path or a missing "\obj\".

## Model

| member | source | states |
|---|---|---|
| AttributeModel.ExpressionOmitsName | src/Declarations/ArgumentDeclaration.cs:14-15 | `Expression` is the expression text only; the argument's name never changes it |
| AttributeModel.NameIsAsWritten | src/Declarations/AttributeDeclaration.cs:18-19 | `Name` is the attribute name as written, qualifier included, whatever the arguments |
| AttributeModel.Arguments | src/Declarations/AttributeDeclaration.cs:20-22 | no argument list gives no arguments; otherwise there is one view per argument, with the same count and order |
| AttributeModel.ArgumentsRoundTrip | src/Declarations/AttributeDeclaration.cs:20-22 | unwrapping the argument views gives back the argument list, or the empty list when there is none |
| AttributeModel.AttributesOf | src/Declarations/TypeDeclaration.cs:39-41 | SelectMany over attribute lists: an attribute view is listed iff its attribute is in one of the lists |
| AttributeModel.AttributesOfConcat | src/Declarations/TypeDeclaration.cs:39-41 | flattening distributes over concatenation of attribute lists, so list order is kept |
| AttributeModel.AttributesOfSingleList | src/Declarations/TypeDeclaration.cs:39-41 | a single list is wrapped element by element, in order |
| AttributeModel.NameMatchIgnoresCase | src/Declarations/TypeDeclaration.cs:157 | `myattribute` matches "MyAttribute" |
| AttributeModel.NameMatchNeedsEqualLength | src/Declarations/TypeDeclaration.cs:157 | names of different lengths never match, so there is no prefix or suffix match |
| AttributeModel.NameMatchIsExact | src/Declarations/AttributeDeclaration.cs:18-19 | the name is the text as written: neither a longer name nor a qualified `Lib.MyAttribute` matches "MyAttribute" |
| ParameterModel.Modifiers | src/Declarations/ParameterDeclaration.cs:49-65 | for members and parameters, the lower-cased modifier texts in order; empty for other kinds |
| ParameterModel.ParameterHasNoFlags | src/Declarations/ParameterDeclaration.cs:34-48 | a parameter reports all seven flags false, whatever its modifiers |
| ParameterModel.AccessInvariant | src/Declarations/ParameterDeclaration.cs:34-42 | for non-parameters, IsPrivate iff explicit "private" or none of public/protected/internal, so at least one access flag holds; IsPublic iff some modifier lower-cases to "public" |
| ParameterModel.FlagTokens | src/Declarations/ParameterDeclaration.cs:34-48 | on a member, protected, internal, readonly, static and abstract each hold iff some modifier token lower-cases to the keyword |
| ParameterModel.OtherNodeIsPrivate | src/Declarations/ParameterDeclaration.cs:40-65 | a node that is neither a member nor a parameter has no modifiers and reports private and no other flag |
| ParameterModel.Attributes | src/Declarations/ParameterDeclaration.cs:67-84 | the attributes of the node's attribute lists for members and parameters; empty otherwise |
| ParameterModel.Type | src/Declarations/ParameterDeclaration.cs:85-103 | the declared type text for a parameter, field or property, the identifier for an enum, and ArgumentException for every other kind |
| ParameterModel.IsNullable | src/Declarations/ParameterDeclaration.cs:104-120 | the declared type's flag for a parameter, field or property; false for enums and other kinds |
| ParameterModel.Name | src/Declarations/ParameterDeclaration.cs:121-139 | identifier for a parameter, property or enum; a field's first variable, and it throws when there is none; null for other kinds |
| ParameterModel.DefaultValue | src/Declarations/ParameterDeclaration.cs:140-156 | a parameter's default clause, and NullReferenceException without one; a field's first initializer; a property's initializer; null otherwise |
| ParameterModel.Values | src/Declarations/ParameterDeclaration.cs:157-169 | an enum gives one (name, value) pair per member, in order; every other kind gives none |
| ParameterModel.FieldUsesFirstVariable | src/Declarations/ParameterDeclaration.cs:129-130 | a field's view reads its first variable only; adding or changing later variables does not change name or default |
| ParameterModel.EnumViewRoundTrip | src/Declarations/ParameterDeclaration.cs:85-169 | an enum's type and name are its identifier, its default is null, it is not nullable, and its value names are its member names |
| ParameterModel.ValuesOnlyForEnums | src/Declarations/ParameterDeclaration.cs:157-169 | non-empty values imply an enum with members |
| ParameterModel.EnumValuesExample | src/Declarations/ParameterDeclaration.cs:157-169 | `enum Color { Red, Green = 5 }` gives [("Red", null), ("Green", "5")] |
| ParameterModel.ParameterDefaultValue | src/Declarations/ParameterDeclaration.cs:146-147 | a parameter without a default fails with NullReferenceException; with `= 3` it gives "3" |
| MethodModel.AccessInvariant | src/Declarations/MethodDeclaration.cs:21-53 | IsPrivate iff explicit "private" or no other access modifier, so at least one access flag holds; modifiers are compared as written |
| MethodModel.ProtectedInternalSetsTwo | src/Declarations/MethodDeclaration.cs:21-53 | `protected internal` sets both protected and internal and neither public nor private |
| MethodModel.FlagTokens | src/Declarations/MethodDeclaration.cs:40-53 | protected, internal, readonly, static, abstract and async each hold iff some modifier token is exactly the keyword |
| MethodModel.ModifiersDetermineFlags | src/Declarations/MethodDeclaration.cs:21-55 | two method views with the same modifier texts agree on all eight flags, whatever their kind or parent |
| MethodModel.PublicStaticAsync | src/Declarations/MethodDeclaration.cs:21-55 | `public static async` gives its three token texts in order and sets public, static and async and no other flag |
| MethodModel.Name | src/Declarations/MethodDeclaration.cs:57-73 | the identifier exactly for methods and constructors; ArgumentNullException for every other kind |
| MethodModel.SetName | src/Declarations/MethodDeclaration.cs:74-83 | assigning a name always throws NotImplementedException |
| MethodModel.ReturnType | src/Declarations/MethodDeclaration.cs:85-96 | the declared return type text for a method; "void" for every other kind |
| MethodModel.ReturnTypeIsNullable | src/Declarations/MethodDeclaration.cs:97-108 | the return type's flag for a method; false for every other kind |
| MethodModel.Attributes | src/Declarations/MethodDeclaration.cs:109-110 | an attribute view is listed iff its attribute is in one of the method's attribute lists |
| MethodModel.Parameters | src/Declarations/MethodDeclaration.cs:111-112 | one parameter view per formal parameter, in order |
| MethodModel.Body | src/Declarations/MethodDeclaration.cs:113-114 | the block body text, failing with NullReferenceException when there is no block body |
| MethodModel.ConstructorView | src/Declarations/MethodDeclaration.cs:57-108 | a constructor has its identifier as name, return type "void", and is not nullable |
| MethodModel.OperatorHasNoName | src/Declarations/MethodDeclaration.cs:57-96 | operators, conversions and destructors have no name, and their return type is "void" |
| MethodModel.ParametersRoundTrip | src/Declarations/MethodDeclaration.cs:111-112 | unwrapping the parameter views gives back the parameter list |
| MethodModel.NameTest | src/Declarations/MethodDeclaration.cs:122 | the name test fails exactly where the name does, and otherwise applies the predicate to the name |
| MethodModel.WithName | src/Declarations/MethodDeclaration.cs:119-123 | succeeds iff every source method has a name; then the methods whose name passes, in order, each kept as often as it occurs |
| MethodModel.WithAttribute | src/Declarations/MethodDeclaration.cs:124-128 | the order-preserving subsequence of methods with an attribute passing the predicate, each kept as often as it occurs |
| MethodModel.WithAttributeNamed | src/Declarations/MethodDeclaration.cs:129-133 | the order-preserving subsequence of methods with an attribute named as queried, ignoring case, each kept as often as it occurs |
| MethodModel.WithAttributeNamedIsWithAttribute | src/Declarations/MethodDeclaration.cs:124-133 | the by-name overload is the predicate overload with the case-insensitive name test |
| MethodModel.WithPublic | src/Declarations/MethodDeclaration.cs:134-137 | the order-preserving subsequence of methods with modifier "public", each kept as often as it occurs |
| MethodModel.WithProtected | src/Declarations/MethodDeclaration.cs:138-141 | the order-preserving subsequence of methods with modifier "protected", each kept as often as it occurs |
| MethodModel.WithInternal | src/Declarations/MethodDeclaration.cs:142-145 | the order-preserving subsequence of methods with modifier "internal", each kept as often as it occurs |
| MethodModel.WithPrivate | src/Declarations/MethodDeclaration.cs:146-149 | the order-preserving subsequence of methods that are explicitly or by default private, each kept as often as it occurs |
| MethodModel.WithReadonly | src/Declarations/MethodDeclaration.cs:150-153 | the order-preserving subsequence of methods with modifier "readonly", each kept as often as it occurs |
| MethodModel.WithStatic | src/Declarations/MethodDeclaration.cs:154-157 | the order-preserving subsequence of methods with modifier "static", each kept as often as it occurs |
| MethodModel.WithAbstract | src/Declarations/MethodDeclaration.cs:158-161 | the order-preserving subsequence of methods with modifier "abstract", each kept as often as it occurs |
| MethodModel.AccessFiltersCover | src/Declarations/MethodDeclaration.cs:134-149 | every method is kept by at least one of the four access filters |
| MethodModel.AccessFiltersIdempotent | src/Declarations/MethodDeclaration.cs:134-161 | applying any of the seven modifier filters twice is applying it once |
| MethodModel.AccessFiltersCompose | src/Declarations/MethodDeclaration.cs:134-161 | any two of the seven modifier filters commute |
| TypeModel.Modifiers | src/Declarations/TypeDeclaration.cs:35-36 | the lower-cased modifier texts, one per token, in order |
| TypeModel.AccessInvariant | src/Declarations/TypeDeclaration.cs:21-28 | IsPrivate iff explicit "private" or no other access modifier, so at least one access flag holds |
| TypeModel.NoModifiersMeansPrivate | src/Declarations/TypeDeclaration.cs:21-34 | a type without modifiers is private only, and not readonly, static or abstract |
| TypeModel.FlagTokens | src/Declarations/TypeDeclaration.cs:21-36 | public, protected, internal, readonly, static and abstract each hold iff some modifier token, lower-cased, is the keyword |
| TypeModel.Attributes | src/Declarations/TypeDeclaration.cs:39-41 | an attribute view is listed iff its attribute is in one of the type's attribute lists |
| TypeModel.NameIgnoresFile | src/Declarations/TypeDeclaration.cs:42-43 | `Name` is the node's identifier, whichever file the view was read from |
| TypeModel.GetBaseTypes | src/Declarations/TypeDeclaration.cs:44-49 | the base list's type texts in order, or empty when there is no base list |
| TypeModel.TypesOf | src/Declarations/TypeDeclaration.cs:56-60 | `OfType` then `Select`: a type view is listed iff its node is one of the given nodes of that kind, in the file |
| TypeModel.TypesOfMonotone | src/Declarations/TypeDeclaration.cs:56-134 | selecting types from a subsequence of nodes gives a subsequence of the selection |
| TypeModel.TypesOfConcat | src/Declarations/TypeDeclaration.cs:56-134 | selection distributes over concatenation, so document order is kept |
| TypeModel.TypesOfNarrows | src/Declarations/TypeDeclaration.cs:124-134 | filtering a selection by a finer kind is selecting by that kind |
| TypeModel.MembersOfMonotone | src/Declarations/TypeDeclaration.cs:113-123 | selecting enums from a subsequence of nodes gives a subsequence of the selection |
| TypeModel.GetConstructors | src/Declarations/TypeDeclaration.cs:51-55 | the direct constructor children, each with this type's node as parent |
| TypeModel.GetMethods | src/Declarations/TypeDeclaration.cs:76-80 | the direct method children, each with this type's node as parent |
| TypeModel.GetFields | src/Declarations/TypeDeclaration.cs:66-70 | the direct field children |
| TypeModel.GetProperties | src/Declarations/TypeDeclaration.cs:71-75 | the direct property children |
| TypeModel.GetClasses | src/Declarations/TypeDeclaration.cs:56-60 | the direct class children, in the same file |
| TypeModel.GetAllClasses | src/Declarations/TypeDeclaration.cs:61-65 | all descendant classes, in the same file |
| TypeModel.GetInterfaces | src/Declarations/TypeDeclaration.cs:81-85 | the direct interface children |
| TypeModel.GetAllInterfaces | src/Declarations/TypeDeclaration.cs:86-90 | all descendant interfaces |
| TypeModel.GetRecords | src/Declarations/TypeDeclaration.cs:91-95 | the direct record children |
| TypeModel.GetAllRecords | src/Declarations/TypeDeclaration.cs:96-101 | all descendant records |
| TypeModel.GetStructs | src/Declarations/TypeDeclaration.cs:102-106 | the direct struct children |
| TypeModel.GetAllStructs | src/Declarations/TypeDeclaration.cs:107-112 | all descendant structs |
| TypeModel.GetEnums | src/Declarations/TypeDeclaration.cs:113-117 | the direct enum children |
| TypeModel.GetAllEnums | src/Declarations/TypeDeclaration.cs:118-123 | all descendant enums |
| TypeModel.GetTypes | src/Declarations/TypeDeclaration.cs:124-128 | the direct type-declaration children |
| TypeModel.GetAllTypes | src/Declarations/TypeDeclaration.cs:129-134 | all descendant type declarations |
| TypeModel.ShallowInDeep | src/Declarations/TypeDeclaration.cs:56-134 | every shallow accessor's result is a subsequence of its deep counterpart's |
| TypeModel.FlatSelection | src/Declarations/TypeDeclaration.cs:56-134 | when no node of a kind lies below depth one, deep and shallow selection of that kind agree |
| TypeModel.DeepIsShallowWhenFlat | src/Declarations/TypeDeclaration.cs:56-134 | for each of the six kinds separately, the deep accessor equals the shallow one when that kind does not nest below the direct members |
| TypeModel.KindsRefineTypes | src/Declarations/TypeDeclaration.cs:56-134 | each kind accessor is the type accessor filtered to that kind |
| TypeModel.TypesAreTheFourKinds | src/Declarations/TypeDeclaration.cs:124-134 | a declared type is a class, interface, struct or record, and never an enum |
| TypeQueries.MethodTest | src/Declarations/TypeDeclaration.cs:142 | a type passes iff one of its own methods passes the predicate |
| TypeQueries.WithMethods | src/Declarations/TypeDeclaration.cs:139-143 | the order-preserving subsequence of types with a direct method child passing the predicate, each kept as often as it occurs |
| TypeQueries.WithMethodsIgnoresConstructors | src/Declarations/TypeDeclaration.cs:139-143 | a type whose children include no method is never kept, even with constructors |
| TypeQueries.WithName | src/Declarations/TypeDeclaration.cs:144-148 | the order-preserving subsequence of types whose name passes, each kept as often as it occurs |
| TypeQueries.AttributeTest | src/Declarations/TypeDeclaration.cs:152 | a type passes iff one of its attributes passes |
| TypeQueries.WithAttribute | src/Declarations/TypeDeclaration.cs:149-153 | the order-preserving subsequence of types with an attribute passing the predicate, each kept as often as it occurs |
| TypeQueries.WithAttributeNamed | src/Declarations/TypeDeclaration.cs:154-158 | the order-preserving subsequence of types with an attribute named as queried, ignoring case, each kept as often as it occurs |
| TypeQueries.BaseTypeTest | src/Declarations/TypeDeclaration.cs:162 | a type passes iff one of its base types passes |
| TypeQueries.WithBaseTypes | src/Declarations/TypeDeclaration.cs:159-163 | the order-preserving subsequence of types with a base type passing the predicate, each kept as often as it occurs |
| TypeQueries.WithBaseType | src/Declarations/TypeDeclaration.cs:164-168 | the order-preserving subsequence of types with a base type equal to the name, ignoring case, each kept as often as it occurs |
| TypeQueries.WithBaseTypeIsWithBaseTypes | src/Declarations/TypeDeclaration.cs:159-168 | the by-name overload is the predicate overload with the case-insensitive test |
| TypeQueries.NoBaseListNoMatch | src/Declarations/TypeDeclaration.cs:44-49 | a type without a base list passes no base-type filter |
| TypeQueries.WithPublic | src/Declarations/TypeDeclaration.cs:169-172 | the order-preserving subsequence of types that are public, each kept as often as it occurs |
| TypeQueries.WithProtected | src/Declarations/TypeDeclaration.cs:173-176 | the order-preserving subsequence of types that are protected, each kept as often as it occurs |
| TypeQueries.WithInternal | src/Declarations/TypeDeclaration.cs:177-180 | the order-preserving subsequence of types that are internal, each kept as often as it occurs |
| TypeQueries.WithPrivate | src/Declarations/TypeDeclaration.cs:181-184 | the order-preserving subsequence of types private explicitly or by default, each kept as often as it occurs |
| TypeQueries.WithReadonly | src/Declarations/TypeDeclaration.cs:185-188 | the order-preserving subsequence of types that are readonly, each kept as often as it occurs |
| TypeQueries.WithStatic | src/Declarations/TypeDeclaration.cs:189-192 | the order-preserving subsequence of types that are static, each kept as often as it occurs |
| TypeQueries.WithAbstract | src/Declarations/TypeDeclaration.cs:193-196 | the order-preserving subsequence of types that are abstract, each kept as often as it occurs |
| TypeQueries.AccessFiltersCover | src/Declarations/TypeDeclaration.cs:169-184 | every type is kept by at least one of the four access filters |
| TypeQueries.GetMethodsWhere | src/Declarations/TypeDeclaration.cs:198-204 | the passing methods among all types' methods, in order, each kept as often as it occurs |
| TypeQueries.GetMethodsWhereIsPerType | src/Declarations/TypeDeclaration.cs:198-204 | flattening then filtering equals filtering each type's methods, in source order |
| TypeQueries.GetTypes | src/Declarations/TypeDeclaration.cs:205-210 | the concatenation of each type's shallow or deep type declarations; an element is listed iff some source type lists it, and every element is one of the type declarations |
| TypeQueries.GetTypesWhere | src/Declarations/TypeDeclaration.cs:211-216 | the flattened types that pass the predicate, in order, each kept as often as it occurs |
| TypeQueries.GetClasses | src/Declarations/TypeDeclaration.cs:217-222 | the concatenation of each type's shallow or deep classes; an element is listed iff some source type lists it, and every element is one of the classes |
| TypeQueries.GetClassesWhere | src/Declarations/TypeDeclaration.cs:223-228 | the flattened classes that pass the predicate, in order, each kept as often as it occurs |
| TypeQueries.GetInterfaces | src/Declarations/TypeDeclaration.cs:229-234 | the concatenation of each type's shallow or deep interfaces; an element is listed iff some source type lists it, and every element is one of the interfaces |
| TypeQueries.GetInterfacesWhere | src/Declarations/TypeDeclaration.cs:235-240 | the flattened interfaces that pass the predicate, in order, each kept as often as it occurs |
| TypeQueries.GetStructs | src/Declarations/TypeDeclaration.cs:241-246 | the concatenation of each type's shallow or deep structs; an element is listed iff some source type lists it, and every element is one of the structs |
| TypeQueries.GetStructsWhere | src/Declarations/TypeDeclaration.cs:247-252 | the flattened structs that pass the predicate, in order, each kept as often as it occurs |
| TypeQueries.GetRecords | src/Declarations/TypeDeclaration.cs:253-258 | the concatenation of each type's shallow or deep records; an element is listed iff some source type lists it, and every element is one of the records |
| TypeQueries.GetRecordsWhere | src/Declarations/TypeDeclaration.cs:259-264 | the flattened records that pass the predicate, in order, each kept as often as it occurs |
| TypeQueries.GetEnums | src/Declarations/TypeDeclaration.cs:265-270 | the concatenation of each type's shallow or deep enums; an element is listed iff some source type lists it, and every element is an enum |
| TypeQueries.GetEnumsWhere | src/Declarations/TypeDeclaration.cs:271-276 | the flattened enums that pass the predicate, in order, each kept as often as it occurs |
| TypeQueries.FlattenConcat | src/Declarations/TypeDeclaration.cs:205-270 | each of the six flatteners distributes over concatenation of the source, in both modes |
| TypeQueries.FlattenShallowInDeep | src/Declarations/TypeDeclaration.cs:205-270 | with sub=false the result is a subsequence of the one with sub=true |
| TypeQueries.FlattenedClassesAreClassTypes | src/Declarations/TypeDeclaration.cs:205-258 | each kind flattener is the type flattener filtered to that kind |
| FileModel.GetNamespaces | SourceFile.cs:23-26 | the root's namespace children, in order |
| FileModel.Usings | SourceFile.cs:28-35 | the root-level using directives' names, one per directive, in order |
| FileModel.Namespaces | SourceFile.cs:36-42 | the names of the root-level namespaces, in order |
| FileModel.ShallowTypes | SourceFile.cs:43-48 | a type is listed iff it is a direct child of a root-level namespace |
| FileModel.DeepTypes | SourceFile.cs:49-54 | a type is listed iff it is any descendant of the root |
| FileModel.GetClasses | SourceFile.cs:43-48 | classes directly inside a root-level namespace |
| FileModel.GetAllClasses | SourceFile.cs:49-54 | all classes in the file |
| FileModel.GetRecords | SourceFile.cs:55-60 | records directly inside a root-level namespace |
| FileModel.GetAllRecords | SourceFile.cs:61-66 | all records in the file |
| FileModel.GetStructs | SourceFile.cs:67-72 | structs directly inside a root-level namespace |
| FileModel.GetAllStructs | SourceFile.cs:73-78 | all structs in the file |
| FileModel.GetInterfaces | SourceFile.cs:79-84 | interfaces directly inside a root-level namespace |
| FileModel.GetAllInterfaces | SourceFile.cs:85-90 | all interfaces in the file |
| FileModel.GetTypes | SourceFile.cs:91-96 | type declarations directly inside a root-level namespace |
| FileModel.GetAllTypes | SourceFile.cs:97-102 | all type declarations in the file |
| FileModel.BodyIgnoresEntryPath | SourceFile.cs:104-105 | `Body` is the tree's text, whatever the entry path |
| FileModel.LastSegment | SourceFile.cs:106-107 | the longest suffix without a separator |
| FileModel.FileName | SourceFile.cs:106-107 | the longest suffix of the tree's path that contains no separator: it is all of the path or preceded by a separator |
| FileModel.FilePath | SourceFile.cs:108-109 | fails iff the tree path is not longer than the entry path; otherwise it is "./" followed by the rest after the entry path and one separator, with '\' written as '/'; it starts with "./" and has no '\' |
| FileModel.FilePathRoundTrip | SourceFile.cs:108-109 | a file stored at entry path + "\" + a relative path has FilePath "./" + that relative path with forward slashes |
| FileModel.FilePathIgnoresEntryText | SourceFile.cs:109 | only the entry path's length matters, not its text |
| FileModel.ShallowIsNamespaceChildren | SourceFile.cs:43-48 | selecting per namespace then concatenating equals selecting over all namespace children |
| FileModel.ShallowTypesInDeep | SourceFile.cs:43-102 | the shallow selection of any kind is a subsequence of the deep one |
| FileModel.ShallowInDeep | SourceFile.cs:43-102 | each shallow file accessor's result is a subsequence of the deep one's |
| FileModel.KindsRefineTypes | SourceFile.cs:43-102 | each kind accessor is the type accessor filtered to that kind |
| FileModel.FileScopedNamespaceIsDeepOnly | SourceFile.cs:23-26 | a class in a file-scoped namespace is invisible to the shallow accessors and visible to the deep ones |
| FileQueries.NormalisePath | SourceFile.cs:123-124 | the query is "./" followed by the path without leading '.' and '/', with '/' written as '\'; no '/' follows the "./" |
| FileQueries.NormaliseIgnoresDotSlash | SourceFile.cs:123 | a leading run of '.' and '/' does not change the query, so "Social" and "./Social" agree |
| FileQueries.PathMatch | SourceFile.cs:127 | the match fails with FilePath's exception; otherwise it throws iff sub is false and FilePath equals the query; otherwise it is the raw prefix test |
| FileQueries.WithPath | SourceFile.cs:120-128 | succeeds iff every FilePath exists and, without sub, no FilePath equals the query; then exactly the files whose FilePath starts with the query, in order, each kept as often as it occurs |
| FileQueries.MultiSegmentNeverMatches | SourceFile.cs:123-127 | a path with a '/' after its leading dots and slashes matches no file |
| FileQueries.NormalisedSegmentsUseBackslash | SourceFile.cs:124 | such a path's query contains a '\' |
| FileQueries.BackslashIsNeverAPrefix | SourceFile.cs:109 | a text containing '\' is no prefix of a text without one |
| FileQueries.SubDirectoriesFlagIsVacuous | SourceFile.cs:127 | when the non-recursive query succeeds it selects the same files as the recursive one |
| FileQueries.ExactPathThrows | SourceFile.cs:127 | a file whose FilePath equals the query makes the non-recursive query throw ArgumentOutOfRangeException and is kept by the recursive one |
| FileQueries.RawPrefixMatchesSibling | SourceFile.cs:127 | any file whose FilePath extends the query, such as a sibling directory "./SocialX/...", is kept by both modes |
| FileQueries.DirectoryPrefix | SourceFile.cs:123-124 | the corrected query starts with "./", ends with '/', and uses '/' only |
| FileQueries.IntendedMatch | SourceFile.cs:126-127 | the corrected match: FilePath starts with the directory prefix and, without sub, no '/' follows it |
| FileQueries.WithPathIntended | SourceFile.cs:120-128 | succeeds iff every FilePath exists; then exactly the files the corrected match keeps, in order, each kept as often as it occurs |
| FileQueries.IntendedKeepsDirectoryContents | SourceFile.cs:120-128 | a file under the directory is kept by the recursive query, and by the non-recursive one iff it is directly inside |
| FileQueries.CleanDirectoryPrefix | SourceFile.cs:123-124 | a directory without leading '.' or '/', without '\' and without a closing '/' gets exactly one closing '/' |
| FileQueries.NestedDirectoryPrefix | SourceFile.cs:123-124 | the corrected prefix of "./a/b" is "./a/b/" |
| FileQueries.IntendedMultiSegment | SourceFile.cs:120-128 | "./a/b" selects "./a/b/name" without sub |
| FileQueries.IntendedExcludesSibling | SourceFile.cs:120-128 | a sibling whose name only starts with the directory name is kept by neither mode |
| FileQueries.IntendedSubDirectoriesNarrows | SourceFile.cs:120-128 | both modes succeed together, and the non-recursive result is a subsequence of the recursive one |
| FileQueries.ClassTest | SourceFile.cs:132 | a file passes iff one of its shallow or deep classes passes |
| FileQueries.WithClasses | SourceFile.cs:129-133 | the order-preserving subsequence of files with a shallow or deep class passing the predicate, each kept as often as it occurs |
| FileQueries.InterfaceTest | SourceFile.cs:137 | a file passes iff one of its shallow or deep interfaces passes |
| FileQueries.WithInterfaces | SourceFile.cs:134-138 | the order-preserving subsequence of files with a matching interface, each kept as often as it occurs |
| FileQueries.StructTest | SourceFile.cs:142 | a file passes iff one of its shallow or deep structs passes |
| FileQueries.WithStructs | SourceFile.cs:139-143 | the order-preserving subsequence of files with a matching struct, each kept as often as it occurs |
| FileQueries.RecordTest | SourceFile.cs:147 | a file passes iff one of its shallow or deep records passes |
| FileQueries.WithRecords | SourceFile.cs:144-148 | the order-preserving subsequence of files with a matching record, each kept as often as it occurs |
| FileQueries.EnumTest | SourceFile.cs:149-155 | a type passes iff one of its shallow or deep enums passes |
| FileQueries.WithEnums | SourceFile.cs:149-155 | returns types, not files: among the deep types of all the files, in order, exactly those that themselves own a shallow or deep enum passing the predicate, each kept as often as it occurs |
| FileQueries.WithClassesShallowInDeep | SourceFile.cs:129-133 | the shallow class filter keeps a subsequence of what the deep one keeps |
| FileQueries.GetTypes | SourceFile.cs:157-162 | the concatenation of each file's shallow or deep type declarations; an element is listed iff some file lists it, and every element is one of the type declarations and belongs to a source file |
| FileQueries.GetTypesWhere | SourceFile.cs:163-168 | the flattened types that pass the predicate, in order, each kept as often as it occurs |
| FileQueries.GetClasses | SourceFile.cs:169-174 | the concatenation of each file's shallow or deep classes; an element is listed iff some file lists it, and every element is one of the classes and belongs to a source file |
| FileQueries.GetClassesWhere | SourceFile.cs:175-180 | the flattened classes that pass the predicate, in order, each kept as often as it occurs |
| FileQueries.GetInterfaces | SourceFile.cs:181-186 | the concatenation of each file's shallow or deep interfaces; an element is listed iff some file lists it, and every element is one of the interfaces and belongs to a source file |
| FileQueries.GetInterfacesWhere | SourceFile.cs:187-192 | the flattened interfaces that pass the predicate, in order, each kept as often as it occurs |
| FileQueries.GetStructs | SourceFile.cs:193-198 | the concatenation of each file's shallow or deep structs; an element is listed iff some file lists it, and every element is one of the structs and belongs to a source file |
| FileQueries.GetStructsWhere | SourceFile.cs:199-204 | the flattened structs that pass the predicate, in order, each kept as often as it occurs |
| FileQueries.GetRecords | SourceFile.cs:205-210 | the concatenation of each file's shallow or deep records; an element is listed iff some file lists it, and every element is one of the records and belongs to a source file |
| FileQueries.GetRecordsWhere | SourceFile.cs:211-216 | the flattened records that pass the predicate, in order, each kept as often as it occurs |
| FileQueries.FlattenConcat | SourceFile.cs:157-210 | each of the five flatteners distributes over concatenation of the files, in both modes |
| FileQueries.FlattenShallowInDeep | SourceFile.cs:157-210 | with sub=false the result is a subsequence of the one with sub=true |
| FileQueries.FlattenedClassesAreClassTypes | SourceFile.cs:157-210 | each kind flattener is the type flattener filtered to that kind |
| QueryRoot.EntryPathOf | src/SourceGeneratorQuery.cs:15-16 | succeeds iff the path contains "\obj\", and throws ArgumentOutOfRangeException otherwise; the result is a prefix of the path followed by "\obj\", and it contains no "\obj\" |
| QueryRoot.EntryPathRoundTrip | src/SourceGeneratorQuery.cs:16 | a project directory followed by "\obj\" and anything gives back the directory, when "\obj\" does not occur earlier |
| QueryRoot.Create | src/SourceGeneratorQuery.cs:12-17 | construction succeeds iff the entry path can be derived, keeps the context, and stores that entry path |
| QueryRoot.NewQuery | src/SourceGeneratorQuery.cs:19-23 | one source file per syntax tree, in order, all with the query's entry path |
| QueryRoot.NewQueryRoundTrip | src/SourceGeneratorQuery.cs:19-23 | the files' trees are exactly the compilation's trees |
| QueryRoot.ContextNewQuery | src/SourceGeneratorQuery.cs:28-29 | succeeds iff the entry path can be derived; then the i-th file wraps the i-th tree with that entry path |
| Legacy.GetConstructors | Declarations/TypeDeclaration.cs:51-55 | the direct constructor children, wrapped without a parent |
| Legacy.GetMethods | Declarations/TypeDeclaration.cs:76-80 | the direct method children, wrapped without a parent |
| Legacy.SameMethodsWithoutParent | Declarations/TypeDeclaration.cs:51-80 | the earlier accessors list the current ones' nodes in the same order, without parents |
| Legacy.MethodTest | Declarations/TypeDeclaration.cs:142 | a type passes iff one of its parentless methods passes |
| Legacy.WithMethods | Declarations/TypeDeclaration.cs:139-143 | the order-preserving subsequence of types with a direct method passing the predicate, the method seen without parent, each type kept as often as it occurs |
| Legacy.GetMethodsWhere | Declarations/TypeDeclaration.cs:198-204 | the passing methods among all types' parentless methods, in order, each kept as often as it occurs |
| Legacy.WithMethodsAgree | Declarations/TypeDeclaration.cs:139-143 | for a predicate that ignores the parent, both variants select the same types |
| Legacy.OrphanReadsTheSame | Declarations/MethodDeclaration.cs:56-111 | dropping the parent changes neither name, return type, parameters nor any of the four access flags |
| Legacy.ParameterViewFacts | Declarations/ParameterDeclaration.cs:34-169 | parameters have no flags; otherwise private is explicit or the default; enums give their identifier and no default; unlisted kinds throw on Type; a parameter without a default fails; only enums have values |
| Legacy.MethodViewFacts | Declarations/MethodDeclaration.cs:20-111 | at least one access flag; a name exactly for methods and constructors; "void" and not nullable for other kinds; the parameters in order |

## Left out

- Roslyn parsing, `ToString()`/`GetText()` rendering and trivia are not modelled. Type, expression, name and body texts are strings stored on the nodes.
- `TypeSyntax.IsNotNull` is kept as a flag stored on the type reference. Its meaning is not modelled.
- The generator host (`GeneratorExecutionContext`, `Compilation.Assembly.Locations`, `Initialize`/`Execute`, `Debugger.Launch`) is outside the model. The location's file path is the input `GeneratorContext.lastLocationPath`.
- FileModel.FileName: `Path.GetFileName` depends on the platform, so the separator set is a parameter.
- Culture-sensitive `StartsWith` is modelled as an ordinal prefix test.
- Text.IndexOf: the culture-sensitive `IndexOf("\\obj\\")` of src/SourceGeneratorQuery.cs:16 is modelled as an ordinal search.
- Text.LowerChar: the culture-sensitive `ToLower()` on modifier tokens (src/Declarations/ParameterDeclaration.cs:49-65, src/Declarations/TypeDeclaration.cs:35-36) is modelled as ASCII lower-casing.
- `OrdinalIgnoreCase` is modelled as ASCII case folding (`Text.ToLower`).
- Lazy `IEnumerable` evaluation is not modelled. A filter whose test throws yields the exception for the whole sequence, not after a partial enumeration.
- MethodModel.MethodDeclaration: the parent back-reference is an `Option<Node>`. The source passes a `TypeDeclaration` where a `MethodDeclaration` is declared, and that type mismatch is not modelled.
- QueryRoot.ContextNewQuery: under value semantics a "fresh query on every call" is just a new value, so object identity is not stated.
- The views' fields are set once in their constructors and never reassigned. Under value semantics this holds by construction, so no lemma states it.
- The commented-out modifier setter in the method view is not live code and is not modelled.
- The example drivers and the test generator only call the API and build display strings; they are not modelled.
- A `null` argument, such as a null path, would raise `NullReferenceException` in .NET. Strings here are never null.
- Both parameter files share `ParameterModel`, since the earlier file differs only in its namespace and in a private field name.

## Findings

| source | as written | input that shows it | evidently intended | confidence | as-written member | corrected member |
|---|---|---|---|---|---|---|
| SourceFile.cs:123-127 | the query is rewritten to '\' separators, while FilePath uses only '/' | `WithPath("./Social/Feed")` and a file whose FilePath is "./Social/Feed/Client.cs": the query becomes "./Social\Feed", and the file is not selected | a multi-segment directory selects the files under it | not executed | FileQueries.MultiSegmentNeverMatches | FileQueries.IntendedMultiSegment |
| SourceFile.cs:127 | the non-recursive test looks for a '\' that FilePath never contains, and its Substring throws when FilePath equals the query | `WithPath("Social", false)` keeps "./Social/Sub/Foo.cs", and a file whose FilePath is "./Social" throws ArgumentOutOfRangeException | files in subdirectories are excluded, with no exception | not executed | FileQueries.SubDirectoriesFlagIsVacuous | FileQueries.IntendedKeepsDirectoryContents |
| SourceFile.cs:127 | the prefix test has no trailing separator | `WithPath("Social")` keeps "./SocialNetwork/Foo.cs" | only files inside the directory "Social" match | not executed | FileQueries.RawPrefixMatchesSibling | FileQueries.IntendedExcludesSibling |
