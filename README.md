# extjs2react core, modelled in Dafny

extjs2react transpiles an ExtJS code base into React modules. Every JavaScript file
that calls `Ext.define` is parsed into a source file. Each `Ext.define` becomes a
class with a name, a parent, mixins, aliases, configs and members. A codebase registers
every class under its name, its aliases and its alternate names, so that files can find
the classes they use and import them. The framework (ExtJS itself) is a codebase too:
the parent of the project's codebase. Transpiling a class turns its configs into
accessors, its listeners and templates into JSX-ready values, and rewrites calls through
a table of hooks (`Ext.apply` to `Object.assign`, `Ext.isString` to `_.isString`, ...).
Afterwards structural passes run on the output tree: `var` to `let`, function
expressions to arrow functions, and arrow functions that only return a value to the
expression form. The framework codebase is transpiled differently: it writes one manifest, `index.js`, with an `export const` line per framework class (its widgets through `reactify`), and it supplies the lines of the application's index file, which re-exports the application's classes in ascending order of use.

The model follows the source module by module:

| Dafny module (file) | source |
|---|---|
| `Util` (util.dfy) | `getRelativePath` in src/Util.js |
| `Source` (source.dfy) | src/Source.js: match scanning, `getClassesUsed`, `addImports`, `toCode`, the parseable rule |
| `Ast` (ast.dfy) | src/Ast.js: property lookup, `toValue`, `copy`, `up` |
| `Registry` (registry.dfy) | the lookups of src/Codebase.js on a codebase and its parent chain |
| `Words` (words.dfy) | the word list of src/Codebase.js (`_addWords`, `_addWordsFromClassNames`, `capitalize`) |
| `Codebase` (codebase.dfy) | the mutable `Codebase` class of src/Codebase.js |
| `ExtClass` (extclass.dfy) | src/ExtJSClass.js |
| `SourceFile` (sourcefile.dfy) | src/SourceFile.js |
| `Hooks` (hooks.dfy) | the rule tables and `afterTranspile` of src/Hooks.js |
| `HookPasses` (hookpasses.dfy) | the structural tree passes of src/Hooks.js |
| `Framework` (framework.dfy) | the export list and index file of src/Framework.js |
| `Text`, `Seqs`, `Wrappers` | string, sequence and option helpers the other modules share |

Syntax trees are values of `Ast.Node`: a small JavaScript expression grammar covering
strings, numbers, identifiers, `this`, arrays, objects, ternaries, member expressions,
calls and functions, with `Other` for every other kind of node. Parsing and printing
(recast) are function parameters, and so are regular-expression scans (`Finder`). The
codebase, an ExtJS class's mutable parts, a source file and a `Source` are Dafny classes
whose methods change their fields. Everything computed from them is a function.

## Model

| member | source | states |
|---|---|---|
| Util.GetRelativePath | src/Util.js:60-76 | computes `RelativePath`: the common index is the first differing segment or the last segment of the target; `..` repeated, the rest of the target, `.` in front unless it starts with `..`; `None` where `Array(n)` throws on a negative count |
| Util.RelativePathErrorIff | src/Util.js:63-69 | the error case happens exactly when the source path's segments are a proper prefix of the target's |
| Util.CommonPrefix | src/Util.js:63-67 | both paths agree on every segment before the common index, which lies within both |
| Util.RelativePartsShape | src/Util.js:69-73 | the result is `..` repeated `fromParts.length - commonParts - 1` times, then the target's segments from the common index, with one `.` in front exactly when it does not start with `..` |
| Util.FindDiffAt | src/Util.js:63 | the search returns exactly the first index where the paths differ |
| Util.RelativePartsResolve | src/Util.js:60-76 | round trip: following the relative segments from the source file's directory reaches the target file, when the target's segments are plain names |
| Util.RelativePartsNoSeparator | src/Util.js:69-75 | no segment of the result holds a `/` when none of the target's does |
| Util.RelativePathResolve | src/Util.js:60-76 | the same round trip on the path strings: splitting the result at `/` and following it reaches the target |
| Util.SamePath | src/Util.js:60-76 | a file relative to itself is `./` and its own name |
| Util.SameDirectory | src/Util.js:60-76 | two files in one directory give `./` and the target's name |
| Util.Example | src/Util.js:60-76 | the segments of the result, joined with `/`, are what `getRelativePath` returns on the joined paths |
| Util.Example1 | test/index.js:4 | `getRelativePath('/foo.js', '/foo.js')` is `./foo.js` |
| Util.Example2 | test/index.js:5 | `getRelativePath('/foo.js', '/bar.js')` is `./bar.js` |
| Util.Example3 | test/index.js:6 | `getRelativePath('/1/foo.js', '/1/bar.js')` is `./bar.js` |
| Util.Example4 | test/index.js:7 | `getRelativePath('/1/2/foo.js', '/1/2/bar.js')` is `./bar.js` |
| Util.Example5 | test/index.js:8 | `getRelativePath('/1/foo.js', '/2/bar.js')` is `../2/bar.js` |
| Util.Example6 | test/index.js:9 | `getRelativePath('/1/a/foo.js', '/1/bar.js')` is `../bar.js` |
| Util.Example7 | test/index.js:10 | `getRelativePath('/1/foo.js', '/1/a/bar.js')` is `./a/bar.js` |
| Util.Example8 | test/index.js:11 | `getRelativePath('/1/2/3/4/foo.js', '/1/2/a/b/c/bar.js')` is `../../a/b/c/bar.js` |
| Source.MatchesOrdered | src/Source.js:74-83 | the matches `exec` finds one after another lie inside the text, in order, without overlapping |
| Source.Source.GetMatches | src/Source.js:74-83 | the loop collects exactly the successive matches from the start of the text, in order and without overlap |
| Source.Groups | src/Source.js:39 | `matches.map(match => match[1])`: one first group per match, in order |
| Source.ClassesUsed | src/Source.js:46 | the result has no duplicates and holds exactly the names found that the file does not define |
| Source.Source.GetClassesUsed | src/Source.js:42-47 | the class names every pattern finds, pattern by pattern, without the file's own classes and without duplicates |
| Source.Source.ToCode | src/Source.js:30-32 | the printed tree for a parseable source, the text otherwise |
| Source.Source.constructor | src/Source.js:15-24 | a source is parseable exactly when it defines a class and printing its parsed tree gives back its text; either way `toCode` returns the text |
| Source.ImportsAddedSpec | src/Source.js:64-72 | the added paths are exactly those not imported yet, sorted; nothing new leaves the text unchanged; otherwise the import lines, a blank line when there were no imports, then the old text |
| Source.ImportsAddedNothingNew | src/Source.js:69-71 | when every path is already imported the source is unchanged |
| Source.ImportCodeLines | src/Source.js:67 | the import code splits into one `import '<path>'` line per path, in order, then an empty last line |
| Source.Lines | src/Source.js:67 | one `import '<path>'` line per path |
| Source.Source.AddImports | src/Source.js:64-72 | the new text is the old one with the new imports prepended as above; the file path, the parseable flag and the tree are unchanged |
| Ast.PropertyName | src/Ast.js:109-111 | a string key gives its value, a non-empty identifier its name, anything else no name |
| Ast.GetProperties | src/Ast.js:102-107 | a property is kept exactly when it is in the object and passes both an absent-or-containing `include` and an absent-or-excluding `exclude` |
| Ast.GetPropertiesOrder | src/Ast.js:102-107 | the kept properties keep the object's order |
| Ast.GetPropertiesExcept | src/Ast.js:98-107 | a property survives exactly when it is in the object and unnamed or not excluded |
| Ast.FirstNamed | src/Ast.js:90-92 | the index found holds the name and no earlier property does; none found means no property has it |
| Ast.NamedFilterHead | src/Ast.js:90-92 | filtering by one name starts with the first property of that name, and is empty when none has it |
| Ast.GetPropertyAtFirst | src/Ast.js:94-96 | `getProperty` is the value of the first property of that name, `undefined` without one |
| Ast.GetPropertyIsFirst | src/Ast.js:94-96 | a value found belongs to a property of that name with none before it; `undefined` means no property has the name |
| Ast.ToValue | src/Ast.js:113-127 | no node gives `undefined`, an array its elements, an object its properties, a string, boolean, `null` or number literal its `value`, any other node `undefined` |
| Ast.FunctionObject.constructor | src/Ast.js:18-22 | a function node object holds the given fields |
| Ast.FunctionObject.Copy | src/Ast.js:18-22 | `copy` gives a new object with the same field values and the same node; the parameter array is shared, not copied |
| Ast.FirstFromSpec | src/Ast.js:24-32 | the index found is the nearest passing element, and none is found only when no element passes |
| Ast.Up | src/Ast.js:24-32 | `up` returns the nearest ancestor (never the node itself) that passes the test, or none when no ancestor does |
| Registry.Chain | src/Codebase.js:107-114 | the chain starts with the codebase itself, followed by its parent's chain |
| Registry.ClassNameForAlias | src/Codebase.js:107-109 | a name found is never empty (JavaScript's `\|\|` skips empty entries) |
| Registry.ClassNameForAliasNearest | src/Codebase.js:107-109 | the lookup returns the entry of the nearest codebase on the chain that has the alias, and fails only when none has it |
| Registry.ClassForNameRegistered | src/Codebase.js:111-114 | a class found is registered under its own name in some codebase on the chain |
| Registry.ClassForNameLocal | src/Codebase.js:111-114 | a local class is found under its name unless the name is the alternate name of another class |
| Registry.ClassForNameNoParent | src/Codebase.js:111-114 | without a parent a class is found exactly when its canonical name is registered locally |
| Registry.ClassRe | src/Codebase.js:121-123 | the local patterns come first |
| Registry.ClassReMembers | src/Codebase.js:121-123 | `classRe` holds exactly the patterns of every codebase on the chain |
| Registry.ExportNames | src/Codebase.js:117 | the export names are exactly those of the registered classes |
| Registry.ClassNamesSpec | src/Codebase.js:116-119 | `classNames` is sorted, has no duplicates and holds exactly the export names of the local classes |
| Words.WordCompareAsWrittenInconsistent | src/Codebase.js:264-267 | as written, the comparator puts either of two same-length non-custom words before the other |
| Words.WordCompareAsWrittenExample | src/Codebase.js:264-267 | as written, `Change` and `Record` of the default list each come before the other |
| Words.WordLeTotalPreorder | src/Codebase.js:265-268 | the intended word order (shorter first, custom words last among equals) is a total preorder |
| Words.AddWordsSpec | src/Codebase.js:262-271 | the new list holds each word of either list once, shortest first, and no custom word precedes a non-custom word of the same length |
| Words.CamelPiecesConcat | src/Codebase.js:257 | the pieces of `split(/(?=[A-Z])/)` join back to the string |
| Words.CamelPiecesShape | src/Codebase.js:257 | every piece after the first starts with a capital, and no piece has a capital after its first character |
| Words.CamelPiecesHead | src/Codebase.js:257 | the first piece extends the one being built |
| Words.ClassWords | src/Codebase.js:255-260 | every word added from class names is longer than three characters |
| Words.PieceWordsCapitalised | src/Codebase.js:259 | every such word is a piece with only its first letter possibly upper case, equal to the piece up to case |
| Words.CapitalizeSameLetters | src/Codebase.js:259 | `_.capitalize` changes only the case of letters |
| Words.ReplaceWord | src/Codebase.js:274 | replacing a word keeps the length |
| Words.ReplaceWordSameLetters | src/Codebase.js:274 | replacing a word changes only the case of letters |
| Words.ReplaceWordsSameLetters | src/Codebase.js:274 | applying all words in turn changes only the case of letters |
| Words.ReplaceWordAtStart | src/Codebase.js:274 | a word at the start of the text gets its own capitals there |
| Words.CapitalizeSpec | src/Codebase.js:273-276 | `capitalize` fails exactly on the empty string; otherwise it keeps the length, changes only case and makes the first character upper case |
| Codebase.WithAll | src/Codebase.js:181-187 | after filing names under a value, exactly those names and the earlier keys are present, each name holding the value |
| Codebase.RegisterAllAliases | src/Codebase.js:180-187 | an alias denotes the last class that declares it; an alias no class declares keeps its earlier entry |
| Codebase.RegisterAllClasses | src/Codebase.js:189-193 | a class name denotes the last class of that name; other names keep their earlier entries |
| Codebase.RegisterAllDuplicateClass | src/Codebase.js:189-191 | "Duplicate class" is logged once for every registration of a name after its first |
| Codebase.RegisterAllKeys | src/Codebase.js:193 | the registered names are the earlier ones and those of the classes |
| Codebase.AllPatternsMembers | src/Codebase.js:195 | the class patterns of the classes are exactly those of each class |
| Codebase.RegisterAllPatterns | src/Codebase.js:195 | the pattern list grows by each class's patterns, in order |
| Codebase.Patterns | src/Codebase.js:195 | a class contributes its own name, then its alternate names, each pointing at the class |
| Codebase.RegisterAllValid | src/Codebase.js:177-196 | registration keeps every class filed under its own name and the order listing each name once |
| Codebase.AliasesResolveLocally | src/Codebase.js:180-187 | after registration each alias of a class resolves locally to the last class declaring it, whatever the parent says |
| Codebase.Codebase.constructor | src/Codebase.js:94-105 | a new codebase has empty tables, the built-in and custom words and, below a parent, the words of the class names the parent's aliases denote |
| Codebase.Codebase.AddWordsList | src/Codebase.js:262-271 | `_addWords` replaces the word list with `AddWords` of the old one and changes nothing else |
| Codebase.Codebase.AddWordsFromClassNames | src/Codebase.js:255-260 | adds the class-name words and changes nothing else |
| Codebase.Codebase.LogProperty | src/Codebase.js:166-169 | one more use of the name, counting from zero; nothing else changes |
| Codebase.Bump | src/Codebase.js:166-169 | the count of the name goes up by one (from zero when absent); other counts stay |
| Codebase.Codebase.AddAliases | src/Codebase.js:181-187 | files the aliases of one class and returns the ones that were already taken |
| Codebase.Codebase.AddAlternates | src/Codebase.js:194 | files the alternate names of one class |
| Codebase.Codebase.RegisterClass | src/Codebase.js:180-196 | one iteration of the registration loop |
| Codebase.Codebase.RegisterClasses | src/Codebase.js:180-196 | the loop registers the classes in order, as `RegisterAll` |
| Codebase.Codebase.InitAll | src/Codebase.js:201-203 | classes are initialised, then files, in order |
| Codebase.Codebase.AddSourceFiles | src/Codebase.js:177-204 | registers every class, adds the words of their names, sets the registration flag and only then initialises the classes and the files; every initialisation sees the flag set |
| Codebase.Codebase.Capitalize | src/Codebase.js:273-276 | fails exactly on the empty string; otherwise keeps the length and changes only case |
| Codebase.NormaliseCallSpec | src/Codebase.js:131-137 | a normalised call keeps its object only for `Ext` and `Math`, and is otherwise `.` and the method name |
| Codebase.Count | src/Codebase.js:139-140 | a count is zero exactly when the name is absent |
| Codebase.Tally | src/Codebase.js:139-143 | one entry per distinct name, in order of first use, with its number of uses |
| Codebase.TallyTotal | src/Codebase.js:130-141 | the counts add up to the number of calls |
| Codebase.MoreCallsTotalPreorder | src/Codebase.js:143 | larger counts first is a total preorder |
| Codebase.MethodCallsSpec | src/Codebase.js:125-144 | every call is counted once, each normalised name is listed with its number of calls, and larger counts come first |
| Codebase.MethodCallsDistinct | src/Codebase.js:143 | no normalised name is listed twice |
| Codebase.Codebase.MethodCalls | src/Codebase.js:125-144 | the counting loop and the sort compute `MethodCallsOf` |
| Codebase.PrepareTarget | src/Codebase.js:231-245 | the target is refused exactly when it is a directory not stamped by extjs2react (no stamp, an unreadable one or another generator's); otherwise it is stamped |
| Codebase.PrepareTargetAgain | src/Codebase.js:231-245 | a directory the generator prepared is accepted again |
| ExtClass.AliasPrefix | src/ExtJSClass.js:527-531 | `xtype` implies `widget.`, `viewModel` implies `viewmodel.`, `controller` implies `controller.`, any other config no prefix |
| ExtClass.Aliases | src/ExtJSClass.js:533-563 | every alias a node names carries the config's prefix |
| ExtClass.HandleAliasNodeAppends | src/ExtJSClass.js:533-563 | the accumulating `handleNode` appends exactly the aliases the node names: a string one, `null` none, an array (for `xtype`, `alias`) its elements', an object (for `controller`, `viewModel`) its `type`'s, a ternary its consequent's then its alternate's |
| ExtClass.HandleAliasNodesAppends | src/ExtJSClass.js:547-549 | the `reduce` over an array appends the aliases of each element in order |
| ExtClass.AliasesFromNodeSpec | src/ExtJSClass.js:526-566 | `_getAliasesFromNode` returns only prefixed aliases, looks into arrays only for `xtype` and `alias`, and into objects only for `controller` and `viewModel`, through their `type` |
| ExtClass.ClassAliases | src/ExtJSClass.js:198-211 | `classAliases` has no duplicates |
| ExtClass.ClassAliasesSpec | src/ExtJSClass.js:198-211 | an alias is in `classAliases` exactly when the `xtype` member or the `alias` member names it |
| ExtClass.RefName | src/ExtJSClass.js:510-520 | a leaf reference found is non-empty and names a class the registry resolves, or one that `<aliasType>.<text>` maps to |
| ExtClass.ClassRefsResolve | src/ExtJSClass.js:497-524 | every reference `_parseClassReferenceNode` returns is non-empty and resolves, directly or through an alias of the given type; without an alias type it resolves directly |
| ExtClass.ClassRefsOfString | src/ExtJSClass.js:510-517 | a string naming a registered class is that one reference |
| ExtClass.ClassRefsOfStrings | src/ExtJSClass.js:506-508 | an array of strings naming registered classes gives those names, in order |
| ExtClass.ParentClassNameResolves | src/ExtJSClass.js:118-126 | a parent class name read from `extend` is non-empty and names a class the registry resolves |
| ExtClass.ParentClass | src/ExtJSClass.js:132-144 | `parentClass` never needs more than one lookup |
| ExtClass.ParentClassGuard | src/ExtJSClass.js:132-144 | `parentClass` raises exactly when the codebase has not registered all classes; otherwise a parent name gives a parent class |
| ExtClass.Ancestors | src/ExtJSClass.js:146-154 | the loop follows `parentClass` until there is none, as `AncestorsOf` |
| ExtClass.AncestorsStop | src/ExtJSClass.js:146-154 | where the walk stops, the parent lookup there decides the end: none ends the chain, the error propagates |
| ExtClass.AncestorsLinked | src/ExtJSClass.js:146-154 | the first ancestor is the class's parent, each next one the parent of the one before, and the last has no parent; the list is empty exactly when the class has no parent |
| ExtClass.AncestorsFuel | src/ExtJSClass.js:146-154 | more lookups never change a chain that was found |
| ExtClass.AncestorsGuard | src/ExtJSClass.js:132-154 | reading the ancestors before registration is finished raises the error |
| ExtClass.PropertyNames | src/ExtJSClass.js:492 | the names are exactly those of the named properties |
| ExtClass.LocalOfSpec | src/ExtJSClass.js:484-495 | each kind of local config is sorted and holds exactly the declared names of that kind that are not inherited |
| ExtClass.LocalConfigsNotInherited | src/ExtJSClass.js:484-495 | no local config is inherited, and each is declared under `config`, `cachedConfig` or `eventedConfig` |
| ExtClass.Lookups | src/ExtJSClass.js:277-287 | every class kept is what the registry finds for one of the names, and every name the registry resolves contributes its class |
| ExtClass.LookupsConcat | src/ExtJSClass.js:277-287 | the lookups of a list are those of its parts in order, one name giving its class or nothing: `_.compact` of the mapped names |
| ExtClass.LookupsRegistered | src/ExtJSClass.js:277-287 | a mixin or plugin class found is registered under its own name in a codebase of the chain |
| ExtClass.CollectConfigsSpec | src/ExtJSClass.js:277-287 | the inherited configs are exactly the configs of the related classes, each of which is fully resolved |
| ExtClass.AllConfigsSpec | src/ExtJSClass.js:261-267 | a class's configs are its local configs, none of them inherited, followed by the inherited ones |
| ExtClass.InheritedConfigsGuard | src/ExtJSClass.js:132-136 | reading inherited configs before registration is finished raises the error |
| ExtClass.RelatedRegistered | src/ExtJSClass.js:277-287 | the related classes (parent, mixins, plugins) are all registered in codebases of the chain |
| ExtClass.StripSemicolon | src/ExtJSClass.js:832 | one trailing `;` is removed and nothing else changes |
| ExtClass.MakeAccessorShape | src/ExtJSClass.js:830-893 | a plain field, with equal internal and external names, exactly when there is no hook and no event; otherwise the value lives in `_<name>` and the getter initialises it first exactly when there is a hook |
| ExtClass.MakeAccessorOrder | src/ExtJSClass.js:852-879 | the setter's steps come in the order apply, update, dispatch, mark, with the assignment last and each kind at most once |
| ExtClass.MakeAccessorSteps | src/ExtJSClass.js:852-874 | each step is present exactly when its trigger is: apply with an apply hook, update (guarded when there is also an apply) with an update hook, the `<name>change` event when evented, the initialised mark with either hook |
| ExtClass.Hook | src/ExtJSClass.js:834-860 | no member gives no hook; a member that is not a method makes the source throw |
| ExtClass.AccessorOfSpec | src/ExtJSClass.js:830-893 | the source throws for an empty config name, and for a hook member that is not a method when the config is not a plain field; otherwise the accessor is named after the config, has the printed default without a trailing `;`, and is a plain field exactly when it has no hook and no event |
| ExtClass.AccessorOfHooks | src/ExtJSClass.js:852-870 | the setter applies the printed `apply<Name>` method and calls the printed `update<Name>` method when the class has them, and dispatches `<name>change` when evented |
| ExtClass.ExtJSClass.GetAccessorsFromConfig | src/ExtJSClass.js:830-893 | returns the accessor; with methods, marks the hooks used deleted and flags the class evented when the config is; otherwise changes nothing |
| ExtClass.ScanFrom | src/ExtJSClass.js:1253 | the scan finds a match of `<[^>]+>\|,\|\.\|\?` at or after the position exactly when there is one |
| ExtClass.ShouldExtractJSXValueSpec | src/ExtJSClass.js:1252-1267 | a value is extracted exactly when one of its string literals holds a tag, a comma, a dot or a question mark |
| ExtClass.ReplaceQuotes | src/ExtJSClass.js:1431 | no quote of either kind is left |
| ExtClass.InlineInterpolationNoQuotes | src/ExtJSClass.js:1434-1448 | inline code `{[ ... ]}` is rewritten without quotes unless the helper's name has one |
| ExtClass.MatchFnCall | src/ExtJSClass.js:1467 | the pattern fails exactly on a text made only of `(` |
| ExtClass.MatchFnCallName | src/ExtJSClass.js:1467 | the function name is the first run of characters other than `(` |
| ExtClass.MatchFnCallArgs | src/ExtJSClass.js:1467 | the extra arguments run from the `(` after the name to the last `)` on that line, at least one character |
| ExtClass.FieldWithoutFunction | src/ExtJSClass.js:1457-1465 | a field without a function reads `{data}` for `.` and `{data.<field>}` otherwise |
| ExtClass.FormattedTarget | src/ExtJSClass.js:1466-1471 | a formatted field calls the helper's method for `this.<fn>` and `Ext.util.Format.<fn>` otherwise, with the field first |
| ExtClass.SpliceAt | src/ExtJSClass.js:1434-1475 | a global `replace` puts each replacement where its match stood, moved by how much longer the replacements before it are |
| ExtClass.InlineAt | src/ExtJSClass.js:1427 | an inline match is `{[`, at least one character without a line break, up to the first `]}`, which is not consumed |
| ExtClass.InlineHits | src/ExtJSClass.js:1434 | the inline matches lie in the template in order without overlapping, each a match of the inline pattern |
| ExtClass.FieldAt | src/ExtJSClass.js:1428 | a field match is `{`, at least one character other than `}`, then the first `}`; none where that shape is missing |
| ExtClass.FieldHits | src/ExtJSClass.js:1451 | the field matches lie in the text in order without overlapping, each a match of the field pattern |
| ExtClass.InlineOffsets | src/ExtJSClass.js:1442-1445 | the `offsetOffset` loop pushes each match's offset moved by the replacements before it, and the end of its code |
| ExtClass.InlineRangesHoldCode | src/ExtJSClass.js:1442-1445 | each entry of `inlineOffsets` spans exactly its rewritten code in the text the inline replace gives |
| ExtClass.FieldResultAt | src/ExtJSClass.js:1451-1472 | a field match starting inside inline code is kept as it was, any other is rewritten as a field |
| ExtClass.Collect | src/ExtJSClass.js:1451-1472 | the field replace fails exactly when one match's rewrite does, otherwise gives one replacement per match |
| ExtClass.KeyedNameInjective | src/ExtJSClass.js:1270 | different instance numbers give different keys |
| ExtClass.KeyedNamesCount | src/ExtJSClass.js:1269-1278 | the first `n` keys are all different |
| ExtClass.TakenBound | src/ExtJSClass.js:1269-1278 | a table cannot hold more keys of one name than it has keys, so the search for a free key ends |
| ExtClass.ExtJSClass.ExtractProp | src/ExtJSClass.js:1269-1278 | files the value under the first free key among `name`, `name2`, `name3`, ... and returns it; earlier keys were taken and nothing else is filed |
| ExtClass.ListenerAttrNameSpec | src/ExtJSClass.js:1241 | the attribute is `onTap` for `handler` and `on` followed by the capitalised event name otherwise; it fails only on an empty name |
| ExtClass.ExtJSClass.PropFromListener | src/ExtJSClass.js:1234-1250 | no prop for `element` and `scope`; an error for an unnamed listener; otherwise the attribute with the value, where a string handler is recorded as a listener and referred to by name |
| ExtClass.Truthy | src/ExtJSClass.js:69-70 | `x \|\| undefined`: present exactly when non-empty |
| ExtClass.SnapshotRoundTrip | src/ExtJSClass.js:44-81 | restoring a snapshot gives back the class when its parent and override names are not empty |
| ExtClass.SnapshotNormalises | src/ExtJSClass.js:44-81 | an empty parent or override name is restored as absent; every other member is restored as it was |
| ExtClass.SnapshotStable | src/ExtJSClass.js:44-81 | a snapshot of a restored snapshot is the same snapshot |
| ExtClass.ExtJSClass.constructor | src/ExtJSClass.js:83-88 | a new class has its names and no assimilating class, extracted props or listeners |
| ExtClass.ExtJSClass.SetAssimilatingClass | src/ExtJSClass.js:98-112 | the new class always wins and the class is then discarded; an error is logged exactly when it replaces a different class |
| SourceFile.UpperFirsts | src/SourceFile.js:435 | fails exactly when some part is empty (it has no first letter); otherwise the result is each part with its first letter upper-cased and the rest kept, concatenated in order |
| SourceFile.PlainExportNameSpec | src/SourceFile.js:434-436 | a class `root.p1.….pn` without aliases is exported as `Pn…P1`: root dropped, segments reversed, each first letter upper-cased |
| SourceFile.PlainExportNameFails | src/SourceFile.js:434-436 | the export name fails exactly when a segment after the root is empty |
| SourceFile.PlainExportNameExample | src/SourceFile.js:434-436 | `MyApp.view.List` is exported as `ListView` |
| SourceFile.PlainExportNameRootOnly | src/SourceFile.js:434-436 | a class name without a dot is all root, and its export name is empty |
| SourceFile.AfterLastDash | src/SourceFile.js:440 | the rest of the alias after its last `-` holds no `-`, and a name without `-` is kept |
| SourceFile.AliasExportNameSpec | src/SourceFile.js:438-444 | an aliased class is exported as its capitalised alias name (after the last dash) plus the capitalised namespace, `Model` for the model key and nothing for `Widget`; an empty name fails |
| SourceFile.ExportNamePlainSpec | src/SourceFile.js:433-436 | a class `root.p1.….pn` without an alias is exported as `pn`…`p1`, each with its initial upper-cased and the rest kept; it fails exactly when a segment after the root is empty |
| SourceFile.ExportNameAliasSpec | src/SourceFile.js:433-445 | a class whose first alias is `ns1.….nsk.name` is exported as the capitalised part of `name` after its last dash (with the codebase's word capitals) plus the capitalised namespace, `Model` for `viewmodel` (the intended lookup) and nothing for `widget`; later aliases play no part |
| SourceFile.AliasDashes | src/SourceFile.js:440 | only the part of the alias name after its last dash counts |
| SourceFile.NamespaceNeverLowerKey | src/SourceFile.js:439-442 | a capitalised namespace is never the lower-case key `viewmodel` |
| SourceFile.ViewModelAliasAsWritten | src/SourceFile.js:439-442 | as written, a `viewmodel.<name>` alias is exported with the suffix `Viewmodel` |
| SourceFile.ViewModelAlias | src/SourceFile.js:438-444 | with the lookup keyed on the capitalised namespace, a `viewmodel.<name>` alias is exported with the suffix `Model` |
| SourceFile.WidgetAlias | src/SourceFile.js:438-444 | a `widget.<name>` alias is exported without a suffix |
| SourceFile.IndexOf | src/SourceFile.js:426 | the position of a class in its group: the first place it occurs |
| SourceFile.ExportNamesOf | src/SourceFile.js:424 | the export names of the file's undiscarded classes, in order |
| SourceFile.Group | src/SourceFile.js:421 | a group of `_.groupBy` holds exactly the used classes with that export name |
| SourceFile.ImportNamesSpec | src/SourceFile.js:415-431 | every used class is stored under its class name with its import name, and every other key of the table is untouched |
| SourceFile.ImportNameBare | src/SourceFile.js:426-428 | a class keeps its bare export name exactly when it is alone in its group and no class of the file is exported under that name; otherwise it gets its position plus one |
| SourceFile.ImportNamesDistinct | src/SourceFile.js:421-430 | two used classes with the same export name get different import names |
| SourceFile.UniqUniqueNames | src/SourceFile.js:416-419 | `_.uniq` of the used classes names each class once |
| SourceFile.AssignGroup | src/SourceFile.js:426-428 | the inner loop of `init` stores each class of a group under its class name with its numbered or bare name |
| SourceFile.AssignImportNames | src/SourceFile.js:423-430 | the outer loop of `init` stores, group by group, the import name of every used class |
| SourceFile.SourceFile.Init | src/SourceFile.js:415-431 | `init` sets the import names of the distinct used classes and changes nothing else |
| SourceFile.Matched | src/SourceFile.js:135-137 | the classes whose name pattern occurs in the text, exactly |
| SourceFile.ClassNamesUsed | src/SourceFile.js:132-140 | the used class names are exactly the matched ones not defined in the file itself, each once |
| SourceFile.ClassNamesUsedChain | src/SourceFile.js:132-140 | searched with `classRe`, a name is used exactly when the pattern of a class of the codebase or of one it falls back to occurs, and the class is not the file's own |
| SourceFile.AliasTargets | src/SourceFile.js:71-74 | the class names the used aliases resolve to, exactly |
| SourceFile.UnresolvedAliases | src/SourceFile.js:71-74 | the used aliases that resolve to no class, exactly |
| SourceFile.Found | src/SourceFile.js:76-79 | the classes the used names resolve to, exactly |
| SourceFile.Unresolved | src/SourceFile.js:76-79 | the used names that resolve to no class, exactly |
| SourceFile.UsedAccounted | src/SourceFile.js:65-85 | every used alias and class name is either recorded as unknown or its class is among the classes used |
| SourceFile.ResolveAliases | src/SourceFile.js:71-74 | the alias loop appends the resolved class names and collects the unknown aliases |
| SourceFile.ResolveNames | src/SourceFile.js:76-79 | the class-name loop collects the resolved classes and the unknown class names |
| SourceFile.SourceFile.ClassesUsed | src/SourceFile.js:65-85 | the first call computes the distinct used classes and appends the unknown aliases and class names; later calls return the memoised result and change nothing |
| SourceFile.UnparsedCodeSpec | src/SourceFile.js:200-214 | the unparsed code is empty exactly when every class is unparsed or the printed file is blank; it is wrapped in `try{(` … `} catch(e){}` exactly when it defines a class |
| SourceFile.UndiscardedOf | src/SourceFile.js:61-63 | the undiscarded classes are exactly the classes that are not discarded |
| SourceFile.SourceFile.DiscardSpec | src/SourceFile.js:116-118 | a file is discarded exactly when every one of its classes is |
| SourceFile.SourceFile.ImportNameFor | src/SourceFile.js:402-404 | the import name stored for a class name, absent when none is stored |
| SourceFile.SourceFile.constructor | src/SourceFile.js:46-55 | a new file has its path and classes, no import names, no unknown names and no memoised classes |
| SourceFile.RenameConfigCall | src/SourceFile.js:333-357 | only a call of a member expression is rewritten, by the rule on its printed callee and arguments |
| SourceFile.RenameRuleReplaces | src/SourceFile.js:336-357 | a call is rewritten exactly when its method is `get<Config>` with no argument or `set<Config>` with one, for a known accessor |
| SourceFile.ConfigNameOfAccessor | src/SourceFile.js:340 | the config name read back from `get`/`set` plus the upper-cased config is the config |
| SourceFile.GetterBecomesProperty | src/SourceFile.js:350-352 | `obj.getFoo()` becomes `obj.foo` for a known accessor `foo` |
| SourceFile.SetterBecomesAssignment | src/SourceFile.js:354-356 | `obj.setFoo(v)` becomes `obj.foo = v` for a known accessor `foo` |
| SourceFile.LibEntrySpec | src/SourceFile.js:273-280 | a library is imported exactly when its default or one of its specifiers is required, with exactly the required specifiers |
| SourceFile.Put | src/SourceFile.js:278 | storing an entry keeps the import table well formed and changes only that source |
| SourceFile.AddLibs | src/SourceFile.js:273-280 | the library imports form a well-formed table |
| SourceFile.AddLibsEntry | src/SourceFile.js:273-280 | with distinct sources, each library is in the table exactly when its entry exists, and with that entry |
| SourceFile.LibImportsDistinct | src/SourceFile.js:258-263 | the four library sources are distinct |
| SourceFile.CollectLibs | src/SourceFile.js:273-280 | the library loop builds the library imports |
| SourceFile.RemoveSuffix | src/SourceFile.js:283 | a present suffix is removed and nothing else changes |
| SourceFile.ImportSource | src/SourceFile.js:283-289 | the import source fails exactly when the relative path does; a source ending in `/framework` becomes `framework` |
| SourceFile.AddFile | src/SourceFile.js:291-302 | importing one file keeps the table well formed |
| SourceFile.SingleClassFileDefault | src/SourceFile.js:295-297 | a file with at most one undiscarded class is imported by default, under the least of its import names |
| SourceFile.MultiClassFileAppends | src/SourceFile.js:300-302 | a file with several undiscarded classes appends its sorted names to the named specifiers of its source, keeping its default; it fails exactly when the source has a default-only import |
| SourceFile.AddFiles | src/SourceFile.js:282-303 | the file imports, after the libraries, keep the table well formed |
| SourceFile.AddFilesNone | src/SourceFile.js:282-303 | once a file fails, the whole collection fails |
| SourceFile.CollectFiles | src/SourceFile.js:282-303 | the file loop builds the file imports |
| SourceFile.ImportRank | src/SourceFile.js:305-306 | the rank of a source: `app`, `react`, `lodash`, `framework`, then the others |
| SourceFile.ImportLeTotalPreorder | src/SourceFile.js:307-312 | the import order is total and transitive |
| SourceFile.SortedSourcesSpec | src/SourceFile.js:305-312 | every collected source is printed once, by rank and then in code-point order |
| SourceFile.ImportLineSpec | src/SourceFile.js:314-321 | an import line names the default, then the braced specifiers, leaving out what is absent or empty |
| SourceFile.ImportLines | src/SourceFile.js:314-321 | one import line per source, in order |
| SourceFile.SourceFile.ImportsCode | src/SourceFile.js:257-322 | `getImportsCode` gives the sorted import lines of the library and file imports |
| Hooks.RunLength | src/Hooks.js:82 | the longest run of `[A-Z0-9_]` characters at the start of a name |
| Hooks.MatchSound | src/Hooks.js:80-86 | what a key's regular expression captures fits the key: literal characters equal up to case, each `*` one non-empty word-character run |
| Hooks.MatchComplete | src/Hooks.js:80-86 | the regular expression matches every name that fits the key |
| Hooks.MatchIff | src/Hooks.js:80-86 | a key matches a name exactly when the name fits the key |
| Hooks.MatchLiteral | src/Hooks.js:80-86 | a key without `*` matches exactly the names equal to it up to ASCII case |
| Hooks.WithAliasSpec | src/Hooks.js:88-93 | `Ext.bind` and `Ext.encode` are renamed, every other name is kept, and aliasing twice is aliasing once |
| Hooks.WithAliasAsWritten | src/Hooks.js:93 | as written, the lookup fails exactly on the keys of `Object.prototype`, and is `WithAlias` otherwise |
| Hooks.ToStringCallRaises | src/Hooks.js:291-307 | as written, a call named `toString` makes the rewriting raise |
| Hooks.ParseTransforms | src/Hooks.js:80-86 | one rule per key, in key order, with its production and library; a bare production needs no library |
| Hooks.FindRule | src/Hooks.js:307 | the first rule whose key matches the name, and none when no key matches |
| Hooks.CallRulesNeedNoLibrary | src/Hooks.js:122-192 | no call rule names a library |
| Hooks.SwapParams | src/Hooks.js:206-215 | the function with its first two parameters exchanged and all else kept; fails on anything but a function with two parameters |
| Hooks.SwapParamsInPlace | src/Hooks.js:206-215 | the shallow copy's parameter array is the original's, so both functions end with the parameters swapped |
| Hooks.SwapParamsTwice | src/Hooks.js:206-215 | swapping twice gives the function back |
| Hooks.BindSpec | src/Hooks.js:137-146 | `Ext.Function.bind` declines exactly when it has `args` without an `appendArgs` printing `0`; the scope defaults to `window` |
| Hooks.ArrayEachSpec | src/Hooks.js:125-131 | `Ext.Array.each` declines exactly when given a scope or `reverse`; otherwise it becomes `.forEach` |
| Hooks.ObjectEachSpec | src/Hooks.js:150-156 | `Ext.Object.each` declines exactly when given a scope; otherwise it becomes `_.forEach` with the callback's first two parameters swapped, and raises when the callback has fewer than two |
| Hooks.DeferSpec | src/Hooks.js:165-175 | `Ext.defer` declines exactly when its delegated bind declines; otherwise it becomes `setTimeout(fn, millis)` |
| Hooks.OtherProductionsProduce | src/Hooks.js:122-190 | every other production always gives code |
| Hooks.MemberAction | src/Hooks.js:326-337 | a member expression is rewritten exactly when a variable rule matches its aliased name, by the first such rule, with that rule's library |
| Hooks.FirstVarRule | src/Hooks.js:98 | the first variable rule is `*.app.*`, which needs `App` |
| Hooks.AppMemberRewrite | src/Hooks.js:326-337 | `<app>.app.<method>` becomes `App.<method>` and needs `App` |
| Hooks.CallKeysStartWithE | src/Hooks.js:122-190 | every call key starts with `E` |
| Hooks.PrunedCallsMatchNoRule | src/Hooks.js:293-307 | a pruned call matches no call rule, so the visitor's lookup after pruning does nothing |
| Hooks.DeclinedCallIsKept | src/Hooks.js:310-319 | a call whose production declines is kept and records no library |
| Hooks.AddLibrary | src/Hooks.js:315-317 | a library is added once, only when named |
| Hooks.AddLibrarySpec | src/Hooks.js:315-317 | adding keeps what was there and the list free of duplicates, and adds exactly the library named |
| Hooks.CallActionSpec | src/Hooks.js:289-316 | a pruned call is pruned, an unmatched one kept, a matched one raises, is kept or is replaced as its production says; names looked up with the intended alias lookup |
| Hooks.CallActionNeedsNoLibrary | src/Hooks.js:309-319 | under rules that name no library, no call action records one |
| Hooks.CallPassStopsAtRaise | src/Hooks.js:289-323 | once a production raises, the whole pass raises |
| Hooks.CallPassSpec | src/Hooks.js:289-323 | the call visitor acts on each call as its step says and records no library when no step names one |
| Hooks.VisitCalls | src/Hooks.js:289-323 | the call visitor loop computes the call pass |
| Hooks.MemberPassReplaces | src/Hooks.js:325-341 | the member visitor replaces each expression as its rule says |
| Hooks.MemberPassLibraries | src/Hooks.js:325-341 | the member visitor collects exactly the libraries of the rules that fired, each once |
| Hooks.VisitMembers | src/Hooks.js:325-341 | the member visitor loop computes the member pass |
| Hooks.AfterTranspile | src/Hooks.js:75-344 | `afterTranspile` runs the call visitor, then the member visitor |
| Hooks.RewritingLibraries | src/Hooks.js:75-344 | the libraries returned are exactly those of the variable rules that fired, each once, when no call rule names one |
| Hooks.ObjectEachLibraryAsWritten | src/Hooks.js:150-156 | as written, a replaced `Ext.Object.each` call gives `_.forEach(` code and records no library |
| Hooks.IntendedRulesNameLodash | src/Hooks.js:122-192 | in the intended call table a rule names `_` exactly when its code calls lodash |
| Hooks.ObjectEachLibrary | src/Hooks.js:150-156 | with the intended table the same call records the `_` library |
| Hooks.ReplacedCallLibraryIntended | src/Hooks.js:309-319 | with the intended table every replaced call records `_` exactly when its production calls lodash |
| HookPasses.ToLetStmt | src/Hooks.js:231-238 | a `var` declaration directly in a function body becomes `let`; every other statement keeps its kind |
| HookPasses.ToLetSpec | src/Hooks.js:229-243 | afterwards no function body has a `var` at its top level, and a tree without one is left as it is |
| HookPasses.ToArrowSpec | src/Hooks.js:11-46 | the pass keeps whether a tree uses `this` or `arguments`; afterwards every non-arrow function uses one, and a second pass changes nothing |
| HookPasses.FunctionUsingThisStays | src/Hooks.js:21-41 | a function that mentions `this` stays a `function` |
| HookPasses.ToShorthandStmt | src/Hooks.js:57-64 | statements keep their kind, and a `return` keeps whether it has an argument |
| HookPasses.ToShorthandSpec | src/Hooks.js:48-69 | afterwards no arrow function's body only returns a value, and a tree without one is left as it is |
| HookPasses.ReturningFunctionBecomesShorthand | src/Hooks.js:11-69 | `function () { return e }` without `this` or `arguments` ends as `() => e` |
| Framework.FirstWidgetAlias | src/Framework.js:37 | the index of the first alias starting with `widget.` |
| Framework.Xtype | src/Framework.js:37 | empty when no alias starts with `widget.`, otherwise `widget.` followed by the result is the first alias that does |
| Framework.ExportOfSpec | src/Framework.js:36-41 | a class is a widget exactly when its first `widget.` alias has more after the prefix; its value is `r('<xtype>')`, and `w.<className>` otherwise |
| Framework.ExportsOf | src/Framework.js:36-41 | one export per class, in order |
| Framework.NameLeTotalPreorder | src/Framework.js:42 | the name order is total and transitive |
| Framework.ExportsSpec | src/Framework.js:34-42 | the exports are those of the classes that are not overrides, each once per class, sorted by name |
| Framework.LongestName | src/Framework.js:45 | the length of the longest name, zero for no names |
| Framework.ExportCode | src/Framework.js:44-47 | one `export const` line per export, its name padded to the longest |
| Framework.ExportCodeAligned | src/Framework.js:44-47 | every padded name in a group has the group's longest length and starts with the name |
| Framework.LayoutSpec | src/Framework.js:49-60 | the header, the widget lines, a blank line, then the other lines |
| Framework.ManifestSpec | src/Framework.js:49-60 | the manifest lists the widgets first and then the other classes, each group sorted by name |
| Framework.LongestClassName | src/Framework.js:66 | the length of the longest class name: no class name is longer and one has that length; zero for no classes |
| Framework.IndexLines | src/Framework.js:65-73 | one index line per class |
| Framework.UsageLeTotalPreorder | src/Framework.js:69 | the usage order is total and transitive |
| Framework.IndexLinesSpec | src/Framework.js:65-73 | the index lists a permutation of the classes in ascending usage, each with its usage comment |

## Left out

- File input and output, `async` and the snapshot save/load flow (`readFile`, `writeFile`, `getFilesRecursively`, `getConfig`, `asyncForEach`, `asyncMap`, source loading, `transpile`, `_saveSourceFile`): they are effects, not logic. `_prepareTargetDirectory` is modelled as its decision only.
- Parsing and printing (recast, ast-types), formatting (prettier), HTML templates (parse5) and lodash: printing is a function parameter `printer`, parsing a parameter `parse`, and the lodash helpers the core needs (`uniq`, `difference`, `intersection`, `flatten`, `capitalize`, `groupBy`) are written out in `Seqs`, `Text` and `SourceFile`.
- Regular-expression scans (`re.test(source)` for `classRe`, the `exec` loop of `_getMatches`): whether a pattern occurs is a function parameter, and the matches it finds are an input.
- Regular-expression substitution on text: `replaceClassNames`, `fileSearchRegExps`, `_scopeTplVariables` and `Ast.removeVariable` are not part of this model; the word substitution of `capitalize` is modelled as a case-insensitive literal search.
- Code layout text (`getES6Class`, `getRenderFn`, `getReactifiedClass`, padding and indentation outside the framework manifest and index file, `beforeSave`, `formatJSX`): string building with no decisions in it.
- `needsMeReferences` and `removeMeTraversal` (src/Hooks.js:246-282) rely on `Ast.removeVariable`, which is not part of this model; the arrow pass is modelled on its own, and running it twice is the same as once (`HookPasses.ToArrowSpec`).
- `removeEmptyClasses` and `pruneAST` (src/SourceFile.js:364-387), which prune the parsed tree in place; `UnparsedCodeSpec` takes the printed tree as its input.
- `renameConfigCalls`' collection of accessors over the file's own and imported classes: the accessor list is an input of `SourceFile.RenameRule`.
- `getImportsCode`: each imported file is given by its import path, its number of undiscarded classes and the import names of its classes used (`FileImport`), not by the file object.
- `getImportNameForAlias`, `getExportNameForClassName` and `importFilePath` of src/SourceFile.js: thin lookups over what is modelled.
- The `evented` parameter of `getAccessorsFromConfig` is a plain parameter: no caller in the source passes `true`.
- src/experimental/ClassProxy.js, src/FrameworkClass.js and src/Component.js, and the entry points index.js, src/index.js and src/Transpiler.js are not part of this model.
- Cyclic parent or mixin chains make the source loop forever; the ancestor walk and the inherited-config walk take a `fuel` bound and report when it runs out.
- `localeCompare` is modelled as code-point order (`Text.LexLe`); locale-aware collation is not modelled, and neither is the UTF-16 code-unit order of the default `sort`, which differs from code-point order only between characters above U+FFFF and those from U+E000 to U+FFFF.
- Hooks.AfterTranspile: models the traversal as two lists (the calls in visiting order and the printed member expressions) rather than a tree walk that replaces nodes in place; a call that is pruned is not looked up further (`Hooks.PrunedCallsMatchNoRule` shows the lookup would find no rule).
- Hooks.CallPass: the `this.callParent` rule only prunes the call in a constructor of a class without a parent; src/Hooks.js has no rewrite of it to a `super` call.
- Registry and Codebase: on a duplicate alias or class name the later registration wins (src/Codebase.js:182-193); "Duplicate class" is only logged.
- SourceFile.ExportNameAliasSpec: follows the intended `viewmodel` lookup (`SourceFile.AliasExportName`); the source as written gives `…Viewmodel`, which `SourceFile.ViewModelAliasAsWritten` exhibits (see Findings).
- Hooks.CallAction: looks names up with the intended `Hooks.WithAlias`, so a call named after a member of `Object.prototype` (a bare `toString()`, say) does not raise here as it does in the source; `Hooks.WithAliasAsWritten` and `Hooks.ToStringCallRaises` model the raise (see Findings). `Hooks.AfterTranspile` inherits this.
- Case mapping (`toUpperCase`, `toLowerCase`, lodash's `capitalize` and `upperFirst`, the `i` flag) is modelled for ASCII letters only; other letters keep their case. `trim` removes the full JavaScript set of white space and line terminators.
- Registry.ClassNameForAlias, Registry.ClassForName and `_extractProp`'s key search: a JavaScript object lookup also finds the members of `Object.prototype` (`aliases['constructor']`, or `constructor` counting as an extracted prop already taken); the model looks up own keys only. Only the call-name lookup of src/Hooks.js models this.
- Function expressions carry no name and no generator flag (`Ast.Node.Func`), so the arrow pass treats a named function expression or a generator like an anonymous function.
- Framework.IndexLines: `classes.sort` also sorts the caller's array in place (src/Framework.js:69); the model returns the lines and leaves its input as it was.

## Findings

| source | as written | input that shows it | evidently intended | confidence | as-written member | corrected member |
|---|---|---|---|---|---|---|
| src/SourceFile.js:439-442 | the namespace is capitalised before it is looked up in `{ 'viewmodel': 'Model' }`, so the key never matches | a class with the alias `viewmodel.user` is exported as `UserViewmodel` | `UserModel`: the lookup keyed on the capitalised namespace | medium, not executed | SourceFile.ViewModelAliasAsWritten | SourceFile.ViewModelAlias |
| src/Codebase.js:264-267 | the comparator answers -1 for two same-length words that are not custom, in both directions, so `sort` gets an inconsistent comparator | `Change` and `Record` of the default word list | shorter words first, custom words last among words of the same length, as a consistent order | low, not executed | Words.WordCompareAsWrittenExample | Words.AddWordsSpec |
| src/Hooks.js:122-192, 315-317 | the call productions are bare functions, so no call rule has a `lib` and no rewritten call records a library, although `Ext.Object.each`, `Ext.applyIf` and `Ext.isNumeric` produce `_.` code | `Ext.Object.each(o, function(v, k){ … })` becomes `_.forEach(o, …)` and `_` is not added to the libraries | those three rules written `{ fn, lib: '_' }`, as the variable rules are | medium, not executed | Hooks.ObjectEachLibraryAsWritten | Hooks.ObjectEachLibrary |
| src/Hooks.js:93 | `aliases[variable]` also finds the members of `Object.prototype`, which are functions; the call lookup then calls `match` on a function and throws | a call of a function named `toString` | only the two own keys of the alias table are looked up | low, not executed | Hooks.ToStringCallRaises | Hooks.WithAliasSpec |
