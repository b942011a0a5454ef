/** A source file of the Ext JS application (src/Source.js): its text, whether the
    compiler may rewrite it, and the regular-expression scans over its text.
    A regular expression used with the global flag is modelled by its search
    function: from a start position it returns the next match, if any. */
module Source {

  import opened Wrappers
  import Text
  import Seqs
  import Ast

  /** One result of `regExp.exec(source)`: where the match lies and its first group. */
  datatype Match = Match(start: nat, end: nat, group: string)

  /** `regExp.exec` from `lastIndex`: the next match at or after a position. */
  type Finder = (string, nat) -> Option<Match>

  /** A search that only finds non-empty matches lying after the start position.
      Every pattern scanned here needs at least one character to match. */
  ghost predicate WellBehaved(find: Finder, s: string) {
    forall pos: nat :: pos <= |s| ==> match find(s, pos)
      case None => true
      case Some(m) => pos <= m.start < m.end <= |s|
  }

  /** All matches from `pos` on, each search starting where the previous match ended. */
  function Matches(find: Finder, s: string, pos: nat): seq<Match>
    requires WellBehaved(find, s)
    requires pos <= |s|
    decreases |s| - pos
  {
    match find(s, pos)
    case None => []
    case Some(m) => [m] + Matches(find, s, m.end)
  }

  /** The matches follow each other through the text without overlapping. */
  predicate Within(ms: seq<Match>, pos: nat, n: nat) {
    forall i :: 0 <= i < |ms| ==> pos <= ms[i].start < ms[i].end <= n
  }

  predicate Ordered(ms: seq<Match>) {
    forall i, j :: 0 <= i < j < |ms| ==> ms[i].end <= ms[j].start
  }

  lemma {:induction false} MatchesOrdered(find: Finder, s: string, pos: nat)
    requires WellBehaved(find, s)
    requires pos <= |s|
    ensures Within(Matches(find, s, pos), pos, |s|)
    ensures Ordered(Matches(find, s, pos))
    decreases |s| - pos
  {
    match find(s, pos)
    case None =>
    case Some(m) =>
      assert pos <= m.start < m.end <= |s|;
      MatchesOrdered(find, s, m.end);
      var ms := Matches(find, s, pos);
      var rest := Matches(find, s, m.end);
      assert ms == [m] + rest;
      forall i | 0 <= i < |ms| ensures pos <= ms[i].start < ms[i].end <= |s| {
        if i > 0 {
          assert ms[i] == rest[i - 1];
        }
      }
      forall i, j | 0 <= i < j < |ms| ensures ms[i].end <= ms[j].start {
        if i > 0 {
          assert ms[i] == rest[i - 1] && ms[j] == rest[j - 1];
        } else {
          assert ms[j] == rest[j - 1];
          assert rest[j - 1].start >= m.end;
        }
      }
  }

  /** The first groups of a list of matches, `matches.map(match => match[1])`. */
  function Groups(ms: seq<Match>): (r: seq<string>)
    ensures |r| == |ms|
    ensures forall i :: 0 <= i < |ms| ==> r[i] == ms[i].group
  {
    if ms == [] then [] else [ms[0].group] + Groups(ms[1..])
  }

  /** The groups of all matches of every class pattern, pattern by pattern. */
  function AllGroups(patterns: seq<Finder>, s: string): seq<string>
    requires forall k :: 0 <= k < |patterns| ==> WellBehaved(patterns[k], s)
  {
    if patterns == [] then []
    else AllGroups(patterns[..|patterns| - 1], s) + Groups(Matches(patterns[|patterns| - 1], s, 0))
  }

  /** `getClassesUsed`'s result from the names defined in the file and the names the
      class patterns found. */
  function ClassesUsed(internal: seq<string>, external: seq<string>): (r: seq<string>)
    ensures Seqs.NoDuplicates(r)
    ensures forall c :: c in r <==> c in external && c !in internal
  {
    Seqs.Uniq(Seqs.Filter(external, c => c !in internal))
  }

  /** The paths `addImports` adds: those not imported yet, in sorted order. */
  function NewImports(filePaths: seq<string>, oldImports: seq<string>): seq<string> {
    Seqs.Sort(Seqs.Difference(filePaths, oldImports), Seqs.StringLe())
  }

  /** One line per path, `import '<path>'` followed by a newline. */
  function ImportCode(paths: seq<string>): string {
    if paths == [] then "" else "import '" + paths[0] + "'\n" + ImportCode(paths[1..])
  }

  /** The source after `addImports`: unchanged when nothing is new, otherwise the new
      import lines, a blank line when the file had no imports, then the old text. */
  function ImportsAdded(source: string, filePaths: seq<string>, oldImports: seq<string>): string {
    var added := NewImports(filePaths, oldImports);
    if |added| == 0 then source
    else ImportCode(added) + (if |oldImports| > 0 then "" else "\n") + source
  }

  /** The paths added are exactly those not imported before, sorted, and the
      original text follows them unchanged. */
  lemma ImportsAddedSpec(source: string, filePaths: seq<string>, oldImports: seq<string>)
    ensures var added := NewImports(filePaths, oldImports);
      Seqs.SortedBy(added, Seqs.StringLe()) &&
      (forall p :: p in added <==> p in filePaths && p !in oldImports) &&
      (added == [] ==> ImportsAdded(source, filePaths, oldImports) == source) &&
      (added != [] ==>
        ImportsAdded(source, filePaths, oldImports) ==
        ImportCode(added) + (if oldImports == [] then "\n" else "") + source)
  {
    var diff := Seqs.Difference(filePaths, oldImports);
    Seqs.StringLeTotalPreorder();
    Seqs.SortSorted(diff, Seqs.StringLe());
    forall p ensures p in NewImports(filePaths, oldImports) <==> p in diff {
      Seqs.SortMembers(diff, Seqs.StringLe(), p);
    }
  }

  /** Nothing new to import leaves the source as it was. */
  lemma ImportsAddedNothingNew(source: string, filePaths: seq<string>, oldImports: seq<string>)
    requires forall p :: p in filePaths ==> p in oldImports
    ensures ImportsAdded(source, filePaths, oldImports) == source
  {
    Seqs.FilterNone(filePaths, p => p !in oldImports);
  }

  /** The import lines name the paths in order, one quoted path per line. */
  lemma {:induction false} ImportCodeLines(paths: seq<string>)
    requires forall k :: 0 <= k < |paths| ==> '\n' !in paths[k]
    ensures Text.Split(ImportCode(paths), '\n') ==
      Lines(paths) + [""]
    decreases |paths|
  {
    if paths == [] {
    } else {
      var line := "import '" + paths[0] + "'";
      assert '\n' !in line by {
        assert line == "import '" + paths[0] + "'";
        assert forall c :: c in line ==> c in "import '" || c in paths[0] || c in "'";
      }
      ImportCodeLines(paths[1..]);
      assert ImportCode(paths) == line + ['\n'] + ImportCode(paths[1..]);
      Text.SplitAround(line, '\n', ImportCode(paths[1..]));
      Text.SplitNoSeparator(line, '\n');
    }
  }

  /** `import '<path>'` for each path. */
  function Lines(paths: seq<string>): (r: seq<string>)
    ensures |r| == |paths|
    ensures forall k :: 0 <= k < |paths| ==> r[k] == "import '" + paths[k] + "'"
  {
    if paths == [] then [] else ["import '" + paths[0] + "'"] + Lines(paths[1..])
  }

  class Source {
    var filePath: string
    var source: string
    var parseable: bool
    var ast: Option<Ast.Node>

    /** A parseable source always has its syntax tree. */
    ghost predicate Valid()
      reads this
    {
      parseable ==> ast.Some?
    }

    /** `getClassNames`: the names given to `Ext.define` in the text. */
    function ClassNames(definePattern: Finder): seq<string>
      reads this
      requires WellBehaved(definePattern, source)
    {
      Groups(Matches(definePattern, source, 0))
    }

    /** `_isExtJS`: the text defines at least one class. */
    predicate IsExtJS(definePattern: Finder)
      reads this
      requires WellBehaved(definePattern, source)
    {
      |ClassNames(definePattern)| > 0
    }

    /** `toCode`: the reprinted tree when the file is parseable, otherwise the text. */
    function ToCode(printer: Ast.Node -> string): (r: string)
      reads this
      requires Valid()
      ensures !parseable ==> r == source
      ensures parseable ==> r == printer(ast.value)
    {
      if parseable then printer(ast.value) else source
    }

    /** The file may be rewritten only when it defines a class and printing its parsed
        tree reproduces its text exactly; either way, `toCode` gives back the text. */
    constructor (filePath: string, source: string, definePattern: Finder,
                 parse: string -> Ast.Node, printer: Ast.Node -> string)
      requires WellBehaved(definePattern, source)
      ensures this.filePath == filePath && this.source == source
      ensures Valid()
      ensures parseable <==> |Groups(Matches(definePattern, source, 0))| > 0 && printer(parse(source)) == source
      ensures ToCode(printer) == source
    {
      this.filePath := filePath;
      this.source := source;
      var defined := |Groups(Matches(definePattern, source, 0))| > 0;
      var tree: Option<Ast.Node> := None;
      var ok := defined;
      if ok {
        tree := Some(parse(source));
        ok := printer(tree.value) == source;
      }
      this.parseable := ok;
      this.ast := tree;
    }

    /** `_getMatches`: every match of the pattern, in the order they occur. */
    method GetMatches(find: Finder) returns (matches: seq<Match>)
      requires WellBehaved(find, source)
      ensures matches == Matches(find, source, 0)
      ensures Within(matches, 0, |source|) && Ordered(matches)
    {
      MatchesOrdered(find, source, 0);
      matches := [];
      var lastIndex := 0;
      var next := find(source, lastIndex);
      while next.Some?
        invariant lastIndex <= |source|
        invariant next == find(source, lastIndex)
        invariant matches + Matches(find, source, lastIndex) == Matches(find, source, 0)
        decreases |source| - lastIndex
      {
        var m := next.value;
        assert Matches(find, source, lastIndex) == [m] + Matches(find, source, m.end);
        matches := matches + [m];
        lastIndex := m.end;
        next := find(source, lastIndex);
      }
    }

    /** `getClassesUsed(classRe)`: the class names the patterns find in the text,
        without duplicates and without the classes this file defines itself. */
    method GetClassesUsed(definePattern: Finder, classRe: seq<Finder>) returns (used: seq<string>)
      requires WellBehaved(definePattern, source)
      requires forall k :: 0 <= k < |classRe| ==> WellBehaved(classRe[k], source)
      ensures used == ClassesUsed(ClassNames(definePattern), AllGroups(classRe, source))
      ensures Seqs.NoDuplicates(used)
      ensures forall c :: c in used <==> c in AllGroups(classRe, source) && c !in ClassNames(definePattern)
    {
      var defined := GetMatches(definePattern);
      var internal := Groups(defined);
      var external: seq<string> := [];
      var k := 0;
      while k < |classRe|
        invariant k <= |classRe|
        invariant external == AllGroups(classRe[..k], source)
      {
        var found := GetMatches(classRe[k]);
        assert classRe[..k + 1][..k] == classRe[..k];
        external := external + Groups(found);
        k := k + 1;
      }
      assert classRe[..|classRe|] == classRe;
      used := ClassesUsed(internal, external);
    }

    /** `getImportedFiles`: the paths of bare imports, then those of `import ... from`. */
    function ImportedFiles(plainImport: Finder, fromImport: Finder): seq<string>
      reads this
      requires WellBehaved(plainImport, source) && WellBehaved(fromImport, source)
    {
      Groups(Matches(plainImport, source, 0)) + Groups(Matches(fromImport, source, 0))
    }

    /** `addImports(filePaths)`: prepends an import for every path not imported yet. */
    method AddImports(filePaths: seq<string>, plainImport: Finder, fromImport: Finder)
      requires WellBehaved(plainImport, source) && WellBehaved(fromImport, source)
      modifies this
      ensures source == ImportsAdded(old(source), filePaths, old(ImportedFiles(plainImport, fromImport)))
      ensures filePath == old(filePath) && parseable == old(parseable) && ast == old(ast)
    {
      var plain := GetMatches(plainImport);
      var from := GetMatches(fromImport);
      var oldImports := Groups(plain) + Groups(from);
      var newImports := NewImports(filePaths, oldImports);
      var importCode := ImportCode(newImports);
      if |newImports| > 0 {
        source := importCode + (if |oldImports| > 0 then "" else "\n") + source;
      }
    }
  }
}
