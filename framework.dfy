/** The framework codebase's generated code (src/Framework.js): the export manifest
    built by `transpile`, one `export const` per class of the SDK file, and the index
    file of the project's classes built by `getIndexFileCode`. Both are modelled as the
    sequence of lines handed to `code(...)`. */
module Framework {

  import Text
  import Seqs

  // ---------------------------------------------------------------------------
  // The export manifest (`transpile`)

  /** What the export list reads of a class of the SDK file. */
  datatype SdkClass = SdkClass(className: string, exportName: string, isOverride: bool, classAliases: seq<string>)

  /** One entry of the export list. */
  datatype Export = Export(name: string, value: string, widget: bool)

  const WidgetPrefix: string := "widget."

  /** The index of the first alias that starts with `widget.`. */
  function FirstWidgetAlias(aliases: seq<string>, k: nat): (r: nat)
    requires k <= |aliases|
    ensures k <= r <= |aliases|
    ensures r < |aliases| ==> Text.StartsWith(aliases[r], WidgetPrefix)
    ensures forall j :: k <= j < r ==> !Text.StartsWith(aliases[j], WidgetPrefix)
    decreases |aliases| - k
  {
    if k == |aliases| || Text.StartsWith(aliases[k], WidgetPrefix) then k else FirstWidgetAlias(aliases, k + 1)
  }

  /** `(aliases.find(a => a.startsWith('widget.')) || '').replace(/^widget\./, '')`. */
  function Xtype(aliases: seq<string>): (r: string)
    ensures (forall j :: 0 <= j < |aliases| ==> !Text.StartsWith(aliases[j], WidgetPrefix)) ==> r == ""
    ensures (exists j :: 0 <= j < |aliases| && Text.StartsWith(aliases[j], WidgetPrefix)) ==>
      exists i :: 0 <= i < |aliases| && aliases[i] == WidgetPrefix + r &&
        forall j :: 0 <= j < i ==> !Text.StartsWith(aliases[j], WidgetPrefix)
  {
    var i := FirstWidgetAlias(aliases, 0);
    if i < |aliases| then aliases[i][|WidgetPrefix|..] else ""
  }

  /** The export of one class: a widget is created with `r('<xtype>')`, any other class
      is read from `window`. */
  function ExportOf(c: SdkClass): Export {
    var x := Xtype(c.classAliases);
    Export(c.exportName, if x != "" then "r('" + x + "')" else "w." + c.className, x != "")
  }

  /** The xtype is the rest of the first `widget.` alias; a class with no such alias, or
      whose first one is just `widget.`, is no widget and is read from `window`. */
  lemma ExportOfSpec(c: SdkClass)
    ensures ExportOf(c).name == c.exportName
    ensures ExportOf(c).widget <==>
      exists i :: 0 <= i < |c.classAliases| && Text.StartsWith(c.classAliases[i], WidgetPrefix) &&
        |c.classAliases[i]| > |WidgetPrefix| &&
        forall j :: 0 <= j < i ==> !Text.StartsWith(c.classAliases[j], WidgetPrefix)
    ensures ExportOf(c).widget ==> ExportOf(c).value == "r('" + Xtype(c.classAliases) + "')"
    ensures !ExportOf(c).widget ==> ExportOf(c).value == "w." + c.className
  {
    var i := FirstWidgetAlias(c.classAliases, 0);
    if ExportOf(c).widget {
      assert i < |c.classAliases| && |c.classAliases[i][|WidgetPrefix|..]| > 0;
    }
    if exists i :: 0 <= i < |c.classAliases| && Text.StartsWith(c.classAliases[i], WidgetPrefix) &&
        |c.classAliases[i]| > |WidgetPrefix| &&
        forall j :: 0 <= j < i ==> !Text.StartsWith(c.classAliases[j], WidgetPrefix) {
      var k :| 0 <= k < |c.classAliases| && Text.StartsWith(c.classAliases[k], WidgetPrefix) &&
        |c.classAliases[k]| > |WidgetPrefix| &&
        forall j :: 0 <= j < k ==> !Text.StartsWith(c.classAliases[j], WidgetPrefix);
      assert i == k;
      assert |Xtype(c.classAliases)| > 0;
    }
  }

  function NotOverride(c: SdkClass): bool { !c.isOverride }

  function ExportsOf(cs: seq<SdkClass>): (r: seq<Export>)
    ensures |r| == |cs|
    ensures forall i :: 0 <= i < |cs| ==> r[i] == ExportOf(cs[i])
  {
    if cs == [] then [] else [ExportOf(cs[0])] + ExportsOf(cs[1..])
  }

  /** `e1.name.localeCompare(e2.name) <= 0`, with code-point order for `localeCompare`. */
  function NameLe(): (Export, Export) -> bool {
    (a: Export, b: Export) => Text.LexLe(a.name, b.name)
  }

  /** The export list: the classes that are not overrides, sorted by export name. */
  function Exports(classes: seq<SdkClass>): seq<Export> {
    Seqs.Sort(ExportsOf(Seqs.Filter(classes, NotOverride)), NameLe())
  }

  function IsWidget(e: Export): bool { e.widget }
  function IsNoWidget(e: Export): bool { !e.widget }

  lemma NameLeTotalPreorder()
    ensures Seqs.TotalPreorder(NameLe())
  {
    forall a: Export, b: Export ensures Text.LexLe(a.name, b.name) || Text.LexLe(b.name, a.name) {
      Text.LexLeTotal(a.name, b.name);
    }
    forall a: Export, b: Export, c: Export | Text.LexLe(a.name, b.name) && Text.LexLe(b.name, c.name)
      ensures Text.LexLe(a.name, c.name)
    {
      Text.LexLeTransitive(a.name, b.name, c.name);
    }
  }

  /** The export list holds exactly the exports of the classes that are not overrides,
      each as often as the class, sorted by name. */
  lemma ExportsSpec(classes: seq<SdkClass>)
    ensures Seqs.SortedBy(Exports(classes), NameLe())
    ensures multiset(Exports(classes)) == multiset(ExportsOf(Seqs.Filter(classes, NotOverride)))
    ensures forall e :: e in Exports(classes) <==> exists c :: c in classes && !c.isOverride && e == ExportOf(c)
  {
    NameLeTotalPreorder();
    var kept := Seqs.Filter(classes, NotOverride);
    Seqs.SortSorted(ExportsOf(kept), NameLe());
    forall e ensures e in Exports(classes) <==> exists c :: c in classes && !c.isOverride && e == ExportOf(c) {
      Seqs.SortMembers(ExportsOf(kept), NameLe(), e);
      ExportsOfMembers(kept, e);
      KeptMembers(classes, e);
    }
  }

  lemma ExportsOfMembers(cs: seq<SdkClass>, e: Export)
    ensures e in ExportsOf(cs) <==> exists c :: c in cs && e == ExportOf(c)
  {
    if e in ExportsOf(cs) {
      var i :| 0 <= i < |cs| && ExportsOf(cs)[i] == e;
      assert cs[i] in cs;
    }
    if exists c :: c in cs && e == ExportOf(c) {
      var c :| c in cs && e == ExportOf(c);
      var i :| 0 <= i < |cs| && cs[i] == c;
      assert ExportsOf(cs)[i] == e;
    }
  }

  lemma KeptMembers(classes: seq<SdkClass>, e: Export)
    ensures (exists c :: c in Seqs.Filter(classes, NotOverride) && e == ExportOf(c)) <==>
      exists c :: c in classes && !c.isOverride && e == ExportOf(c)
  {
    var kept := Seqs.Filter(classes, NotOverride);
    if exists c :: c in classes && !c.isOverride && e == ExportOf(c) {
      var c :| c in classes && !c.isOverride && e == ExportOf(c);
      assert c in kept;
    }
  }

  /** Filtering a sorted list keeps it sorted. */
  lemma FilterSorted<T(!new)>(s: seq<T>, keep: T -> bool, le: (T, T) -> bool)
    requires Seqs.SortedBy(s, le)
    ensures Seqs.SortedBy(Seqs.Filter(s, keep), le)
  {
    var r := Seqs.Filter(s, keep);
    forall i, j | 0 <= i < j < |r| ensures le(r[i], r[j]) {
      Seqs.FilterOrder(s, keep, i, j);
    }
  }

  /** `Math.max(0, ...exports.map(e => e.name.length))`. */
  function LongestName(es: seq<Export>): (n: nat)
    ensures forall i :: 0 <= i < |es| ==> |es[i].name| <= n
    ensures es != [] ==> exists i :: 0 <= i < |es| && |es[i].name| == n
    ensures es == [] ==> n == 0
  {
    if es == [] then 0
    else
      var rest := LongestName(es[1..]);
      assert forall i :: 1 <= i < |es| ==> es[i] == es[1..][i - 1];
      if |es[0].name| >= rest then |es[0].name| else rest
  }

  function ExportLine(e: Export, pad: nat): string {
    "export const " + Text.PadEnd(e.name, pad) + " = " + e.value
  }

  /** `getExportCode(exports)`: one line per export, names padded to the longest. */
  function ExportCode(es: seq<Export>): (r: seq<string>)
    ensures |r| == |es|
    ensures forall i :: 0 <= i < |es| ==> r[i] == ExportLine(es[i], LongestName(es))
  {
    var pad := LongestName(es);
    seq(|es|, i requires 0 <= i < |es| => ExportLine(es[i], pad))
  }

  /** Within a group every padded name has the length of the group's longest name, so
      the `=` signs line up, and the name is the start of its padded form. */
  lemma ExportCodeAligned(es: seq<Export>, i: nat)
    requires i < |es|
    ensures var padded := Text.PadEnd(es[i].name, LongestName(es));
      |padded| == LongestName(es) && padded[..|es[i].name|] == es[i].name &&
      ExportCode(es)[i] == "export const " + padded + " = " + es[i].value
  {
  }

  const ManifestHeader: seq<string> := [
    "import { reactify } from '@sencha/ext-react'",
    "",
    "export * from './define'",
    "",
    "const r = reactify",
    "const w = window",
    ""
  ]

  /** The lines of the manifest: the header, the lines of the widget exports, an empty
      line, and the lines of the other exports. */
  function ManifestLines(classes: seq<SdkClass>): seq<string> {
    var exports := Exports(classes);
    Layout(ManifestHeader, ExportCode(Seqs.Filter(exports, IsWidget)), ExportCode(Seqs.Filter(exports, IsNoWidget)))
  }

  function Layout(header: seq<string>, widgetLines: seq<string>, otherLines: seq<string>): seq<string> {
    header + widgetLines + [""] + otherLines
  }

  /** Where each group's lines land in the manifest. */
  lemma LayoutSpec(header: seq<string>, widgetLines: seq<string>, otherLines: seq<string>)
    ensures var lines := Layout(header, widgetLines, otherLines);
      var w := |header|;
      |lines| == w + |widgetLines| + 1 + |otherLines| &&
      lines[..w] == header &&
      (forall i :: 0 <= i < |widgetLines| ==> lines[w + i] == widgetLines[i]) &&
      lines[w + |widgetLines|] == "" &&
      (forall i :: 0 <= i < |otherLines| ==> lines[w + |widgetLines| + 1 + i] == otherLines[i])
  {
    Joined(header, widgetLines, "", otherLines);
  }

  /** Where the parts of `a + b + [x] + c` land. */
  lemma Joined<T>(a: seq<T>, b: seq<T>, x: T, c: seq<T>)
    ensures var s := a + b + [x] + c;
      |s| == |a| + |b| + 1 + |c| && s[..|a|] == a && s[|a| + |b|] == x &&
      (forall i :: 0 <= i < |b| ==> s[|a| + i] == b[i]) &&
      (forall i :: 0 <= i < |c| ==> s[|a| + |b| + 1 + i] == c[i])
  {
    var s := a + b + [x] + c;
    assert s == a + (b + ([x] + c));
    assert s[..|a|] == a;
  }

  /** The manifest lists the widgets first and then the other classes, each group sorted
      by name with its names padded to the group's longest name. */
  lemma ManifestSpec(classes: seq<SdkClass>)
    ensures var exports := Exports(classes);
      var widgets := Seqs.Filter(exports, IsWidget);
      var others := Seqs.Filter(exports, IsNoWidget);
      ManifestLines(classes) == Layout(ManifestHeader, ExportCode(widgets), ExportCode(others)) &&
      (forall i :: 0 <= i < |widgets| ==> widgets[i].widget) &&
      (forall i :: 0 <= i < |others| ==> !others[i].widget) &&
      Seqs.SortedBy(widgets, NameLe()) && Seqs.SortedBy(others, NameLe())
  {
    var exports := Exports(classes);
    ExportsSpec(classes);
    FilterSorted(exports, IsWidget, NameLe());
    FilterSorted(exports, IsNoWidget, NameLe());
    var widgets := Seqs.Filter(exports, IsWidget);
    var others := Seqs.Filter(exports, IsNoWidget);
    forall i | 0 <= i < |widgets| ensures widgets[i].widget {
      assert widgets[i] in widgets;
    }
    forall i | 0 <= i < |others| ensures !others[i].widget {
      assert others[i] in others;
    }
  }

  // ---------------------------------------------------------------------------
  // The index file (`getIndexFileCode`)

  /** What the index file reads of a class of the project. */
  datatype UsedClass = UsedClass(className: string, usage: nat, codeFilePath: string)

  /** `c1.usage - c2.usage <= 0`. */
  function UsageLe(): (UsedClass, UsedClass) -> bool {
    (a: UsedClass, b: UsedClass) => a.usage <= b.usage
  }

  /** `Math.max(0, ...classes.map(cls => cls.className.length))`. */
  function LongestClassName(cs: seq<UsedClass>): (n: nat)
    ensures forall i :: 0 <= i < |cs| ==> |cs[i].className| <= n
    ensures cs != [] ==> exists i :: 0 <= i < |cs| && |cs[i].className| == n
    ensures cs == [] ==> n == 0
  {
    if cs == [] then 0
    else
      var rest := LongestClassName(cs[1..]);
      assert forall i :: 1 <= i < |cs| ==> cs[i] == cs[1..][i - 1];
      if |cs[0].className| >= rest then |cs[0].className| else rest
  }

  /** The trailing comment, indented by twice the shortfall of the class name. */
  function UsageComment(c: UsedClass, longest: nat): string
    requires |c.className| <= longest
  {
    Text.Spaces((longest - |c.className|) * 2) + "// used " + Text.NatToString(c.usage) + " times"
  }

  function IndexLine(c: UsedClass, longest: nat): string
    requires |c.className| <= longest
  {
    "export { default as " + c.className + " } from '" + c.codeFilePath + "' " + UsageComment(c, longest)
  }

  /** The lines of the index file: the classes in ascending order of usage. */
  function IndexLines(classes: seq<UsedClass>): (r: seq<string>)
    ensures |r| == |classes|
  {
    var longest := LongestClassName(classes);
    var sorted := Seqs.Sort(classes, UsageLe());
    assert forall i :: 0 <= i < |sorted| ==> sorted[i] in multiset(classes);
    seq(|sorted|, i requires 0 <= i < |sorted| => IndexLine(sorted[i], longest))
  }

  lemma UsageLeTotalPreorder()
    ensures Seqs.TotalPreorder(UsageLe())
  {
  }

  /** One line per class: the lines are those of a permutation of the classes sorted by
      ascending usage, each commented with the class's usage count. */
  lemma IndexLinesSpec(classes: seq<UsedClass>)
    ensures var sorted := Seqs.Sort(classes, UsageLe());
      multiset(sorted) == multiset(classes) &&
      (forall i, j :: 0 <= i < j < |sorted| ==> sorted[i].usage <= sorted[j].usage) &&
      forall i :: 0 <= i < |sorted| ==>
        |sorted[i].className| <= LongestClassName(classes) &&
        IndexLines(classes)[i] == IndexLine(sorted[i], LongestClassName(classes))
  {
    UsageLeTotalPreorder();
    var sorted := Seqs.Sort(classes, UsageLe());
    Seqs.SortSorted(classes, UsageLe());
    forall i | 0 <= i < |sorted| ensures |sorted[i].className| <= LongestClassName(classes) {
      assert sorted[i] in multiset(classes);
      assert sorted[i] in classes;
    }
  }
}
