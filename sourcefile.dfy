/** One source file of the application (src/SourceFile.js): the names its classes are
    exported under, the names it imports other classes under, which classes it uses,
    the getter/setter call rule, the imports it writes and whether it is written at all. */
module SourceFile {

  import opened Wrappers
  import Text
  import Seqs
  import Words
  import Registry
  import ExtClass
  import Util
  import Ast

  // ---------------------------------------------------------------------------
  // Export names (`_getExportName`)

  /** Every part with its first character upper-cased, concatenated. A part that is
      empty has no first character: the source throws, `None`. */
  function UpperFirsts(parts: seq<string>): (r: Option<string>)
    ensures r.None? <==> exists k :: 0 <= k < |parts| && parts[k] == ""
    ensures r.Some? ==> Text.ToLower(r.value) == Text.ToLower(Words.Concat(parts))
    ensures r.Some? ==> r.value == Words.Concat(UpperFirstEach(parts))
    decreases |parts|
  {
    if parts == [] then Some("")
    else if parts[0] == "" then None
    else
      match UpperFirsts(parts[1..])
      case None => None
      case Some(rest) =>
        Words.UpperFirstSameLetters(parts[0]);
        Words.ToLowerConcat(Text.UpperFirst(parts[0]), rest);
        Words.ToLowerConcat(parts[0], Words.Concat(parts[1..]));
        assert UpperFirstEach(parts)[1..] == UpperFirstEach(parts[1..]);
        Some(Text.UpperFirst(parts[0]) + rest)
  }

  /** Every part with its first character upper-cased and the rest kept. */
  function UpperFirstEach(parts: seq<string>): (r: seq<string>)
    ensures |r| == |parts|
    ensures forall k :: 0 <= k < |parts| ==> r[k] == Text.UpperFirst(parts[k])
  {
    seq(|parts|, k requires 0 <= k < |parts| => Text.UpperFirst(parts[k]))
  }

  /** The export name of a class without an alias: the segments of the class name
      after the root namespace, last one first, each with an upper-case initial. */
  function PlainExportName(className: string): Option<string> {
    var reversed := Seqs.Reverse(Text.Split(className, '.'));
    UpperFirsts(reversed[..|reversed| - 1])
  }

  /** A class name `root.p1.….pn` is exported as `Pn…P1`, whatever the root. */
  lemma PlainExportNameSpec(root: string, parts: seq<string>)
    requires '.' !in root
    requires forall k :: 0 <= k < |parts| ==> '.' !in parts[k]
    ensures PlainExportName(Text.Join([root] + parts, ".")) == UpperFirsts(Seqs.Reverse(parts))
  {
    var all := [root] + parts;
    NoDotInParts(root, parts, all);
    var name := Text.Join(all, ".");
    SplitDotted(all);
    PlainExportNameOf(name, all);
    DropRoot(root, parts);
  }

  lemma NoDotInParts(root: string, parts: seq<string>, all: seq<string>)
    requires '.' !in root
    requires forall k :: 0 <= k < |parts| ==> '.' !in parts[k]
    requires all == [root] + parts
    ensures |all| >= 1 && forall k :: 0 <= k < |all| ==> '.' !in all[k]
  {
    forall k | 0 <= k < |all| ensures '.' !in all[k] {
      if k > 0 {
        assert all[k] == parts[k - 1];
      }
    }
  }

  lemma PlainExportNameOf(name: string, all: seq<string>)
    requires Text.Split(name, '.') == all
    ensures var reversed := Seqs.Reverse(all);
      PlainExportName(name) == UpperFirsts(reversed[..|reversed| - 1])
  {
  }

  lemma SplitDotted(all: seq<string>)
    requires |all| >= 1 && forall k :: 0 <= k < |all| ==> '.' !in all[k]
    ensures Text.Split(Text.Join(all, "."), '.') == all
  {
    Text.SplitJoin(all, '.');
    assert "." == ['.'];
  }

  lemma DropRoot(root: string, parts: seq<string>)
    ensures var reversed := Seqs.Reverse([root] + parts);
      reversed[..|reversed| - 1] == Seqs.Reverse(parts)
  {
    var reversed := Seqs.Reverse([root] + parts);
    assert reversed == Seqs.Reverse(parts) + [root];
  }

  /** The export name fails exactly when a segment after the root is empty. */
  lemma PlainExportNameFails(root: string, parts: seq<string>)
    requires '.' !in root
    requires forall k :: 0 <= k < |parts| ==> '.' !in parts[k]
    ensures PlainExportName(Text.Join([root] + parts, ".")).None? <==> exists k :: 0 <= k < |parts| && parts[k] == ""
  {
    PlainExportNameSpec(root, parts);
    var r := Seqs.Reverse(parts);
    if exists k :: 0 <= k < |parts| && parts[k] == "" {
      var k :| 0 <= k < |parts| && parts[k] == "";
      assert r[|parts| - 1 - k] == "";
    }
    if exists k :: 0 <= k < |r| && r[k] == "" {
      var k :| 0 <= k < |r| && r[k] == "";
      assert parts[|parts| - 1 - k] == "";
    }
  }

  /** `MyApp.view.List` is exported as `ListView`. */
  lemma PlainExportNameExample()
    ensures PlainExportName("MyApp.view.List") == Some("ListView")
  {
    var parts := ["view", "List"];
    ExampleParts(parts);
    PlainExportNameSpec("MyApp", parts);
    UpperFirstsExample();
  }

  lemma ExampleParts(parts: seq<string>)
    requires parts == ["view", "List"]
    ensures '.' !in "MyApp" && forall k :: 0 <= k < |parts| ==> '.' !in parts[k]
    ensures Text.Join(["MyApp"] + parts, ".") == "MyApp.view.List"
    ensures Seqs.Reverse(parts) == ["List", "view"]
  {
    ExampleNoDots(parts);
    ExampleJoin(["MyApp"] + parts, "MyApp", "view", "List", ".");
    ExampleName("MyApp", "view", "List", ".");
    ExampleReverse(parts, "view", "List");
  }

  lemma ExampleNoDots(parts: seq<string>)
    requires parts == ["view", "List"]
    ensures '.' !in "MyApp" && forall k :: 0 <= k < |parts| ==> '.' !in parts[k]
  {
  }

  lemma ExampleName(a: string, b: string, c: string, sep: string)
    requires a == "MyApp" && b == "view" && c == "List" && sep == "."
    ensures a + sep + b + sep + c == "MyApp.view.List"
  {
  }

  lemma ExampleJoin(all: seq<string>, a: string, b: string, c: string, sep: string)
    requires all == [a, b, c]
    ensures Text.Join(all, sep) == a + sep + b + sep + c
  {
    assert all[1..] == [b, c] && all[1..][1..] == [c];
    assert Text.Join(all[1..], sep) == b + sep + c;
    assert a + sep + (b + sep + c) == a + sep + b + sep + c;
  }

  lemma ExampleReverse(parts: seq<string>, a: string, b: string)
    requires parts == [a, b]
    ensures Seqs.Reverse(parts) == [b, a]
  {
    var r := Seqs.Reverse(parts);
    assert |r| == 2 && r[0] == b && r[1] == a;
    assert r == [b, a];
  }

  lemma UpperFirstsExample()
    ensures UpperFirsts(["List", "view"]) == Some("ListView")
  {
    assert UpperFirsts([]) == Some("");
    UpperFirstsStep("view", [], "");
    assert ["view"] + [] == ["view"];
    assert Text.UpperFirst("view") + "" == "View";
    UpperFirstsStep("List", ["view"], "View");
    assert ["List"] + ["view"] == ["List", "view"];
    assert Text.UpperFirst("List") == "List";
    assert "List" + "View" == "ListView";
  }

  lemma UpperFirstsStep(p: string, rest: seq<string>, t: string)
    requires p != "" && UpperFirsts(rest) == Some(t)
    ensures UpperFirsts([p] + rest) == Some(Text.UpperFirst(p) + t)
  {
    assert ([p] + rest)[1..] == rest;
  }

  /** A class name without a dot is all root: its export name is empty. */
  lemma PlainExportNameRootOnly(className: string)
    requires '.' !in className
    ensures PlainExportName(className) == Some("")
  {
    Text.SplitNoSeparator(className, '.');
  }

  /** What `s.replace(/.*-/, '')` leaves: the text after the last `-`. */
  function AfterLastDash(s: string): (r: string)
    ensures '-' !in r
    ensures '-' !in s ==> r == s
    decreases |s|
  {
    if s == [] then []
    else if s[|s| - 1] == '-' then []
    else
      var init := s[..|s| - 1];
      assert s == init + [s[|s| - 1]];
      AfterLastDash(init) + [s[|s| - 1]]
  }

  /** The namespace of an alias: its segments, each `_.capitalize`d, concatenated. */
  function CapitalizeEach(parts: seq<string>): string
    decreases |parts|
  {
    if parts == [] then "" else Text.Capitalize(parts[0]) + CapitalizeEach(parts[1..])
  }

  /** The export name of a class from its first alias: the capitalised name after the
      last `-`, given the codebase's word capitals, followed by the capitalised namespace
      as a suffix. A namespace equal to `modelKey` gives the suffix `Model`, and the
      suffix `Widget` is dropped. A name that capitalises to nothing makes the source
      throw: `None`. */
  function AliasExportNameBy(words: seq<string>, alias: string, modelKey: string): Option<string> {
    var parts := Text.Split(alias, '.');
    var namespace := CapitalizeEach(parts[..|parts| - 1]);
    var name := Text.Capitalize(AfterLastDash(parts[|parts| - 1]));
    match Words.Capitalize(words, name)
    case None => None
    case Some(exportName) =>
      var suffix := if namespace == modelKey then "Model" else namespace;
      Some(exportName + if suffix == "Widget" then "" else suffix)
  }

  /** The lookup as the source writes it: the key `viewmodel` is compared with the
      namespace after it has been capitalised. */
  function AliasExportNameAsWritten(words: seq<string>, alias: string): Option<string> {
    AliasExportNameBy(words, alias, "viewmodel")
  }

  /** The lookup as intended: the `viewmodel` namespace, capitalised, gives `Model`. */
  function AliasExportName(words: seq<string>, alias: string): Option<string> {
    AliasExportNameBy(words, alias, "Viewmodel")
  }

  /** `_getExportName(cls)`, given the class name, its aliases and the codebase's words:
      the first alias decides when there is one, with the intended `viewmodel` lookup
      (`AliasExportName`, not `AliasExportNameAsWritten`); the class name otherwise. */
  function ExportName(words: seq<string>, className: string, aliases: seq<string>): Option<string> {
    if aliases == [] then PlainExportName(className) else AliasExportName(words, aliases[0])
  }

  /** A class `root.p1.….pn` without an alias is exported as its segments after the root,
      last one first, each with its initial upper-cased; an empty segment makes it fail. */
  lemma ExportNamePlainSpec(words: seq<string>, root: string, parts: seq<string>)
    requires '.' !in root
    requires forall k :: 0 <= k < |parts| ==> '.' !in parts[k]
    ensures var r := ExportName(words, Text.Join([root] + parts, "."), []);
      (r.None? <==> "" in parts) &&
      (r.Some? ==> r.value == Words.Concat(UpperFirstEach(Seqs.Reverse(parts))))
  {
    var name := Text.Join([root] + parts, ".");
    PlainExportNameSpec(root, parts);
    assert ExportName(words, name, []) == PlainExportName(name);
    EmptyPartReversed(parts);
  }

  lemma EmptyPartReversed(parts: seq<string>)
    ensures ("" in parts) <==> ("" in Seqs.Reverse(parts))
  {
    var rev := Seqs.Reverse(parts);
    if "" in parts {
      var k :| 0 <= k < |parts| && parts[k] == "";
      assert rev[|parts| - 1 - k] == "";
    }
    if "" in rev {
      var k :| 0 <= k < |rev| && rev[k] == "";
      assert parts[|parts| - 1 - k] == "";
    }
  }

  /** A class whose first alias is `ns1.….nsk.name` is exported as the capitalised part
      of `name` after its last dash, given the codebase's word capitals, followed by the
      capitalised namespace: `Model` for `viewmodel`, nothing for `widget`. */
  lemma ExportNameAliasSpec(words: seq<string>, className: string, namespace: seq<string>, name: string, more: seq<string>)
    requires forall k :: 0 <= k < |namespace| ==> '.' !in namespace[k]
    requires '.' !in name
    ensures ExportName(words, className, [Text.Join(namespace + [name], ".")] + more) ==
      var tail := AfterLastDash(name);
      if tail == "" then None
      else
        var ns := CapitalizeEach(namespace);
        var suffix := if ns == "Viewmodel" then "Model" else ns;
        Some(Words.Capitalize(words, Text.Capitalize(tail)).value + if suffix == "Widget" then "" else suffix)
  {
    AliasExportNameSpec(words, namespace, name, "Viewmodel");
  }

  /** How an alias `ns1.….nsk.name` (`name` without dots) is exported: the capitalised
      part of the name after its last dash, followed by the namespace suffix. */
  lemma AliasExportNameSpec(words: seq<string>, namespace: seq<string>, name: string, modelKey: string)
    requires forall k :: 0 <= k < |namespace| ==> '.' !in namespace[k]
    requires '.' !in name
    ensures AliasExportNameBy(words, Text.Join(namespace + [name], "."), modelKey) ==
      var tail := AfterLastDash(name);
      if tail == "" then None
      else
        var ns := CapitalizeEach(namespace);
        var suffix := if ns == modelKey then "Model" else ns;
        Some(Words.Capitalize(words, Text.Capitalize(tail)).value + if suffix == "Widget" then "" else suffix)
  {
    var parts := namespace + [name];
    Text.SplitJoin(parts, '.');
    assert parts[..|parts| - 1] == namespace;
    Words.CapitalizeSpec(words, Text.Capitalize(AfterLastDash(name)));
  }

  /** `_.capitalize` of a word without upper-case letters only upper-cases its initial. */
  lemma CapitalizeLowerWord(w: string)
    requires w != [] && forall i :: 0 <= i < |w| ==> !Text.IsUpper(w[i])
    ensures CapitalizeEach([w]) == [Text.UpperChar(w[0])] + w[1..]
  {
    var c := Text.Capitalize(w);
    assert c == [Text.UpperChar(w[0])] + w[1..];
    assert CapitalizeEach([w]) == c + CapitalizeEach([]);
  }

  lemma CapitalizeViewmodel(w: string)
    requires w == "viewmodel"
    ensures CapitalizeEach([w]) == "Viewmodel"
  {
    LowerWordViewmodel(w);
    CapitalizeLowerWord(w);
    InitialViewmodel(w);
  }

  lemma LowerWordViewmodel(w: string)
    requires w == "viewmodel"
    ensures w != [] && forall i :: 0 <= i < |w| ==> !Text.IsUpper(w[i])
  {
  }

  lemma InitialViewmodel(w: string)
    requires w == "viewmodel"
    ensures [Text.UpperChar(w[0])] + w[1..] == "Viewmodel"
  {
    assert w[0] == 'v' && Text.UpperChar('v') == 'V';
    assert ['V'] + w[1..] == "Viewmodel";
  }

  lemma CapitalizeWidget(w: string)
    requires w == "widget"
    ensures CapitalizeEach([w]) == "Widget"
  {
    LowerWordWidget(w);
    CapitalizeLowerWord(w);
    InitialWidget(w);
  }

  lemma LowerWordWidget(w: string)
    requires w == "widget"
    ensures w != [] && forall i :: 0 <= i < |w| ==> !Text.IsUpper(w[i])
  {
  }

  lemma InitialWidget(w: string)
    requires w == "widget"
    ensures [Text.UpperChar(w[0])] + w[1..] == "Widget"
  {
    assert w[0] == 'w' && Text.UpperChar('w') == 'W';
    assert ['W'] + w[1..] == "Widget";
  }

  /** A capitalised namespace never starts with a lower-case letter, so it is never
      the key `viewmodel`. */
  lemma {:induction false} NamespaceNeverLowerKey(parts: seq<string>)
    ensures CapitalizeEach(parts) != "viewmodel"
    decreases |parts|
  {
    if parts != [] {
      var head := Text.Capitalize(parts[0]);
      if head == [] {
        assert CapitalizeEach(parts) == CapitalizeEach(parts[1..]);
        NamespaceNeverLowerKey(parts[1..]);
      } else {
        assert CapitalizeEach(parts)[0] == head[0];
        assert head[0] == Text.UpperChar(Text.LowerChar(parts[0][0]));
      }
    }
  }

  /** An alias `ns.name` with a one-segment namespace and a name without dashes. */
  lemma OneNamespaceAlias(words: seq<string>, ns: string, name: string, modelKey: string)
    requires '.' !in ns && name != [] && '.' !in name && '-' !in name
    ensures AliasExportNameBy(words, ns + "." + name, modelKey) ==
      var c := CapitalizeEach([ns]);
      var suffix := if c == modelKey then "Model" else c;
      Some(Words.Capitalize(words, Text.Capitalize(name)).value + if suffix == "Widget" then "" else suffix)
  {
    assert Text.Join([ns] + [name], ".") == ns + "." + name;
    AliasExportNameSpec(words, [ns], name, modelKey);
  }

  /** As written, a `viewmodel` alias keeps the suffix `Viewmodel`. */
  lemma ViewModelAliasAsWritten(words: seq<string>, ns: string, name: string)
    requires ns == "viewmodel" && name != [] && '.' !in name && '-' !in name
    ensures AliasExportNameAsWritten(words, ns + "." + name) ==
      Some(Words.Capitalize(words, Text.Capitalize(name)).value + "Viewmodel")
  {
    OneNamespaceAlias(words, ns, name, "viewmodel");
    CapitalizeViewmodel(ns);
    ViewmodelNotKey("Viewmodel");
  }

  lemma ViewmodelNotKey(c: string)
    requires c == "Viewmodel"
    ensures c != "viewmodel" && c != "Widget"
  {
    assert c[0] != "viewmodel"[0];
    assert |c| != |"Widget"|;
  }

  /** As intended, a `viewmodel` alias takes the suffix `Model`. */
  lemma ViewModelAlias(words: seq<string>, ns: string, name: string)
    requires ns == "viewmodel" && name != [] && '.' !in name && '-' !in name
    ensures AliasExportName(words, ns + "." + name) ==
      Some(Words.Capitalize(words, Text.Capitalize(name)).value + "Model")
  {
    OneNamespaceAlias(words, ns, name, "Viewmodel");
    CapitalizeViewmodel(ns);
    ModelNotWidget("Model");
  }

  lemma ModelNotWidget(c: string)
    requires c == "Model"
    ensures c != "Widget"
  {
    assert |c| != |"Widget"|;
  }

  /** A `widget` alias adds no suffix. */
  lemma WidgetAlias(words: seq<string>, ns: string, name: string)
    requires ns == "widget" && name != [] && '.' !in name && '-' !in name
    ensures AliasExportName(words, ns + "." + name) == Words.Capitalize(words, Text.Capitalize(name))
  {
    OneNamespaceAlias(words, ns, name, "Viewmodel");
    CapitalizeWidget(ns);
    WidgetNotKey("Widget");
    Words.CapitalizeSpec(words, Text.Capitalize(name));
    var w := Words.Capitalize(words, Text.Capitalize(name)).value;
    assert w + "" == w;
  }

  lemma WidgetNotKey(c: string)
    requires c == "Widget"
    ensures c != "Viewmodel"
  {
    assert |c| != |"Viewmodel"|;
  }

  /** Only the part of the name after its last dash counts. */
  lemma AliasDashes(words: seq<string>, namespace: seq<string>, prefix: string, name: string, modelKey: string)
    requires forall k :: 0 <= k < |namespace| ==> '.' !in namespace[k]
    requires '.' !in prefix && '.' !in name && '-' !in name
    ensures AliasExportNameBy(words, Text.Join(namespace + [prefix + "-" + name], "."), modelKey) ==
            AliasExportNameBy(words, Text.Join(namespace + [name], "."), modelKey)
  {
    var head := prefix + "-";
    var full := head + name;
    assert '.' !in full;
    AfterLastDashSuffix(head, name);
    assert AfterLastDash(name) == name;
    AliasExportNameSpec(words, namespace, full, modelKey);
    AliasExportNameSpec(words, namespace, name, modelKey);
  }

  /** A dash-free tail after a dash is what is left. */
  lemma {:induction false} AfterLastDashSuffix(head: string, tail: string)
    requires head != [] && head[|head| - 1] == '-' && '-' !in tail
    ensures AfterLastDash(head + tail) == tail
    decreases |tail|
  {
    if tail == [] {
      assert head + tail == head;
    } else {
      var s := head + tail;
      var init := tail[..|tail| - 1];
      var c := tail[|tail| - 1];
      assert s[|s| - 1] == c;
      assert c in tail;
      assert s[..|s| - 1] == head + init;
      AfterLastDashSuffix(head, init);
      assert AfterLastDash(s) == AfterLastDash(head + init) + [c];
      assert tail == init + [c];
    }
  }


  // ---------------------------------------------------------------------------
  // Import names (`init`)

  /** The first position of `x` in `s`. */
  function IndexOf<T(==)>(s: seq<T>, x: T): (i: nat)
    requires x in s
    ensures i < |s| && s[i] == x && x !in s[..i]
    decreases |s|
  {
    if s[0] == x then 0
    else
      var i := IndexOf(s[1..], x) + 1;
      assert s[..i] == [s[0]] + s[1..][..i - 1];
      i
  }

  /** No two classes of the list have the same class name. */
  predicate UniqueNames(cs: seq<Registry.ClassEntry>) {
    forall i, j :: 0 <= i < j < |cs| ==> cs[i].className != cs[j].className
  }

  /** The export names of the classes, in order. */
  function ExportNamesOf(cs: seq<Registry.ClassEntry>): (r: seq<string>)
    ensures |r| == |cs| && forall k :: 0 <= k < |cs| ==> r[k] == cs[k].exportName
    decreases |cs|
  {
    if cs == [] then [] else ExportNamesOf(cs[..|cs| - 1]) + [cs[|cs| - 1].exportName]
  }

  /** `_.groupBy(classes, cls => cls.exportName)`: the keys, in order of first appearance,
      and the classes under one key, in order. */
  function GroupKeys(cs: seq<Registry.ClassEntry>): seq<string> {
    Seqs.Uniq(ExportNamesOf(cs))
  }

  function Group(cs: seq<Registry.ClassEntry>, name: string): (r: seq<Registry.ClassEntry>)
    ensures forall c :: c in r <==> c in cs && c.exportName == name
  {
    Seqs.Filter(cs, (c: Registry.ClassEntry) => c.exportName == name)
  }

  /** The classes under one export name are numbered when there is more than one of
      them or when a class of this file is exported under that name. */
  predicate IsNumbered(cs: seq<Registry.ClassEntry>, exports: seq<string>, name: string) {
    |Group(cs, name)| > 1 || name in exports
  }

  /** The name given to the `i`-th class (from 0) under `name`. */
  function Numbered(name: string, numbered: bool, i: nat): string {
    name + if numbered then Text.NatToString(i + 1) else ""
  }

  /** The import name of a class: its export name, numbered by its place among the
      classes sharing that export name when those are numbered. */
  function ImportName(cs: seq<Registry.ClassEntry>, exports: seq<string>, c: Registry.ClassEntry): string
    requires c in cs
  {
    var g := Group(cs, c.exportName);
    Numbered(c.exportName, IsNumbered(cs, exports, c.exportName), IndexOf(g, c))
  }

  /** The entries `className := importName` the first `n` classes of one group make. */
  function GroupPairs(members: seq<Registry.ClassEntry>, name: string, numbered: bool, n: nat): (r: seq<(string, string)>)
    requires n <= |members|
    ensures |r| == n
  {
    if n == 0 then []
    else GroupPairs(members, name, numbered, n - 1) + [(members[n - 1].className, Numbered(name, numbered, n - 1))]
  }

  /** The entries the groups `keys` make, one group after the other. */
  function Assignments(cs: seq<Registry.ClassEntry>, exports: seq<string>, keys: seq<string>): seq<(string, string)>
    decreases |keys|
  {
    if keys == [] then []
    else
      var last := keys[|keys| - 1];
      var members := Group(cs, last);
      Assignments(cs, exports, keys[..|keys| - 1]) + GroupPairs(members, last, IsNumbered(cs, exports, last), |members|)
  }

  /** The map after the entries are stored in order. */
  function Apply(m: map<string, string>, pairs: seq<(string, string)>): map<string, string>
    decreases |pairs|
  {
    if pairs == [] then m
    else Apply(m, pairs[..|pairs| - 1])[pairs[|pairs| - 1].0 := pairs[|pairs| - 1].1]
  }

  lemma {:induction false} ApplyAppend(m: map<string, string>, a: seq<(string, string)>, b: seq<(string, string)>)
    ensures Apply(m, a + b) == Apply(Apply(m, a), b)
    decreases |b|
  {
    if b != [] {
      var init := b[..|b| - 1];
      assert (a + b)[..|a + b| - 1] == a + init;
      var last := b[|b| - 1];
      assert (a + b)[|a + b| - 1] == last;
      ApplyAppend(m, a, init);
      assert Apply(m, a + b) == Apply(m, a + init)[last.0 := last.1];
      assert Apply(Apply(m, a), b) == Apply(Apply(m, a), init)[last.0 := last.1];
    } else {
      assert a + b == a;
    }
  }

  /** Entries for other keys leave a key as it was. */
  lemma {:induction false} ApplyUntouched(m: map<string, string>, pairs: seq<(string, string)>, k: string)
    requires forall i :: 0 <= i < |pairs| ==> pairs[i].0 != k
    ensures k in Apply(m, pairs) <==> k in m
    ensures k in m ==> Apply(m, pairs)[k] == m[k]
    decreases |pairs|
  {
    if pairs != [] {
      ApplyUntouched(m, pairs[..|pairs| - 1], k);
    }
  }

  /** A key is stored by some entry of the list or was there before. */
  lemma {:induction false} ApplyKeys(m: map<string, string>, pairs: seq<(string, string)>, k: string)
    ensures k in Apply(m, pairs) <==> k in m || exists i :: 0 <= i < |pairs| && pairs[i].0 == k
    decreases |pairs|
  {
    if pairs != [] {
      var init := pairs[..|pairs| - 1];
      ApplyKeys(m, init, k);
      if exists i :: 0 <= i < |init| && init[i].0 == k {
        var i :| 0 <= i < |init| && init[i].0 == k;
        assert pairs[i].0 == k;
      }
    }
  }

  /** A sub-list of a list without repeated class names has none either. */
  lemma GroupUniqueNames(cs: seq<Registry.ClassEntry>, name: string)
    requires UniqueNames(cs)
    ensures UniqueNames(Group(cs, name))
  {
    var g := Group(cs, name);
    forall i, j | 0 <= i < j < |g| ensures g[i].className != g[j].className {
      Seqs.FilterOrder(cs, (c: Registry.ClassEntry) => c.exportName == name, i, j);
    }
  }

  /** Within a group, the `j`-th class gets the `j`-th name. */
  lemma {:induction false} GroupPairsValue(m: map<string, string>, members: seq<Registry.ClassEntry>, name: string, numbered: bool, n: nat, j: nat)
    requires UniqueNames(members)
    requires j < n <= |members|
    ensures members[j].className in Apply(m, GroupPairs(members, name, numbered, n))
    ensures Apply(m, GroupPairs(members, name, numbered, n))[members[j].className] == Numbered(name, numbered, j)
    decreases n
  {
    var pairs := GroupPairs(members, name, numbered, n);
    assert pairs[..|pairs| - 1] == GroupPairs(members, name, numbered, n - 1);
    if j < n - 1 {
      GroupPairsValue(m, members, name, numbered, n - 1, j);
    }
  }

  /** The entries of a group only store the names of its own classes. */
  lemma {:induction false} GroupPairsKeys(members: seq<Registry.ClassEntry>, name: string, numbered: bool, n: nat, i: nat)
    requires n <= |members| && i < n
    ensures GroupPairs(members, name, numbered, n)[i].0 == members[i].className
    decreases n
  {
    if i < n - 1 {
      GroupPairsKeys(members, name, numbered, n - 1, i);
    }
  }

  /** Storing the groups `keys` gives each class of a group among them its import name. */
  lemma {:induction false} AssignmentsValue(m: map<string, string>, cs: seq<Registry.ClassEntry>, exports: seq<string>, keys: seq<string>, c: Registry.ClassEntry)
    requires UniqueNames(cs) && c in cs && c.exportName in keys
    ensures c.className in Apply(m, Assignments(cs, exports, keys))
    ensures Apply(m, Assignments(cs, exports, keys))[c.className] == ImportName(cs, exports, c)
    decreases |keys|
  {
    var last := keys[|keys| - 1];
    var init := keys[..|keys| - 1];
    var members := Group(cs, last);
    var numbered := IsNumbered(cs, exports, last);
    var tail := GroupPairs(members, last, numbered, |members|);
    var before := Apply(m, Assignments(cs, exports, init));
    ApplyAppend(m, Assignments(cs, exports, init), tail);
    GroupUniqueNames(cs, last);
    if c.exportName == last {
      GroupPairsValue(before, members, last, numbered, |members|, IndexOf(members, c));
    } else {
      assert keys == init + [last];
      AssignmentsValue(m, cs, exports, init, c);
      forall i | 0 <= i < |tail| ensures tail[i].0 != c.className {
        GroupPairsKeys(members, last, numbered, |members|, i);
        var d := members[i];
        assert d in cs;
      }
      ApplyUntouched(before, tail, c.className);
    }
  }

  /** The keys the groups store are the names of classes of those groups. */
  lemma {:induction false} AssignmentsKeys(cs: seq<Registry.ClassEntry>, exports: seq<string>, keys: seq<string>, k: string)
    requires exists i :: 0 <= i < |Assignments(cs, exports, keys)| && Assignments(cs, exports, keys)[i].0 == k
    ensures exists c :: c in cs && c.exportName in keys && c.className == k
    decreases |keys|
  {
    var a := Assignments(cs, exports, keys);
    var i :| 0 <= i < |a| && a[i].0 == k;
    var last := keys[|keys| - 1];
    var init := keys[..|keys| - 1];
    var members := Group(cs, last);
    var head := Assignments(cs, exports, init);
    var tail := GroupPairs(members, last, IsNumbered(cs, exports, last), |members|);
    if i < |head| {
      assert head[i].0 == k;
      AssignmentsKeys(cs, exports, init, k);
      var c :| c in cs && c.exportName in init && c.className == k;
      assert c.exportName in keys;
    } else {
      assert tail[i - |head|].0 == k;
      GroupPairsKeys(members, last, IsNumbered(cs, exports, last), |members|, i - |head|);
      assert members[i - |head|] in members;
    }
  }

  /** The import names of a list of classes without repeated class names: every class
      is given its import name, and no other name is touched. */
  lemma ImportNamesSpec(m: map<string, string>, cs: seq<Registry.ClassEntry>, exports: seq<string>, k: string)
    requires UniqueNames(cs)
    ensures forall c :: c in cs ==>
      c.className in Apply(m, Assignments(cs, exports, GroupKeys(cs))) &&
      Apply(m, Assignments(cs, exports, GroupKeys(cs)))[c.className] == ImportName(cs, exports, c)
    ensures (forall c :: c in cs ==> c.className != k) ==>
      (k in Apply(m, Assignments(cs, exports, GroupKeys(cs))) <==> k in m) &&
      (k in m ==> Apply(m, Assignments(cs, exports, GroupKeys(cs)))[k] == m[k])
  {
    var keys := GroupKeys(cs);
    var a := Assignments(cs, exports, keys);
    forall c | c in cs
      ensures c.className in Apply(m, a) && Apply(m, a)[c.className] == ImportName(cs, exports, c)
    {
      var i := IndexOf(cs, c);
      assert ExportNamesOf(cs)[i] == c.exportName;
      AssignmentsValue(m, cs, exports, keys, c);
    }
    if forall c :: c in cs ==> c.className != k {
      forall i | 0 <= i < |a| ensures a[i].0 != k {
        if a[i].0 == k {
          AssignmentsKeys(cs, exports, keys, k);
        }
      }
      ApplyUntouched(m, a, k);
    }
  }

  /** A class keeps its bare export name exactly when it is alone under that name and
      no class of the file is exported under it. */
  lemma ImportNameBare(cs: seq<Registry.ClassEntry>, exports: seq<string>, c: Registry.ClassEntry)
    requires c in cs
    ensures ImportName(cs, exports, c) == c.exportName <==> |Group(cs, c.exportName)| == 1 && c.exportName !in exports
  {
    var g := Group(cs, c.exportName);
    assert c in g;
    if IsNumbered(cs, exports, c.exportName) {
      var suffix := Text.NatToString(IndexOf(g, c) + 1);
      assert |ImportName(cs, exports, c)| == |c.exportName| + |suffix|;
    } else {
      assert c.exportName + "" == c.exportName;
    }
  }

  /** Two classes under the same export name get different import names. */
  lemma ImportNamesDistinct(cs: seq<Registry.ClassEntry>, exports: seq<string>, c: Registry.ClassEntry, d: Registry.ClassEntry)
    requires c in cs && d in cs && c != d && c.exportName == d.exportName
    ensures ImportName(cs, exports, c) != ImportName(cs, exports, d)
  {
    var name := c.exportName;
    var g := Group(cs, name);
    assert c in g && d in g;
    var i := IndexOf(g, c);
    var j := IndexOf(g, d);
    assert i != j;
    Text.NatToStringInjective(i + 1, j + 1);
    var ci := Text.NatToString(i + 1);
    var dj := Text.NatToString(j + 1);
    assert (name + ci)[|name|..] == ci;
    assert (name + dj)[|name|..] == dj;
  }

  /** `_.uniq` of classes in which a class name always denotes the same class leaves no
      class name twice. */
  lemma UniqUniqueNames(used: seq<Registry.ClassEntry>)
    requires forall i, j :: 0 <= i < |used| && 0 <= j < |used| && used[i].className == used[j].className ==> used[i] == used[j]
    ensures UniqueNames(Seqs.Uniq(used))
  {
    var u := Seqs.Uniq(used);
    forall i, j | 0 <= i < j < |u| ensures u[i].className != u[j].className {
      assert u[i] in used && u[j] in used;
      var a := IndexOf(used, u[i]);
      var b := IndexOf(used, u[j]);
    }
  }

  // ---------------------------------------------------------------------------
  // Classes used (`_classNamesUsed`, `classesUsed`)

  /** The classes whose name patterns occur in the text, in pattern order. */
  function Matched(patterns: seq<Registry.ClassPattern>, occurs: Registry.ClassPattern -> bool): (r: seq<string>)
    ensures forall x :: x in r <==> exists p :: p in patterns && occurs(p) && p.className == x
    decreases |patterns|
  {
    if patterns == [] then []
    else
      var init := patterns[..|patterns| - 1];
      var last := patterns[|patterns| - 1];
      assert forall p :: p in patterns <==> p in init || p == last by {
        assert patterns == init + [last];
      }
      Matched(init, occurs) + if occurs(last) then [last.className] else []
  }

  /** `_classNamesUsed`: the classes of other files whose name occurs in the source text,
      each named once. `occurs(p)` says whether the pattern's regular expression matches
      the text. */
  function ClassNamesUsed(internal: seq<string>, patterns: seq<Registry.ClassPattern>, occurs: Registry.ClassPattern -> bool): (r: seq<string>)
    ensures Seqs.NoDuplicates(r)
    ensures forall x :: x in r <==> x !in internal && exists p :: p in patterns && occurs(p) && p.className == x
  {
    Seqs.Uniq(Seqs.Difference(Matched(patterns, occurs), internal))
  }

  /** Searched with the codebase's `classRe`, the used names are the classes of this
      codebase or of one it falls back to whose pattern occurs, except this file's own. */
  lemma ClassNamesUsedChain(internal: seq<string>, scope: Registry.Scope, occurs: Registry.ClassPattern -> bool, x: string)
    ensures x in ClassNamesUsed(internal, Registry.ClassRe(scope), occurs) <==>
      x !in internal && exists i, p :: 0 <= i < |Registry.Chain(scope)| && p in Registry.Chain(scope)[i].patterns && occurs(p) && p.className == x
  {
    var chain := Registry.Chain(scope);
    if x in ClassNamesUsed(internal, Registry.ClassRe(scope), occurs) {
      var p :| p in Registry.ClassRe(scope) && occurs(p) && p.className == x;
      Registry.ClassReMembers(scope, p);
    }
    if exists i, p :: 0 <= i < |chain| && p in chain[i].patterns && occurs(p) && p.className == x {
      var i, p :| 0 <= i < |chain| && p in chain[i].patterns && occurs(p) && p.className == x;
      Registry.ClassReMembers(scope, p);
    }
  }

  /** The class names the used aliases resolve to, in order. */
  function AliasTargets(scope: Registry.Scope, aliases: seq<string>): (r: seq<string>)
    ensures forall x :: x in r <==> exists a :: a in aliases && Registry.ClassNameForAlias(scope, a) == Some(x)
    decreases |aliases|
  {
    if aliases == [] then []
    else
      var init := aliases[..|aliases| - 1];
      var last := aliases[|aliases| - 1];
      assert forall a :: a in aliases <==> a in init || a == last by {
        assert aliases == init + [last];
      }
      AliasTargets(scope, init) + match Registry.ClassNameForAlias(scope, last) case Some(x) => [x] case None => []
  }

  /** The used aliases that resolve to no class, in order. */
  function UnresolvedAliases(scope: Registry.Scope, aliases: seq<string>): (r: seq<string>)
    ensures forall a :: a in r <==> a in aliases && Registry.ClassNameForAlias(scope, a).None?
    decreases |aliases|
  {
    if aliases == [] then []
    else
      var init := aliases[..|aliases| - 1];
      var last := aliases[|aliases| - 1];
      assert forall a :: a in aliases <==> a in init || a == last by {
        assert aliases == init + [last];
      }
      UnresolvedAliases(scope, init) + if Registry.ClassNameForAlias(scope, last).None? then [last] else []
  }

  /** The classes the used names resolve to, in order. */
  function Found(scope: Registry.Scope, names: seq<string>): (r: seq<Registry.Resolved>)
    ensures forall c :: c in r <==> exists n :: n in names && Registry.ClassForName(scope, n) == Some(c)
    decreases |names|
  {
    if names == [] then []
    else
      var init := names[..|names| - 1];
      var last := names[|names| - 1];
      assert forall n :: n in names <==> n in init || n == last by {
        assert names == init + [last];
      }
      Found(scope, init) + match Registry.ClassForName(scope, last) case Some(c) => [c] case None => []
  }

  /** The used names that resolve to no class, in order. */
  function Unresolved(scope: Registry.Scope, names: seq<string>): (r: seq<string>)
    ensures forall n :: n in r <==> n in names && Registry.ClassForName(scope, n).None?
    decreases |names|
  {
    if names == [] then []
    else
      var init := names[..|names| - 1];
      var last := names[|names| - 1];
      assert forall n :: n in names <==> n in init || n == last by {
        assert names == init + [last];
      }
      Unresolved(scope, init) + if Registry.ClassForName(scope, last).None? then [last] else []
  }

  /** One more alias resolved, as the loop of `classesUsed` does it. */
  lemma AliasStep(scope: Registry.Scope, aliases: seq<string>, i: nat)
    requires i < |aliases|
    ensures AliasTargets(scope, aliases[..i + 1]) ==
      AliasTargets(scope, aliases[..i]) + match Registry.ClassNameForAlias(scope, aliases[i]) case Some(x) => [x] case None => []
    ensures UnresolvedAliases(scope, aliases[..i + 1]) ==
      UnresolvedAliases(scope, aliases[..i]) + if Registry.ClassNameForAlias(scope, aliases[i]).None? then [aliases[i]] else []
  {
    assert aliases[..i + 1][..i] == aliases[..i];
  }

  /** One more class name resolved, as the loop of `classesUsed` does it. */
  lemma NameStep(scope: Registry.Scope, names: seq<string>, j: nat)
    requires j < |names|
    ensures Found(scope, names[..j + 1]) ==
      Found(scope, names[..j]) + match Registry.ClassForName(scope, names[j]) case Some(c) => [c] case None => []
    ensures Unresolved(scope, names[..j + 1]) ==
      Unresolved(scope, names[..j]) + if Registry.ClassForName(scope, names[j]).None? then [names[j]] else []
  {
    assert names[..j + 1][..j] == names[..j];
  }

  /** Nothing used goes unaccounted for: a used alias is unknown, or its class name is
      unknown, or its class is among the classes used; a used class name is unknown or
      its class is used. */
  lemma UsedAccounted(scope: Registry.Scope, aliases: seq<string>, classNames: seq<string>, a: string, n: string)
    ensures var names := classNames + AliasTargets(scope, aliases);
      var used := Seqs.Uniq(Found(scope, names));
      (a in aliases ==>
        a in UnresolvedAliases(scope, aliases) ||
        Registry.ClassNameForAlias(scope, a).value in Unresolved(scope, names) ||
        Registry.ClassForName(scope, Registry.ClassNameForAlias(scope, a).value).value in used) &&
      (n in classNames ==> n in Unresolved(scope, names) || Registry.ClassForName(scope, n).value in used)
  {
    var names := classNames + AliasTargets(scope, aliases);
    if a in aliases && Registry.ClassNameForAlias(scope, a).Some? {
      var x := Registry.ClassNameForAlias(scope, a).value;
      assert x in AliasTargets(scope, aliases);
      assert x in names;
    }
    if n in classNames {
      assert n in names;
    }
  }

  // ---------------------------------------------------------------------------
  // Unparsed code (`getUnparsedCode`, after the pruning)

  /** The code of a file left as it is: nothing when every class of the file is kept
      unparsed; otherwise the printed file, trimmed, with its first `Ext.define(` made
      `try{(` and the whole closed by `} catch(e){}`. `unparsed` lists the classes'
      flags and `code` is the printed file. */
  function UnparsedCode(unparsed: seq<bool>, code: string): string {
    if forall k :: 0 <= k < |unparsed| ==> unparsed[k] then ""
    else
      var t := Text.Trim(code);
      match Text.Find(t, "Ext.define(", 0)
      case None => t
      case Some(i) => t[..i] + "try{(" + t[i + |"Ext.define("|..] + "} catch(e){}"
  }

  /** The unparsed code is empty exactly when every class is kept unparsed or the
      printed file is blank; a `try` wrapper is added exactly when it defines a class. */
  lemma UnparsedCodeSpec(unparsed: seq<bool>, code: string)
    ensures UnparsedCode(unparsed, code) == "" <==>
      (forall k :: 0 <= k < |unparsed| ==> unparsed[k]) || Text.Trim(code) == ""
    ensures (exists k :: 0 <= k < |unparsed| && !unparsed[k]) ==>
      var t := Text.Trim(code);
      if exists j :: Text.OccursAt(t, "Ext.define(", j)
      then Text.EndsWith(UnparsedCode(unparsed, code), "} catch(e){}")
      else UnparsedCode(unparsed, code) == t
  {
    var t := Text.Trim(code);
    if exists k :: 0 <= k < |unparsed| && !unparsed[k] {
      var r := UnparsedCode(unparsed, code);
      match Text.Find(t, "Ext.define(", 0)
      case None =>
      case Some(i) =>
        var head := t[..i] + "try{(" + t[i + |"Ext.define("|..];
        assert r == head + "} catch(e){}";
        assert r[|head|..] == "} catch(e){}";
        assert |r| > 0;
    }
  }

  // ---------------------------------------------------------------------------
  // The file's state

  /** The classes of a list that are written out on their own (`undiscardedClasses`). */
  function UndiscardedOf(cs: seq<ExtClass.ExtJSClass>): (r: seq<ExtClass.ExtJSClass>)
    reads cs
    ensures |r| <= |cs|
    ensures forall k :: 0 <= k < |r| ==> r[k] in cs && !r[k].Discard()
    ensures forall k :: 0 <= k < |cs| && !cs[k].Discard() ==> cs[k] in r
    decreases |cs|
  {
    if cs == [] then []
    else
      var init := cs[..|cs| - 1];
      var last := cs[|cs| - 1];
      assert forall k :: 0 <= k < |init| ==> cs[k] == init[k];
      UndiscardedOf(init) + if last.Discard() then [] else [last]
  }

  function ClassNamesOf(cs: seq<ExtClass.ExtJSClass>): (r: seq<string>)
    ensures |r| == |cs| && forall k :: 0 <= k < |cs| ==> r[k] == cs[k].className
    decreases |cs|
  {
    if cs == [] then [] else ClassNamesOf(cs[..|cs| - 1]) + [cs[|cs| - 1].className]
  }

  function ExportsOf(cs: seq<ExtClass.ExtJSClass>): (r: seq<string>)
    ensures |r| == |cs| && forall k :: 0 <= k < |cs| ==> r[k] == cs[k].exportName
    decreases |cs|
  {
    if cs == [] then [] else ExportsOf(cs[..|cs| - 1]) + [cs[|cs| - 1].exportName]
  }

  /** The first loop of `classesUsed`: each used alias is resolved into a class name,
      which is added to the used class names, or recorded as unknown. */
  method ResolveAliases(scope: Registry.Scope, aliases: seq<string>, classNames: seq<string>)
    returns (names: seq<string>, badAliases: seq<string>)
    ensures names == classNames + AliasTargets(scope, aliases)
    ensures badAliases == UnresolvedAliases(scope, aliases)
  {
    names := classNames;
    badAliases := [];
    var i := 0;
    while i < |aliases|
      invariant 0 <= i <= |aliases|
      invariant names == classNames + AliasTargets(scope, aliases[..i])
      invariant badAliases == UnresolvedAliases(scope, aliases[..i])
    {
      AliasStep(scope, aliases, i);
      ghost var targets := AliasTargets(scope, aliases[..i]);
      var className := Registry.ClassNameForAlias(scope, aliases[i]);
      if className.Some? {
        names := names + [className.value];
        assert names == classNames + (targets + [className.value]);
      } else {
        badAliases := badAliases + [aliases[i]];
      }
      i := i + 1;
    }
    assert aliases[..|aliases|] == aliases;
  }

  /** The second loop of `classesUsed`: each used class name is resolved into a class
      or recorded as unknown. */
  method ResolveNames(scope: Registry.Scope, names: seq<string>)
    returns (found: seq<Registry.Resolved>, badNames: seq<string>)
    ensures found == Found(scope, names)
    ensures badNames == Unresolved(scope, names)
  {
    found := [];
    badNames := [];
    var j := 0;
    while j < |names|
      invariant 0 <= j <= |names|
      invariant found == Found(scope, names[..j])
      invariant badNames == Unresolved(scope, names[..j])
    {
      NameStep(scope, names, j);
      var cls := Registry.ClassForName(scope, names[j]);
      if cls.Some? {
        found := found + [cls.value];
      } else {
        badNames := badNames + [names[j]];
      }
      j := j + 1;
    }
    assert names[..|names|] == names;
  }

  /** The inner loop of `init`: the classes of one group stored under their names. */
  method AssignGroup(base: map<string, string>, members: seq<Registry.ClassEntry>, g: string, numbered: bool)
    returns (names: map<string, string>)
    ensures names == Apply(base, GroupPairs(members, g, numbered, |members|))
  {
    names := base;
    var i := 0;
    while i < |members|
      invariant 0 <= i <= |members|
      invariant names == Apply(base, GroupPairs(members, g, numbered, i))
    {
      names := names[members[i].className := g + if numbered then Text.NatToString(i + 1) else ""];
      i := i + 1;
      assert GroupPairs(members, g, numbered, i)[..i - 1] == GroupPairs(members, g, numbered, i - 1);
    }
  }

  lemma AssignmentsStep(cs: seq<Registry.ClassEntry>, exports: seq<string>, keys: seq<string>, k: nat)
    requires k < |keys|
    ensures Assignments(cs, exports, keys[..k + 1]) ==
      Assignments(cs, exports, keys[..k]) + GroupPairs(Group(cs, keys[k]), keys[k], IsNumbered(cs, exports, keys[k]), |Group(cs, keys[k])|)
  {
    assert keys[..k + 1][..k] == keys[..k];
  }

  lemma AssignStep(m: map<string, string>, cs: seq<Registry.ClassEntry>, exports: seq<string>, keys: seq<string>, k: nat,
                   before: map<string, string>, after: map<string, string>)
    requires k < |keys|
    requires before == Apply(m, Assignments(cs, exports, keys[..k]))
    requires after == Apply(before, GroupPairs(Group(cs, keys[k]), keys[k], IsNumbered(cs, exports, keys[k]), |Group(cs, keys[k])|))
    ensures after == Apply(m, Assignments(cs, exports, keys[..k + 1]))
  {
    var pairs := GroupPairs(Group(cs, keys[k]), keys[k], IsNumbered(cs, exports, keys[k]), |Group(cs, keys[k])|);
    ApplyAppend(m, Assignments(cs, exports, keys[..k]), pairs);
    AssignmentsStep(cs, exports, keys, k);
  }

  /** The outer loop of `init` over a list of distinct classes: group by group, every
      class is stored under its class name with its import name. */
  method AssignImportNames(m: map<string, string>, cs: seq<Registry.ClassEntry>, exports: seq<string>)
    returns (names: map<string, string>)
    ensures names == Apply(m, Assignments(cs, exports, GroupKeys(cs)))
  {
    var keys := GroupKeys(cs);
    names := m;
    var k := 0;
    while k < |keys|
      invariant 0 <= k <= |keys|
      invariant names == Apply(m, Assignments(cs, exports, keys[..k]))
    {
      var g := keys[k];
      var members := Group(cs, g);
      var numbered := |members| > 1 || g in exports;
      ghost var before := names;
      names := AssignGroup(names, members, g, numbered);
      AssignStep(m, cs, exports, keys, k, before, names);
      k := k + 1;
    }
    assert keys[..|keys|] == keys;
  }

  class SourceFile {
    const codeFilePath: string
    /** The classes defined in the file (`classes`). */
    var classes: seq<ExtClass.ExtJSClass>
    /** Import name by class name (`_importNames`). */
    var importNames: map<string, string>
    /** Used aliases and class names that resolve to nothing (`unknown`). */
    var unknownAliases: seq<string>
    var unknownClassNames: seq<string>
    /** The memoised result of `classesUsed`. */
    var classesUsedMemo: Option<seq<Registry.Resolved>>

    constructor(codeFilePath: string, classes: seq<ExtClass.ExtJSClass>)
      ensures this.codeFilePath == codeFilePath && this.classes == classes
      ensures importNames == map[] && unknownAliases == [] && unknownClassNames == []
      ensures classesUsedMemo == None
    {
      this.codeFilePath := codeFilePath;
      this.classes := classes;
      importNames := map[];
      unknownAliases := [];
      unknownClassNames := [];
      classesUsedMemo := None;
    }

    function Undiscarded(): seq<ExtClass.ExtJSClass>
      reads this, classes
    {
      UndiscardedOf(classes)
    }

    /** `discard`: the file is not written when all of its classes are discarded (a file
        without classes included). */
    predicate Discard()
      reads this, classes
    {
      Undiscarded() == []
    }

    /** The file is discarded exactly when every one of its classes is. */
    lemma DiscardSpec()
      ensures Discard() <==> forall k :: 0 <= k < |classes| ==> classes[k].Discard()
    {
      var r := Undiscarded();
      if r != [] {
        assert r[0] in classes;
        var k :| 0 <= k < |classes| && classes[k] == r[0];
      }
    }

    /** `getImportNameForClassName`. */
    function ImportNameFor(className: string): (r: Option<string>)
      reads this
      ensures r.Some? <==> className in importNames
      ensures r.Some? ==> r.value == importNames[className]
    {
      if className in importNames then Some(importNames[className]) else None
    }

    /** `classesUsed`: resolves the used aliases into class names and all used class
        names into classes, and records those that resolve to nothing. The result is
        memoised: a second call returns the first result and changes nothing. `aliases`
        is `_aliasesUsed`; `occurs(p)` says whether the pattern `p` of `classRe` occurs
        in the file's text. */
    method ClassesUsed(scope: Registry.Scope, aliases: seq<string>, occurs: Registry.ClassPattern -> bool)
      returns (r: seq<Registry.Resolved>)
      modifies this
      ensures classes == old(classes) && importNames == old(importNames)
      ensures classesUsedMemo == Some(r)
      ensures old(classesUsedMemo).Some? ==>
        r == old(classesUsedMemo).value &&
        unknownAliases == old(unknownAliases) && unknownClassNames == old(unknownClassNames)
      ensures old(classesUsedMemo).None? ==>
        var names := ClassNamesUsed(ClassNamesOf(classes), Registry.ClassRe(scope), occurs) + AliasTargets(scope, aliases);
        r == Seqs.Uniq(Found(scope, names)) &&
        unknownAliases == old(unknownAliases) + UnresolvedAliases(scope, aliases) &&
        unknownClassNames == old(unknownClassNames) + Unresolved(scope, names)
    {
      if classesUsedMemo.Some? {
        r := classesUsedMemo.value;
        return;
      }
      var classNames := ClassNamesUsed(ClassNamesOf(classes), Registry.ClassRe(scope), occurs);
      var names, badAliases := ResolveAliases(scope, aliases, classNames);
      var found, badNames := ResolveNames(scope, names);
      r := Seqs.Uniq(found);
      unknownAliases := unknownAliases + badAliases;
      unknownClassNames := unknownClassNames + badNames;
      classesUsedMemo := Some(r);
    }

    /** `init`: gives every used class its import name. `used` lists the classes this
        file uses followed by those the files of its assimilated classes use. */
    method Init(used: seq<Registry.ClassEntry>)
      modifies this
      ensures importNames == Apply(old(importNames),
        Assignments(Seqs.Uniq(used), old(ExportsOf(Undiscarded())), GroupKeys(Seqs.Uniq(used))))
      ensures classes == old(classes) && classesUsedMemo == old(classesUsedMemo)
      ensures unknownAliases == old(unknownAliases) && unknownClassNames == old(unknownClassNames)
    {
      var exports := ExportsOf(UndiscardedOf(classes));
      importNames := AssignImportNames(importNames, Seqs.Uniq(used), exports);
    }

    /** `getImportsCode(libraries)`: the library imports the code requires, then the
        imports of the files that hold the imported classes, in print order. */
    method ImportsCode(libraries: seq<string>, files: seq<FileImport>) returns (r: Option<seq<string>>)
      ensures r == ImportsCodeOf(codeFilePath, libraries, files)
    {
      var libs := CollectLibs(LibImports, libraries);
      var collected := CollectFiles(codeFilePath, libs, files);
      if collected.None? {
        return None;
      }
      var imps := collected.value;
      var sources := SortedSources(imps);
      forall s | s in sources ensures s in imps.entries {
        Seqs.SortMembers(imps.order, ImportLe(), s);
      }
      r := Some(ImportLines(imps.entries, sources));
    }
  }

  // ---------------------------------------------------------------------------
  // Getter and setter calls (`renameConfigCalls`, the rule for one call)

  /** What becomes of one call: left as it is, or replaced by the given code. */
  datatype Rename = Keep | Replace(code: string)

  /** The config a `getFoo`/`setFoo` method name refers to: `foo`. */
  function ConfigNameOf(call: string): string {
    if |call| < 3 then "" else Text.LowerFirst(call[3..])
  }

  /** The rule for a call whose callee prints as `callee` and whose arguments print as
      `args`: `x.getFoo()` becomes `x.foo` and `x.setFoo(v)` becomes `x.foo = v` when
      `foo` is an accessor of the file's classes or of the classes it imports. */
  function RenameRule(callee: string, args: seq<string>, accessors: seq<string>): Rename {
    var parts := Text.Split(callee, '.');
    var call := parts[|parts| - 1];
    var isGetter := Text.StartsWith(call, "get");
    var isSetter := Text.StartsWith(call, "set");
    var configName := ConfigNameOf(call);
    if (!isGetter && !isSetter) || configName !in accessors then Keep
    else
      var target := Text.Join(parts[..|parts| - 1] + [configName], ".");
      if isGetter && |args| == 0 then Replace(target)
      else if isSetter && |args| == 1 then Replace(target + " = " + args[0])
      else Keep
  }

  function PrintAll(printer: Ast.Node -> string, ns: seq<Ast.Node>): (r: seq<string>)
    ensures |r| == |ns|
  {
    if ns == [] then [] else [printer(ns[0])] + PrintAll(printer, ns[1..])
  }

  /** The rule applied to a call node; only a call of a member expression qualifies. */
  function RenameConfigCall(printer: Ast.Node -> string, n: Ast.Node, accessors: seq<string>): (r: Rename)
    ensures r.Replace? ==> n.Call? && n.callee.Member?
    ensures n.Call? && n.callee.Member? ==>
      r == RenameRule(printer(n.callee), PrintAll(printer, n.arguments), accessors)
  {
    match n
    case Call(callee, arguments) =>
      if callee.Member? then RenameRule(printer(callee), PrintAll(printer, arguments), accessors) else Keep
    case _ => Keep
  }

  /** A call is rewritten exactly when its method is `get<Config>` with no argument or
      `set<Config>` with one, for a known accessor `<config>`. */
  lemma RenameRuleReplaces(callee: string, args: seq<string>, accessors: seq<string>)
    ensures var parts := Text.Split(callee, '.');
            var call := parts[|parts| - 1];
            RenameRule(callee, args, accessors).Replace? <==>
              ConfigNameOf(call) in accessors &&
              ((Text.StartsWith(call, "get") && |args| == 0) ||
               (Text.StartsWith(call, "set") && |args| == 1))
  {
    var parts := Text.Split(callee, '.');
    var call := parts[|parts| - 1];
    if Text.StartsWith(call, "get") {
      assert call[..3] == "get";
      assert !Text.StartsWith(call, "set") by { assert call[0] == 'g'; }
    }
  }

  /** Splitting `obj.<last>` on dots gives back the object's parts and then `last`. */
  lemma SplitMember(obj: seq<string>, last: string)
    requires forall k :: 0 <= k < |obj| ==> '.' !in obj[k]
    requires '.' !in last
    ensures Text.Split(Text.Join(obj + [last], "."), '.') == obj + [last]
  {
    var all := obj + [last];
    forall k | 0 <= k < |all| ensures '.' !in all[k] {
      if k < |obj| { assert all[k] == obj[k]; }
    }
    assert "." == ['.'];
    Text.SplitJoin(all, '.');
  }

  /** The config name of `get` or `set` followed by the upper-cased name is that name. */
  lemma ConfigNameOfAccessor(verb: string, config: string)
    requires |verb| == 3
    requires config != [] && !Text.IsUpper(config[0])
    ensures ConfigNameOf(verb + Text.UpperFirst(config)) == config
  {
    var call := verb + Text.UpperFirst(config);
    assert call[3..] == Text.UpperFirst(config);
    var l := Text.LowerFirst(call[3..]);
    assert l[0] == config[0];
    assert l[1..] == config[1..];
    assert l == [l[0]] + l[1..];
    assert config == [config[0]] + config[1..];
  }

  /** An accessor method name has no dot when the config name has none. */
  lemma AccessorCallName(verb: string, config: string)
    requires |verb| == 3 && '.' !in verb && '.' !in config
    ensures '.' !in verb + Text.UpperFirst(config)
  {
    var u := Text.UpperFirst(config);
    forall i | 0 <= i < |u| ensures u[i] != '.' {
      if i == 0 { assert config[0] in config; } else { assert u[i] == config[i]; assert config[i] in config; }
    }
    var call := verb + u;
    forall i | 0 <= i < |call| ensures call[i] != '.' {
      if i < 3 { assert call[i] == verb[i]; assert verb[i] in verb; } else { assert call[i] == u[i - 3]; }
    }
  }

  /** `obj.getFoo()` becomes `obj.foo` for a known accessor `foo`. */
  lemma GetterBecomesProperty(obj: seq<string>, config: string, accessors: seq<string>)
    requires forall k :: 0 <= k < |obj| ==> '.' !in obj[k]
    requires config != [] && !Text.IsUpper(config[0]) && '.' !in config
    requires config in accessors
    ensures RenameRule(Text.Join(obj + ["get" + Text.UpperFirst(config)], "."), [], accessors)
         == Replace(Text.Join(obj + [config], "."))
  {
    var call := "get" + Text.UpperFirst(config);
    AccessorCallName("get", config);
    ConfigNameOfAccessor("get", config);
    VerbOf("get", Text.UpperFirst(config));
    SplitMember(obj, call);
    RuleOnParts(Text.Join(obj + [call], "."), obj, call, [], accessors);
  }

  /** `obj.setFoo(v)` becomes `obj.foo = v` for a known accessor `foo`. */
  lemma SetterBecomesAssignment(obj: seq<string>, config: string, v: string, accessors: seq<string>)
    requires forall k :: 0 <= k < |obj| ==> '.' !in obj[k]
    requires config != [] && !Text.IsUpper(config[0]) && '.' !in config
    requires config in accessors
    ensures RenameRule(Text.Join(obj + ["set" + Text.UpperFirst(config)], "."), [v], accessors)
         == Replace(Text.Join(obj + [config], ".") + " = " + v)
  {
    var call := "set" + Text.UpperFirst(config);
    AccessorCallName("set", config);
    ConfigNameOfAccessor("set", config);
    VerbOf("set", Text.UpperFirst(config));
    SplitMember(obj, call);
    RuleOnParts(Text.Join(obj + [call], "."), obj, call, [v], accessors);
  }

  /** Which of `get` and `set` a method name starts with. */
  lemma VerbOf(verb: string, rest: string)
    requires verb == "get" || verb == "set"
    ensures Text.StartsWith(verb + rest, "get") <==> verb == "get"
    ensures Text.StartsWith(verb + rest, "set") <==> verb == "set"
  {
    var call := verb + rest;
    assert call[..3] == verb;
  }

  /** The rule on a callee whose dotted parts are known. */
  lemma RuleOnParts(callee: string, obj: seq<string>, call: string, args: seq<string>, accessors: seq<string>)
    requires Text.Split(callee, '.') == obj + [call]
    ensures var isGetter := Text.StartsWith(call, "get");
      var isSetter := Text.StartsWith(call, "set");
      var configName := ConfigNameOf(call);
      var target := Text.Join(obj + [configName], ".");
      RenameRule(callee, args, accessors) ==
        if (!isGetter && !isSetter) || configName !in accessors then Keep
        else if isGetter && |args| == 0 then Replace(target)
        else if isSetter && |args| == 1 then Replace(target + " = " + args[0])
        else Keep
  {
    var parts := obj + [call];
    assert parts[|parts| - 1] == call;
    assert parts[..|parts| - 1] == obj;
  }

  // ---------------------------------------------------------------------------
  // The import statements of a file (`getImportsCode`)

  /** One import statement: the default import and the named specifiers, either of which
      may be absent (`undefined`). */
  datatype ImportEntry = ImportEntry(default: Option<string>, specifiers: Option<seq<string>>)

  /** A library the generated code may need, with its default export and named exports. */
  datatype Lib = Lib(source: string, default: Option<string>, specifiers: seq<string>)

  const LibImports: seq<Lib> := [
    Lib("framework", None, ["define", "Template"]),
    Lib("app", Some("App"), []),
    Lib("react", Some("React"), ["useMemo", "useEffect"]),
    Lib("lodash", Some("_"), [])
  ]

  /** The import of `lib` given the names the code requires: its default when that is
      required, and those of its specifiers that are required, if either is there. */
  function LibEntry(lib: Lib, libraries: seq<string>): Option<ImportEntry> {
    var default := if lib.default.Some? && lib.default.value in libraries then lib.default else None;
    var specifiers := Seqs.Intersection(lib.specifiers, libraries);
    if default.Some? || |specifiers| > 0 then Some(ImportEntry(default, Some(specifiers))) else None
  }

  /** A library is imported exactly when its default or one of its specifiers is required,
      and then with exactly the required specifiers. */
  lemma LibEntrySpec(lib: Lib, libraries: seq<string>)
    ensures LibEntry(lib, libraries).Some? <==>
      (lib.default.Some? && lib.default.value in libraries) ||
      (exists x :: x in lib.specifiers && x in libraries)
    ensures LibEntry(lib, libraries).Some? ==>
      var e := LibEntry(lib, libraries).value;
      (e.default.Some? <==> lib.default.Some? && lib.default.value in libraries) &&
      (e.default.Some? ==> e.default == lib.default) &&
      e.specifiers.Some? && Seqs.NoDuplicates(e.specifiers.value) &&
      forall x :: x in e.specifiers.value <==> x in lib.specifiers && x in libraries
  {
    var specifiers := Seqs.Intersection(lib.specifiers, libraries);
    if exists x :: x in lib.specifiers && x in libraries {
      var x :| x in lib.specifiers && x in libraries;
      assert x in specifiers;
    }
    if |specifiers| > 0 {
      assert specifiers[0] in specifiers;
    }
  }

  /** The imports collected so far, by source, with the order in which sources were added. */
  datatype Imports = Imports(entries: map<string, ImportEntry>, order: seq<string>)

  predicate WellFormed(imps: Imports) {
    Seqs.NoDuplicates(imps.order) &&
    (forall s :: s in imps.entries ==> s in imps.order) &&
    (forall s :: s in imps.order ==> s in imps.entries)
  }

  /** `imports[source] = entry`. */
  function Put(imps: Imports, source: string, entry: ImportEntry): (r: Imports)
    requires WellFormed(imps)
    ensures WellFormed(r)
    ensures r.entries == imps.entries[source := entry]
  {
    if source in imps.entries then Imports(imps.entries[source := entry], imps.order)
    else Imports(imps.entries[source := entry], imps.order + [source])
  }

  /** The library imports, library by library. */
  function AddLibs(libs: seq<Lib>, libraries: seq<string>): (r: Imports)
    ensures WellFormed(r)
    decreases |libs|
  {
    if libs == [] then Imports(map[], [])
    else
      var imps := AddLibs(libs[..|libs| - 1], libraries);
      var lib := libs[|libs| - 1];
      match LibEntry(lib, libraries)
      case None => imps
      case Some(e) => Put(imps, lib.source, e)
  }

  predicate DistinctSources(libs: seq<Lib>) {
    forall i, j :: 0 <= i < j < |libs| ==> libs[i].source != libs[j].source
  }

  /** With distinct sources, every library is imported exactly as `LibEntry` says. */
  lemma {:induction false} AddLibsEntry(libs: seq<Lib>, libraries: seq<string>, k: nat)
    requires DistinctSources(libs) && k < |libs|
    ensures var imps := AddLibs(libs, libraries);
      var e := LibEntry(libs[k], libraries);
      (libs[k].source in imps.entries <==> e.Some?) &&
      (e.Some? ==> imps.entries[libs[k].source] == e.value)
    decreases |libs|
  {
    var init := libs[..|libs| - 1];
    var lib := libs[|libs| - 1];
    var imps := AddLibs(init, libraries);
    var last := LibEntry(lib, libraries);
    assert AddLibs(libs, libraries) == if last.None? then imps else Put(imps, lib.source, last.value);
    if k < |init| {
      assert DistinctSources(init);
      AddLibsEntry(init, libraries, k);
      assert init[k] == libs[k];
      assert libs[k].source != lib.source;
    } else {
      assert libs[k] == lib;
      if lib.source in imps.entries {
        AddLibsSources(init, libraries, lib.source);
        assert false;
      }
    }
  }

  /** Only the sources of the libraries are imported. */
  lemma {:induction false} AddLibsSources(libs: seq<Lib>, libraries: seq<string>, s: string)
    requires s in AddLibs(libs, libraries).entries
    ensures exists k :: 0 <= k < |libs| && libs[k].source == s
    decreases |libs|
  {
    var init := libs[..|libs| - 1];
    var lib := libs[|libs| - 1];
    if s != lib.source {
      AddLibsSources(init, libraries, s);
      var k :| 0 <= k < |init| && init[k].source == s;
      assert libs[k] == init[k];
    }
  }

  /** The sources of the four libraries are distinct. */
  lemma LibImportsDistinct()
    ensures DistinctSources(LibImports)
  {
    var ss := ["framework", "app", "react", "lodash"];
    assert forall k :: 0 <= k < 4 ==> LibImports[k].source == ss[k];
    assert ss[0][0] == 'f' && ss[1][0] == 'a' && ss[2][0] == 'r' && ss[3][0] == 'l';
  }

  /** A file the code imports classes from: the path it is imported by, its number of
      undiscarded classes, and the import names of the imported undiscarded classes in it. */
  datatype FileImport = FileImport(importFilePath: string, undiscarded: nat, names: seq<string>)

  function RemoveSuffix(s: string, suffix: string): (r: string)
    ensures Text.EndsWith(s, suffix) ==> r + suffix == s
    ensures !Text.EndsWith(s, suffix) ==> r == s
  {
    if Text.EndsWith(s, suffix) then s[..|s| - |suffix|] else s
  }

  /** The import source of a file: its path relative to the code file without `.js` and
      `/index`, or `framework` for a path ending in `/framework`. `None` where the
      relative path raises. */
  function ImportSource(codeFilePath: string, importFilePath: string): (r: Option<string>)
    ensures r.Some? ==> r.value == "framework" || !Text.EndsWith(r.value, "/framework")
    ensures r.None? <==> Util.RelativePath(codeFilePath, importFilePath).None?
  {
    match Util.RelativePath(codeFilePath, importFilePath)
    case None => None
    case Some(path) =>
      var source := RemoveSuffix(RemoveSuffix(path, ".js"), "/index");
      Some(if Text.EndsWith(source, "/framework") then "framework" else source)
  }

  /** The import of one file: a file with at most one undiscarded class is imported by its
      default export, named after the first of the sorted names; otherwise the sorted names
      are added to the named specifiers of its source, which raises (`None`) when that
      source already has a default-only import. */
  function AddFile(imps: Imports, source: string, f: FileImport): (r: Option<Imports>)
    requires WellFormed(imps)
    ensures r.Some? ==> WellFormed(r.value)
  {
    var specifiers := Seqs.Sort(f.names, Seqs.StringLe());
    if f.undiscarded <= 1 then
      Some(Put(imps, source, ImportEntry(if specifiers == [] then None else Some(specifiers[0]), None)))
    else if source in imps.entries then
      match imps.entries[source].specifiers
      case None => None
      case Some(existing) => Some(Put(imps, source, ImportEntry(imps.entries[source].default, Some(existing + specifiers))))
    else Some(Put(imps, source, ImportEntry(None, Some(specifiers))))
  }

  /** The file imports, file by file, after the library imports. */
  function AddFiles(codeFilePath: string, libs: Imports, files: seq<FileImport>): (r: Option<Imports>)
    requires WellFormed(libs)
    ensures r.Some? ==> WellFormed(r.value)
    decreases |files|
  {
    if files == [] then Some(libs)
    else
      match AddFiles(codeFilePath, libs, files[..|files| - 1])
      case None => None
      case Some(imps) =>
        var f := files[|files| - 1];
        match ImportSource(codeFilePath, f.importFilePath)
        case None => None
        case Some(source) => AddFile(imps, source, f)
  }

  lemma AddLibsStep(libs: seq<Lib>, libraries: seq<string>, i: nat)
    requires i < |libs|
    ensures AddLibs(libs[..i + 1], libraries) ==
      match LibEntry(libs[i], libraries)
      case None => AddLibs(libs[..i], libraries)
      case Some(e) => Put(AddLibs(libs[..i], libraries), libs[i].source, e)
  {
    assert libs[..i + 1][..i] == libs[..i];
  }

  lemma AddFilesStep(codeFilePath: string, libs: Imports, files: seq<FileImport>, i: nat, imps: Imports)
    requires WellFormed(libs) && WellFormed(imps) && i < |files|
    requires AddFiles(codeFilePath, libs, files[..i]) == Some(imps)
    ensures AddFiles(codeFilePath, libs, files[..i + 1]) ==
      match ImportSource(codeFilePath, files[i].importFilePath)
      case None => None
      case Some(source) => AddFile(imps, source, files[i])
  {
    assert files[..i + 1][..i] == files[..i];
  }

  /** The loop of `getImportsCode` over the libraries. */
  method CollectLibs(libs: seq<Lib>, libraries: seq<string>) returns (imps: Imports)
    ensures imps == AddLibs(libs, libraries)
  {
    imps := Imports(map[], []);
    for i := 0 to |libs|
      invariant imps == AddLibs(libs[..i], libraries)
    {
      AddLibsStep(libs, libraries, i);
      var e := LibEntry(libs[i], libraries);
      if e.Some? {
        imps := Put(imps, libs[i].source, e.value);
      }
    }
    assert libs[..|libs|] == libs;
  }

  /** The loop of `getImportsCode` over the imported files, after the libraries. */
  method CollectFiles(codeFilePath: string, libs: Imports, files: seq<FileImport>) returns (r: Option<Imports>)
    requires WellFormed(libs)
    ensures r == AddFiles(codeFilePath, libs, files)
  {
    var imps := libs;
    for i := 0 to |files|
      invariant WellFormed(imps)
      invariant AddFiles(codeFilePath, libs, files[..i]) == Some(imps)
    {
      var source := ImportSource(codeFilePath, files[i].importFilePath);
      var next := if source.None? then None else AddFile(imps, source.value, files[i]);
      AddFilesStep(codeFilePath, libs, files, i, imps);
      if next.None? {
        AddFilesNone(codeFilePath, libs, files, i + 1);
        return None;
      }
      imps := next.value;
    }
    assert files[..|files|] == files;
    r := Some(imps);
  }

  /** Once a file raises, the whole collection does. */
  lemma {:induction false} AddFilesNone(codeFilePath: string, libs: Imports, files: seq<FileImport>, i: nat)
    requires WellFormed(libs)
    requires 0 < i <= |files| && AddFiles(codeFilePath, libs, files[..i]).None?
    ensures AddFiles(codeFilePath, libs, files).None?
    decreases |files| - i
  {
    if i < |files| {
      assert files[..i + 1][..i] == files[..i];
      AddFilesNone(codeFilePath, libs, files, i + 1);
    } else {
      assert files[..i] == files;
    }
  }

  /** A file with one undiscarded class is imported by default under the least of its names. */
  lemma SingleClassFileDefault(imps: Imports, source: string, f: FileImport)
    requires WellFormed(imps)
    requires f.undiscarded <= 1 && f.names != []
    ensures AddFile(imps, source, f).Some?
    ensures var e := AddFile(imps, source, f).value.entries[source];
      e.specifiers.None? && e.default.Some? && e.default.value in f.names &&
      forall n :: n in f.names ==> Text.LexLe(e.default.value, n)
  {
    var sorted := Seqs.Sort(f.names, Seqs.StringLe());
    Seqs.StringLeTotalPreorder();
    Seqs.SortSorted(f.names, Seqs.StringLe());
    Seqs.SortMembers(f.names, Seqs.StringLe(), sorted[0]);
    forall n | n in f.names ensures Text.LexLe(sorted[0], n) {
      Seqs.SortMembers(f.names, Seqs.StringLe(), n);
      var k :| 0 <= k < |sorted| && sorted[k] == n;
      if k > 0 { assert Seqs.StringLe()(sorted[0], sorted[k]); } else { Text.LexLeTotal(n, n); }
    }
  }

  /** A file with several undiscarded classes adds its sorted names after the named
      specifiers already imported from its source, keeping that source's default. */
  lemma MultiClassFileAppends(imps: Imports, source: string, f: FileImport)
    requires WellFormed(imps)
    requires f.undiscarded > 1
    ensures AddFile(imps, source, f).None? <==>
      source in imps.entries && imps.entries[source].specifiers.None?
    ensures AddFile(imps, source, f).Some? ==>
      var e := AddFile(imps, source, f).value.entries[source];
      var existing := if source in imps.entries then imps.entries[source].specifiers.value else [];
      e.specifiers == Some(existing + Seqs.Sort(f.names, Seqs.StringLe())) &&
      e.default == (if source in imps.entries then imps.entries[source].default else None) &&
      multiset(e.specifiers.value) == multiset(existing) + multiset(f.names)
  {
    var sorted := Seqs.Sort(f.names, Seqs.StringLe());
    assert multiset(sorted) == multiset(f.names);
    if source in imps.entries {
      var old_ := imps.entries[source];
      if old_.specifiers.Some? {
        var existing := old_.specifiers.value;
        assert AddFile(imps, source, f) == Some(Put(imps, source, ImportEntry(old_.default, Some(existing + sorted))));
        assert multiset(existing + sorted) == multiset(existing) + multiset(sorted);
      }
    } else {
      assert AddFile(imps, source, f) == Some(Put(imps, source, ImportEntry(None, Some(sorted))));
      assert [] + sorted == sorted;
    }
  }

  /** The position of a source in the order of the imports: `app`, `react`, `lodash`,
      `framework`, then every other source (`importOrder.indexOf(source)`, plus one). */
  function ImportRank(source: string): (r: nat)
    ensures r <= 4
  {
    if source == "app" then 4
    else if source == "react" then 3
    else if source == "lodash" then 2
    else if source == "framework" then 1
    else 0
  }

  /** The sort comparator: higher rank first, then `localeCompare` of the sources. */
  function ImportLe(): (string, string) -> bool {
    (a: string, b: string) => ImportRank(a) > ImportRank(b) || (ImportRank(a) == ImportRank(b) && Text.LexLe(a, b))
  }

  lemma ImportLeTotalPreorder()
    ensures Seqs.TotalPreorder(ImportLe())
  {
    forall a: string, b: string ensures ImportLe()(a, b) || ImportLe()(b, a) {
      Text.LexLeTotal(a, b);
    }
    forall a: string, b: string, c: string | ImportLe()(a, b) && ImportLe()(b, c) ensures ImportLe()(a, c) {
      if ImportRank(a) == ImportRank(b) == ImportRank(c) {
        Text.LexLeTransitive(a, b, c);
      }
    }
  }

  /** `import <default>, { <s1>, <s2> } from '<source>'`, leaving out an absent or empty
      default and an absent or empty specifier list. */
  function ImportLine(source: string, e: ImportEntry): string {
    var default := if e.default.Some? && e.default.value != "" then [e.default.value] else [];
    var named := if e.specifiers.Some? && e.specifiers.value != [] then ["{ " + Text.Join(e.specifiers.value, ", ") + " }"] else [];
    "import " + Text.Join(default + named, ", ") + " from '" + source + "'"
  }

  /** The clauses of an import line, by what the entry holds. */
  lemma ImportLineSpec(source: string, e: ImportEntry)
    ensures var tail := " from '" + source + "'";
      var d := e.default.Some? && e.default.value != "";
      var n := e.specifiers.Some? && e.specifiers.value != [];
      var named := if n then "{ " + Text.Join(e.specifiers.value, ", ") + " }" else "";
      ImportLine(source, e) ==
        if d && n then "import " + e.default.value + ", " + named + tail
        else if d then "import " + e.default.value + tail
        else if n then "import " + named + tail
        else "import " + tail
  {
    var default := if e.default.Some? && e.default.value != "" then [e.default.value] else [];
    var named := if e.specifiers.Some? && e.specifiers.value != [] then ["{ " + Text.Join(e.specifiers.value, ", ") + " }"] else [];
    if default != [] && named != [] {
      assert default + named == [default[0], named[0]];
      assert Text.Join([default[0], named[0]], ", ") == default[0] + ", " + named[0];
    } else if default != [] {
      assert default + named == default;
    } else if named != [] {
      assert default + named == named;
    } else {
      assert default + named == [];
    }
  }

  function ImportLines(entries: map<string, ImportEntry>, sources: seq<string>): (r: seq<string>)
    requires forall s :: s in sources ==> s in entries
    ensures |r| == |sources|
    ensures forall k :: 0 <= k < |sources| ==> r[k] == ImportLine(sources[k], entries[sources[k]])
  {
    if sources == [] then [] else [ImportLine(sources[0], entries[sources[0]])] + ImportLines(entries, sources[1..])
  }

  /** The sources of the collected imports in the order they are printed. */
  function SortedSources(imps: Imports): seq<string> {
    Seqs.Sort(imps.order, ImportLe())
  }

  /** The import statements of a code file for the required library names and the
      imported files, in print order; `None` where the source raises. */
  function ImportsCodeOf(codeFilePath: string, libraries: seq<string>, files: seq<FileImport>): Option<seq<string>> {
    match AddFiles(codeFilePath, AddLibs(LibImports, libraries), files)
    case None => None
    case Some(imps) =>
      var sources := SortedSources(imps);
      assert forall s :: s in sources ==> s in imps.entries by {
        forall s | s in sources ensures s in imps.entries {
          Seqs.SortMembers(imps.order, ImportLe(), s);
        }
      }
      Some(ImportLines(imps.entries, sources))
  }

  /** Every collected source is printed once, `app`, `react`, `lodash` and `framework`
      first in that order, and the others in code-point order. */
  lemma SortedSourcesSpec(imps: Imports)
    requires WellFormed(imps)
    ensures var r := SortedSources(imps);
      Seqs.NoDuplicates(r) &&
      (forall s :: s in r <==> s in imps.entries) &&
      (forall i, j :: 0 <= i < j < |r| ==>
        ImportRank(r[i]) >= ImportRank(r[j]) &&
        (ImportRank(r[i]) == ImportRank(r[j]) ==> Text.LexLe(r[i], r[j])))
  {
    var r := SortedSources(imps);
    ImportLeTotalPreorder();
    Seqs.SortSorted(imps.order, ImportLe());
    Seqs.SortNoDuplicates(imps.order, ImportLe());
    forall s ensures s in r <==> s in imps.entries {
      Seqs.SortMembers(imps.order, ImportLe(), s);
    }
    forall i, j | 0 <= i < j < |r| ensures ImportLe()(r[i], r[j]) { }
  }
}
