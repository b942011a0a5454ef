/** The lookup side of a codebase (src/Codebase.js): the alias, class and alternate
    name tables, the class-name patterns, and the fallback to the parent codebase
    (the framework's, for an application). A codebase is seen here as a value; the
    registration that fills it is in module Codebase. */
module Registry {

  import opened Wrappers
  import Seqs
  import Ast

  /** A registered class: its name, its export name and the object given to `Ext.define`. */
  datatype ClassEntry = ClassEntry(className: string, exportName: string, ast: Ast.Node)

  /** One entry of `classRe`: a name to look for in source text and the class it denotes
      (one per class name and per alternate class name). */
  datatype ClassPattern = ClassPattern(name: string, className: string)

  /** The tables of one codebase. `classOrder` is the order in which class names were
      first registered, which is the order `Object.keys(classes)` gives. */
  datatype Scope = Scope(
    aliases: map<string, string>,
    classes: map<string, ClassEntry>,
    classOrder: seq<string>,
    alternates: map<string, string>,
    patterns: seq<ClassPattern>,
    registered: bool,
    parent: Option<Scope>)

  /** Classes are filed under their own names and `classOrder` lists each of them once. */
  ghost predicate Valid(s: Scope)
    decreases s
  {
    (forall n :: n in s.classes ==> s.classes[n].className == n) &&
    Seqs.NoDuplicates(s.classOrder) &&
    (forall n :: n in s.classes <==> n in s.classOrder) &&
    (s.parent.Some? ==> Valid(s.parent.value))
  }

  /** The codebase followed by its parent, its parent's parent, and so on. */
  function Chain(s: Scope): (r: seq<Scope>)
    ensures |r| >= 1 && r[0] == s
    decreases s
  {
    [s] + (if s.parent.Some? then Chain(s.parent.value) else [])
  }

  /** A table entry counts only when it is a non-empty string (JavaScript's `||`). */
  predicate HasAlias(s: Scope, alias: string) {
    alias in s.aliases && s.aliases[alias] != ""
  }

  /** `getClassNameForAlias(alias)`. */
  function ClassNameForAlias(s: Scope, alias: string): (r: Option<string>)
    ensures r.Some? ==> r.value != ""
    decreases s
  {
    if HasAlias(s, alias) then Some(s.aliases[alias])
    else if s.parent.Some? then ClassNameForAlias(s.parent.value, alias)
    else None
  }

  /** Alias lookup finds the entry of the nearest codebase on the chain that has one,
      and fails only when no codebase on the chain has the alias. */
  lemma {:induction false} ClassNameForAliasNearest(s: Scope, alias: string)
    ensures var chain := Chain(s);
      match ClassNameForAlias(s, alias)
      case Some(c) =>
        exists i :: 0 <= i < |chain| && HasAlias(chain[i], alias) && chain[i].aliases[alias] == c &&
          forall j :: 0 <= j < i ==> !HasAlias(chain[j], alias)
      case None => forall i :: 0 <= i < |chain| ==> !HasAlias(chain[i], alias)
    decreases s
  {
    var chain := Chain(s);
    if HasAlias(s, alias) {
      assert chain[0] == s;
    } else if s.parent.Some? {
      var p := s.parent.value;
      ClassNameForAliasNearest(p, alias);
      assert chain == [s] + Chain(p);
      match ClassNameForAlias(p, alias)
      case Some(c) =>
        var i :| 0 <= i < |Chain(p)| && HasAlias(Chain(p)[i], alias) && Chain(p)[i].aliases[alias] == c &&
          forall j :: 0 <= j < i ==> !HasAlias(Chain(p)[j], alias);
        assert chain[i + 1] == Chain(p)[i];
        forall j | 0 <= j < i + 1 ensures !HasAlias(chain[j], alias) {
          if j > 0 {
            assert chain[j] == Chain(p)[j - 1];
          }
        }
      case None =>
        forall i | 0 <= i < |chain| ensures !HasAlias(chain[i], alias) {
          if i > 0 {
            assert chain[i] == Chain(p)[i - 1];
          }
        }
    }
  }

  /** `_alternateClassNames[name] || name`. */
  function Canonical(s: Scope, name: string): string {
    if name in s.alternates && s.alternates[name] != "" then s.alternates[name] else name
  }

  /** A class found by lookup, together with the codebase it is registered in. */
  datatype Resolved = Resolved(entry: ClassEntry, home: Scope)

  /** `getClassForClassName(name)`: the alternate name is mapped to its class first,
      then the class is looked up locally and then in the parent. */
  function ClassForName(s: Scope, name: string): Option<Resolved>
    decreases s
  {
    var n := Canonical(s, name);
    if n in s.classes then Some(Resolved(s.classes[n], s))
    else if s.parent.Some? then ClassForName(s.parent.value, n)
    else None
  }

  /** A lookup only ever returns a class registered, under its own name, in some
      codebase of the chain. */
  lemma {:induction false} ClassForNameRegistered(s: Scope, name: string)
    requires Valid(s)
    ensures match ClassForName(s, name)
      case Some(r) =>
        r.home in Chain(s) && r.entry.className in r.home.classes &&
        r.home.classes[r.entry.className] == r.entry
      case None => true
    decreases s
  {
    var n := Canonical(s, name);
    if n !in s.classes && s.parent.Some? {
      ClassForNameRegistered(s.parent.value, n);
      assert Chain(s) == [s] + Chain(s.parent.value);
    }
  }

  /** A class registered locally is found under its name unless that name is also an
      alternate name of another class; a local miss defers to the parent and fails
      without one. */
  lemma ClassForNameLocal(s: Scope, name: string)
    requires Valid(s)
    requires name in s.classes
    requires name !in s.alternates || s.alternates[name] == "" || s.alternates[name] == name
    ensures ClassForName(s, name) == Some(Resolved(s.classes[name], s))
  {
  }

  /** Without a parent, only local classes are found. */
  lemma ClassForNameNoParent(s: Scope, name: string)
    requires s.parent.None?
    ensures ClassForName(s, name).Some? <==> Canonical(s, name) in s.classes
  {
  }

  /** `classRe`: the local patterns, followed by the parent's. */
  function ClassRe(s: Scope): (r: seq<ClassPattern>)
    ensures |r| >= |s.patterns| && r[..|s.patterns|] == s.patterns
    decreases s
  {
    if s.parent.Some? then s.patterns + ClassRe(s.parent.value) else s.patterns
  }

  /** Every pattern of every codebase on the chain is in `classRe`, and nothing else. */
  lemma {:induction false} ClassReMembers(s: Scope, p: ClassPattern)
    ensures p in ClassRe(s) <==> exists i :: 0 <= i < |Chain(s)| && p in Chain(s)[i].patterns
    decreases s
  {
    var chain := Chain(s);
    if s.parent.Some? {
      var q := s.parent.value;
      ClassReMembers(q, p);
      assert chain == [s] + Chain(q);
      if p in ClassRe(s) && p !in s.patterns {
        var i :| 0 <= i < |Chain(q)| && p in Chain(q)[i].patterns;
        assert chain[i + 1] == Chain(q)[i];
      }
      if exists i :: 0 <= i < |chain| && p in chain[i].patterns {
        var i :| 0 <= i < |chain| && p in chain[i].patterns;
        if i > 0 {
          assert chain[i] == Chain(q)[i - 1];
        }
      }
    } else {
      assert chain == [s];
      assert ClassRe(s) == s.patterns;
      assert (exists i :: 0 <= i < |chain| && p in chain[i].patterns) <==> p in chain[0].patterns;
    }
  }

  /** The export names of the classes, in registration order. */
  function ExportNames(classes: map<string, ClassEntry>, order: seq<string>): (r: seq<string>)
    requires forall n :: n in order ==> n in classes
    ensures forall x :: x in r <==> exists n :: n in order && classes[n].exportName == x
  {
    if order == [] then []
    else
      var rest := ExportNames(classes, order[1..]);
      assert forall n :: n in order <==> n == order[0] || n in order[1..];
      [classes[order[0]].exportName] + rest
  }

  /** `classNames`: the distinct export names, sorted. */
  function ClassNames(s: Scope): seq<string>
    requires forall n :: n in s.classOrder ==> n in s.classes
  {
    Seqs.Sort(Seqs.Uniq(ExportNames(s.classes, s.classOrder)), Seqs.StringLe())
  }

  /** `classNames` is sorted, names each export name once, and names exactly the export
      names of the local classes. */
  lemma ClassNamesSpec(s: Scope, x: string)
    requires Valid(s)
    ensures Seqs.SortedBy(ClassNames(s), Seqs.StringLe())
    ensures Seqs.NoDuplicates(ClassNames(s))
    ensures x in ClassNames(s) <==> exists n :: n in s.classes && s.classes[n].exportName == x
  {
    var names := Seqs.Uniq(ExportNames(s.classes, s.classOrder));
    Seqs.StringLeTotalPreorder();
    Seqs.SortSorted(names, Seqs.StringLe());
    Seqs.SortNoDuplicates(names, Seqs.StringLe());
    Seqs.SortMembers(names, Seqs.StringLe(), x);
  }
}
