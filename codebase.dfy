/** A codebase being converted (src/Codebase.js): the registration of its classes into
    the alias, class and alternate-name tables, the word list, the property counters,
    the method-call statistics and the target-directory check. Lookups over the filled
    tables are in module Registry. */
module Codebase {

  import opened Wrappers
  import Text
  import Seqs
  import Ast
  import Registry
  import Words

  /** What a source file declares about one of its classes. */
  datatype ClassDecl = ClassDecl(
    className: string,
    exportName: string,
    ast: Ast.Node,
    aliases: seq<string>,
    alternateNames: seq<string>)

  /** A "Duplicate ..." error logged during registration. */
  datatype Duplicate = DuplicateAlias(alias: string) | DuplicateClass(className: string)

  /** A class or a source file being initialised, with the registration flag it sees. */
  datatype InitEvent = InitClass(className: string, registered: bool) | InitFile(path: string, registered: bool)

  // ---------------------------------------------------------------------------
  // Registration as a function of the tables (`_addSourceFiles`)

  /** The four tables registration fills, and the errors logged so far. */
  datatype Tables = Tables(
    aliases: map<string, string>,
    classes: map<string, Registry.ClassEntry>,
    classOrder: seq<string>,
    alternates: map<string, string>,
    patterns: seq<Registry.ClassPattern>,
    log: seq<Duplicate>)

  /** Every name of `names` filed under `value`, one after the other. */
  function WithAll(table: map<string, string>, names: seq<string>, value: string): (r: map<string, string>)
    ensures forall n :: n in r <==> n in table || n in names
    ensures forall n :: n in r ==> r[n] == if n in names then value else table[n]
    decreases |names|
  {
    if names == [] then table
    else
      var init := names[..|names| - 1];
      assert forall n :: n in names <==> n in init || n == names[|names| - 1] by {
        assert names == init + [names[|names| - 1]];
      }
      WithAll(table, init, value)[names[|names| - 1] := value]
  }

  lemma WithAllStep(table: map<string, string>, names: seq<string>, value: string, j: nat)
    requires j < |names|
    ensures WithAll(table, names[..j + 1], value) == WithAll(table, names[..j], value)[names[j] := value]
  {
    assert names[..j + 1][..j] == names[..j];
  }

  /** The aliases logged as duplicates while `names` are filed under `value` one by one:
      those already filed under a non-empty class name. */
  function AliasDuplicates(table: map<string, string>, names: seq<string>, value: string): seq<Duplicate>
    decreases |names|
  {
    if names == [] then []
    else
      var init := names[..|names| - 1];
      var a := names[|names| - 1];
      var seen := WithAll(table, init, value);
      AliasDuplicates(table, init, value) + (if a in seen && seen[a] != "" then [DuplicateAlias(a)] else [])
  }

  lemma AliasDuplicatesStep(table: map<string, string>, names: seq<string>, value: string, j: nat)
    requires j < |names|
    ensures var seen := WithAll(table, names[..j], value);
      AliasDuplicates(table, names[..j + 1], value) ==
        AliasDuplicates(table, names[..j], value) + (if names[j] in seen && seen[names[j]] != "" then [DuplicateAlias(names[j])] else [])
  {
    assert names[..j + 1][..j] == names[..j];
  }

  /** The `classRe` entries of a class: its own name, then its alternate names. */
  function Patterns(d: ClassDecl): (r: seq<Registry.ClassPattern>)
    ensures |r| == 1 + |d.alternateNames|
    ensures forall k :: 0 <= k < |r| ==> r[k].className == d.className
    ensures r[0].name == d.className
    ensures forall k :: 0 <= k < |d.alternateNames| ==> r[k + 1].name == d.alternateNames[k]
  {
    [Registry.ClassPattern(d.className, d.className)] +
    seq(|d.alternateNames|, k requires 0 <= k < |d.alternateNames| => Registry.ClassPattern(d.alternateNames[k], d.className))
  }

  /** Registering one class. A name registered again keeps its place in `classOrder`,
      as a key reassigned in a JavaScript object does. */
  function Register(t: Tables, d: ClassDecl): Tables {
    var dupClass := if d.className in t.classes then [DuplicateClass(d.className)] else [];
    Tables(
      WithAll(t.aliases, d.aliases, d.className),
      t.classes[d.className := Registry.ClassEntry(d.className, d.exportName, d.ast)],
      if d.className in t.classes then t.classOrder else t.classOrder + [d.className],
      WithAll(t.alternates, d.alternateNames, d.className),
      t.patterns + Patterns(d),
      t.log + AliasDuplicates(t.aliases, d.aliases, d.className) + dupClass)
  }

  lemma RegisterLog(t: Tables, d: ClassDecl)
    ensures Register(t, d).log == t.log + AliasDuplicates(t.aliases, d.aliases, d.className) +
      (if d.className in t.classes then [DuplicateClass(d.className)] else [])
  {
  }

  /** Registering the classes in order. */
  function RegisterAll(t: Tables, ds: seq<ClassDecl>): Tables
    decreases |ds|
  {
    if ds == [] then t else Register(RegisterAll(t, ds[..|ds| - 1]), ds[|ds| - 1])
  }

  lemma RegisterAllStep(t: Tables, ds: seq<ClassDecl>, i: nat)
    requires i < |ds|
    ensures RegisterAll(t, ds[..i + 1]) == Register(RegisterAll(t, ds[..i]), ds[i])
  {
    assert ds[..i + 1][..i] == ds[..i];
  }

  /** The last of the classes that declares alias `a`. */
  function LastWithAlias(ds: seq<ClassDecl>, a: string): (r: Option<nat>)
    ensures r.Some? ==> r.value < |ds| && a in ds[r.value].aliases
    ensures r.Some? ==> forall k :: r.value < k < |ds| ==> a !in ds[k].aliases
    ensures r.None? ==> forall k :: 0 <= k < |ds| ==> a !in ds[k].aliases
    decreases |ds|
  {
    if ds == [] then None
    else if a in ds[|ds| - 1].aliases then Some(|ds| - 1)
    else LastWithAlias(ds[..|ds| - 1], a)
  }

  /** The last of the classes named `n`. */
  function LastNamed(ds: seq<ClassDecl>, n: string): (r: Option<nat>)
    ensures r.Some? ==> r.value < |ds| && ds[r.value].className == n
    ensures r.Some? ==> forall k :: r.value < k < |ds| ==> ds[k].className != n
    ensures r.None? ==> forall k :: 0 <= k < |ds| ==> ds[k].className != n
    decreases |ds|
  {
    if ds == [] then None
    else if ds[|ds| - 1].className == n then Some(|ds| - 1)
    else LastNamed(ds[..|ds| - 1], n)
  }

  /** The later registration wins: an alias denotes the last class that declares it,
      and an alias no class declares keeps its earlier entry. */
  lemma {:induction false} RegisterAllAliases(t: Tables, ds: seq<ClassDecl>, a: string)
    ensures var r := RegisterAll(t, ds).aliases;
      match LastWithAlias(ds, a)
      case Some(k) => a in r && r[a] == ds[k].className
      case None => (a in r <==> a in t.aliases) && (a in r ==> r[a] == t.aliases[a])
    decreases |ds|
  {
    if ds != [] {
      RegisterAllAliases(t, ds[..|ds| - 1], a);
    }
  }

  /** The later registration wins: a class name denotes the last class of that name,
      and a name no class has keeps its earlier entry. */
  lemma {:induction false} RegisterAllClasses(t: Tables, ds: seq<ClassDecl>, n: string)
    ensures var r := RegisterAll(t, ds).classes;
      match LastNamed(ds, n)
      case Some(k) => n in r && r[n] == Registry.ClassEntry(n, ds[k].exportName, ds[k].ast)
      case None => (n in r <==> n in t.classes) && (n in r ==> r[n] == t.classes[n])
    decreases |ds|
  {
    if ds != [] {
      RegisterAllClasses(t, ds[..|ds| - 1], n);
    }
  }

  /** "Duplicate class" is logged once for every registration of a name after its
      first: as many times as the classes have that name when it was registered before,
      one time fewer otherwise. */
  lemma {:induction false} RegisterAllDuplicateClass(t: Tables, ds: seq<ClassDecl>, n: string)
    ensures var times := Count(ClassNames(ds), n);
      Count(RegisterAll(t, ds).log, DuplicateClass(n)) ==
        Count(t.log, DuplicateClass(n)) + if n in t.classes || times == 0 then times else times - 1
    decreases |ds|
  {
    if ds != [] {
      var init := ds[..|ds| - 1];
      var d := ds[|ds| - 1];
      RegisterAllDuplicateClass(t, init, n);
      RegisterAllKeys(t, init, n);
      RegisterAllDuplicateClassStep(t, ds, n);
      ClassNamesCount(ds, n);
      var x := DuplicateClass(n);
      var prior := RegisterAll(t, init);
      DuplicateClassArithmetic(n in t.classes, n in prior.classes, d.className == n,
        Count(ClassNames(init), n), Count(ClassNames(ds), n),
        Count(t.log, x), Count(prior.log, x), Count(RegisterAll(t, ds).log, x));
    }
  }

  /** The counting argument of one registration step. */
  lemma DuplicateClassArithmetic(inTables: bool, inPrior: bool, named: bool, times0: nat, times: nat,
                                 before: nat, mid: nat, after: nat)
    requires inPrior <==> inTables || times0 > 0
    requires times == times0 + if named then 1 else 0
    requires mid == before + if inTables || times0 == 0 then times0 else times0 - 1
    requires after == mid + if named && inPrior then 1 else 0
    ensures after == before + if inTables || times == 0 then times else times - 1
  {
  }

  lemma RegisterAllDuplicateClassStep(t: Tables, ds: seq<ClassDecl>, n: string)
    requires ds != []
    ensures var prior := RegisterAll(t, ds[..|ds| - 1]);
      Count(RegisterAll(t, ds).log, DuplicateClass(n)) == Count(prior.log, DuplicateClass(n)) +
        if ds[|ds| - 1].className == n && n in prior.classes then 1 else 0
  {
    RegisterDuplicateClass(RegisterAll(t, ds[..|ds| - 1]), ds[|ds| - 1], n);
  }

  /** Registering one class logs "Duplicate class" for `n` once when it is named `n` and
      `n` was registered before. */
  lemma RegisterDuplicateClass(prior: Tables, d: ClassDecl, n: string)
    ensures Count(Register(prior, d).log, DuplicateClass(n)) ==
      Count(prior.log, DuplicateClass(n)) + if d.className == n && n in prior.classes then 1 else 0
  {
    var x := DuplicateClass(n);
    var ad := AliasDuplicates(prior.aliases, d.aliases, d.className);
    AliasDuplicatesOnlyAliases(prior.aliases, d.aliases, d.className);
    assert Count(ad, x) == 0;
    var dupClass := if d.className in prior.classes then [DuplicateClass(d.className)] else [];
    assert Count(dupClass, x) == if d.className == n && n in prior.classes then 1 else 0 by {
      if d.className in prior.classes {
        assert dupClass == [] + [DuplicateClass(d.className)];
      }
    }
    RegisterLog(prior, d);
    CountAppend(prior.log + ad, dupClass, x);
    CountAppend(prior.log, ad, x);
  }

  lemma ClassNamesCount(ds: seq<ClassDecl>, n: string)
    requires ds != []
    ensures Count(ClassNames(ds), n) ==
      Count(ClassNames(ds[..|ds| - 1]), n) + if ds[|ds| - 1].className == n then 1 else 0
  {
    CountStep(ClassNames(ds[..|ds| - 1]), ds[|ds| - 1].className, n);
  }

  /** The registered names are the earlier ones and those of the classes. */
  lemma {:induction false} RegisterAllKeys(t: Tables, ds: seq<ClassDecl>, n: string)
    ensures n in RegisterAll(t, ds).classes <==> n in t.classes || n in ClassNames(ds)
    decreases |ds|
  {
    if ds != [] {
      RegisterAllKeys(t, ds[..|ds| - 1], n);
    }
  }

  lemma {:induction false} CountAppend<T>(a: seq<T>, b: seq<T>, x: T)
    ensures Count(a + b, x) == Count(a, x) + Count(b, x)
    decreases |b|
  {
    if b == [] {
      assert a + b == a;
    } else {
      var init := b[..|b| - 1];
      CountAppend(a, init, x);
      assert (a + b)[..|a + b| - 1] == a + init;
    }
  }

  lemma {:induction false} AliasDuplicatesOnlyAliases(table: map<string, string>, names: seq<string>, value: string)
    ensures forall x :: x in AliasDuplicates(table, names, value) ==> x.DuplicateAlias?
    decreases |names|
  {
    if names != [] {
      AliasDuplicatesOnlyAliases(table, names[..|names| - 1], value);
    }
  }

  /** The names of the classes, in order. */
  function ClassNames(ds: seq<ClassDecl>): (r: seq<string>)
    ensures |r| == |ds| && forall k :: 0 <= k < |ds| ==> r[k] == ds[k].className
    decreases |ds|
  {
    if ds == [] then [] else ClassNames(ds[..|ds| - 1]) + [ds[|ds| - 1].className]
  }

  /** The `classRe` entries of the classes, in order. */
  function AllPatterns(ds: seq<ClassDecl>): seq<Registry.ClassPattern>
    decreases |ds|
  {
    if ds == [] then [] else AllPatterns(ds[..|ds| - 1]) + Patterns(ds[|ds| - 1])
  }

  /** The entries of the classes are exactly those of each class. */
  lemma {:induction false} AllPatternsMembers(ds: seq<ClassDecl>, p: Registry.ClassPattern)
    ensures p in AllPatterns(ds) <==> exists k :: 0 <= k < |ds| && p in Patterns(ds[k])
    decreases |ds|
  {
    if ds != [] {
      var init := ds[..|ds| - 1];
      var last := Patterns(ds[|ds| - 1]);
      AllPatternsMembers(init, p);
      assert AllPatterns(ds) == AllPatterns(init) + last;
      assert p in AllPatterns(ds) <==> p in AllPatterns(init) || p in last;
      if p in AllPatterns(init) {
        var k :| 0 <= k < |init| && p in Patterns(init[k]);
        assert ds[k] == init[k];
      } else if p !in last {
        forall k | 0 <= k < |ds| ensures p !in Patterns(ds[k]) {
          if k < |init| {
            assert init[k] == ds[k];
          }
        }
      }
    }
  }

  /** The class-name patterns grow by each class's own name and alternate names, in order. */
  lemma {:induction false} RegisterAllPatterns(t: Tables, ds: seq<ClassDecl>)
    ensures RegisterAll(t, ds).patterns == t.patterns + AllPatterns(ds)
    decreases |ds|
  {
    if ds != [] {
      var init := ds[..|ds| - 1];
      var last := Patterns(ds[|ds| - 1]);
      RegisterAllPatterns(t, init);
      assert RegisterAll(t, ds).patterns == RegisterAll(t, init).patterns + last;
      assert AllPatterns(ds) == AllPatterns(init) + last;
      assert (t.patterns + AllPatterns(init)) + last == t.patterns + (AllPatterns(init) + last);
    }
  }

  /** Classes stay filed under their own names, and `classOrder` keeps listing each
      registered name once. */
  ghost predicate TablesValid(t: Tables) {
    (forall n :: n in t.classes ==> t.classes[n].className == n) &&
    Seqs.NoDuplicates(t.classOrder) &&
    (forall n :: n in t.classes <==> n in t.classOrder)
  }

  lemma {:induction false} RegisterAllValid(t: Tables, ds: seq<ClassDecl>)
    requires TablesValid(t)
    ensures TablesValid(RegisterAll(t, ds))
    decreases |ds|
  {
    if ds != [] {
      RegisterAllValid(t, ds[..|ds| - 1]);
    }
  }

  /** Validity does not depend on the log. */
  lemma TablesValidWithoutLog(t: Tables)
    requires TablesValid(t)
    ensures TablesValid(t.(log := []))
  {
  }

  /** Initialising after registration logs only registered events. */
  lemma InitsRegistered(prefix: seq<InitEvent>, classNames: seq<string>, files: seq<string>)
    requires forall e :: e in prefix ==> e.registered
    ensures forall e :: e in prefix + ClassInits(classNames, true) + FileInits(files, true) ==> e.registered
  {
    var all := prefix + ClassInits(classNames, true) + FileInits(files, true);
    forall e | e in all ensures e.registered {
      var k :| 0 <= k < |all| && all[k] == e;
      if k >= |prefix| + |classNames| {
        assert e == FileInits(files, true)[k - |prefix| - |classNames|];
      } else if k >= |prefix| {
        assert e == ClassInits(classNames, true)[k - |prefix|];
      } else {
        assert e in prefix;
      }
    }
  }

  /** The tables as a codebase seen from outside. */
  function ScopeOf(t: Tables, registered: bool, parent: Option<Registry.Scope>): Registry.Scope {
    Registry.Scope(t.aliases, t.classes, t.classOrder, t.alternates, t.patterns, registered, parent)
  }

  /** After registration every alias of every registered class resolves locally, to the
      last class that declares it, whatever the parent codebase says. */
  lemma AliasesResolveLocally(t: Tables, ds: seq<ClassDecl>, registered: bool, parent: Option<Registry.Scope>, k: nat, a: string)
    requires k < |ds| && a in ds[k].aliases
    ensures var last := LastWithAlias(ds, a);
      last.Some? && k <= last.value &&
      (ds[last.value].className != "" ==>
        Registry.ClassNameForAlias(ScopeOf(RegisterAll(t, ds), registered, parent), a) == Some(ds[last.value].className))
  {
    RegisterAllAliases(t, ds, a);
  }

  function ClassInits(names: seq<string>, flag: bool): (r: seq<InitEvent>)
    ensures |r| == |names| && forall k :: 0 <= k < |names| ==> r[k] == InitClass(names[k], flag)
  {
    seq(|names|, k requires 0 <= k < |names| => InitClass(names[k], flag))
  }

  function FileInits(files: seq<string>, flag: bool): (r: seq<InitEvent>)
    ensures |r| == |files| && forall k :: 0 <= k < |files| ==> r[k] == InitFile(files[k], flag)
  {
    seq(|files|, k requires 0 <= k < |files| => InitFile(files[k], flag))
  }

  // ---------------------------------------------------------------------------
  // Property counters (`logProperty`)

  /** One more use of `name`, counting from zero. */
  function Bump(counts: map<string, nat>, name: string): (r: map<string, nat>)
    ensures name in r && r[name] == (if name in counts then counts[name] else 0) + 1
    ensures forall n :: n in r <==> n in counts || n == name
    ensures forall n :: n in counts && n != name ==> r[n] == counts[n]
  {
    counts[name := (if name in counts then counts[name] else 0) + 1]
  }

  // ---------------------------------------------------------------------------
  // Method-call statistics (`methodCalls`)

  /** How often a normalised method name was called. */
  datatype MethodCount = MethodCount(call: string, count: nat)

  /** `object.method` keeps its object only for `Ext` and `Math` (`me` first reads as
      `this`, which is collapsed too). A call without a dot reads the method as
      `undefined`, as destructuring the split does. */
  function NormaliseCall(call: string): string {
    var parts := Text.Split(call, '.');
    var receiver := if parts[0] == "me" then "this" else parts[0];
    var name := if |parts| >= 2 then parts[1] else "undefined";
    (if receiver == "Ext" || receiver == "Math" then receiver else "") + "." + name
  }

  /** A normalised call is the second segment of the name after `Ext.`, `Math.` or a bare
      `.`: the object survives exactly when it is `Ext` or `Math`. */
  lemma NormaliseCallSpec(call: string)
    ensures var parts := Text.Split(call, '.');
      var name := if |parts| >= 2 then parts[1] else "undefined";
      var r := NormaliseCall(call);
      (parts[0] == "Ext" ==> r == "Ext." + name) &&
      (parts[0] == "Math" ==> r == "Math." + name) &&
      (parts[0] != "Ext" && parts[0] != "Math" ==> r == "." + name)
  {
  }

  /** The number of occurrences of `x`. */
  function Count<T(==)>(xs: seq<T>, x: T): (r: nat)
    ensures r <= |xs|
    ensures r == 0 <==> x !in xs
    decreases |xs|
  {
    if xs == [] then 0
    else
      var init := xs[..|xs| - 1];
      assert xs == init + [xs[|xs| - 1]];
      Count(init, x) + (if xs[|xs| - 1] == x then 1 else 0)
  }

  /** Each distinct name with its number of occurrences, in order of first occurrence. */
  function Tally(names: seq<string>): (r: seq<MethodCount>)
    ensures |r| == |Seqs.Uniq(names)|
    ensures forall k :: 0 <= k < |r| ==> r[k] == MethodCount(Seqs.Uniq(names)[k], Count(names, Seqs.Uniq(names)[k]))
  {
    var keys := Seqs.Uniq(names);
    seq(|keys|, k requires 0 <= k < |keys| => MethodCount(keys[k], Count(names, keys[k])))
  }

  /** The comparator `(c1, c2) => c2.count - c1.count`: larger counts first. */
  function MoreCalls(): (MethodCount, MethodCount) -> bool {
    (a: MethodCount, b: MethodCount) => a.count >= b.count
  }

  lemma MoreCallsTotalPreorder()
    ensures Seqs.TotalPreorder(MoreCalls())
  {
  }

  /** What `methodCalls` returns for the given calls. */
  function MethodCallsOf(calls: seq<string>): seq<MethodCount> {
    Seqs.Sort(Tally(Normalised(calls)), MoreCalls())
  }

  function Normalised(calls: seq<string>): (r: seq<string>)
    ensures |r| == |calls| && forall k :: 0 <= k < |calls| ==> r[k] == NormaliseCall(calls[k])
  {
    seq(|calls|, k requires 0 <= k < |calls| => NormaliseCall(calls[k]))
  }

  /** The total of the counts. */
  function Total(cs: seq<MethodCount>): nat
    decreases |cs|
  {
    if cs == [] then 0 else cs[0].count + Total(cs[1..])
  }

  lemma {:induction false} TotalAppend(a: seq<MethodCount>, b: seq<MethodCount>)
    ensures Total(a + b) == Total(a) + Total(b)
    decreases |a|
  {
    if a == [] {
      assert a + b == b;
    } else {
      TotalAppend(a[1..], b);
      assert (a + b)[0] == a[0];
      assert (a + b)[1..] == a[1..] + b;
      assert Total(a + b) == a[0].count + Total(a[1..] + b);
    }
  }

  lemma {:induction false} TotalInsert(x: MethodCount, s: seq<MethodCount>, le: (MethodCount, MethodCount) -> bool)
    ensures Total(Seqs.Insert(x, s, le)) == x.count + Total(s)
    decreases |s|
  {
    if s != [] && !le(x, s[0]) {
      TotalInsert(x, s[1..], le);
    }
  }

  lemma {:induction false} TotalSort(s: seq<MethodCount>, le: (MethodCount, MethodCount) -> bool)
    ensures Total(Seqs.Sort(s, le)) == Total(s)
    decreases |s|
  {
    if s != [] {
      TotalSort(s[1..], le);
      TotalInsert(s[0], Seqs.Sort(s[1..], le), le);
    }
  }

  /** The counts of a set of keys. */
  function CountsOf(keys: seq<string>, names: seq<string>): (r: seq<MethodCount>)
    ensures |r| == |keys|
  {
    seq(|keys|, k requires 0 <= k < |keys| => MethodCount(keys[k], Count(names, keys[k])))
  }

  /** One more name adds one to the total over distinct keys that contain it. */
  lemma {:induction false} CountsOfGrow(keys: seq<string>, names: seq<string>, x: string)
    requires Seqs.NoDuplicates(keys)
    ensures Total(CountsOf(keys, names + [x])) == Total(CountsOf(keys, names)) + (if x in keys then 1 else 0)
    decreases |keys|
  {
    if keys != [] {
      var init := keys[..|keys| - 1];
      var last := keys[|keys| - 1];
      CountsOfGrow(init, names, x);
      assert CountsOf(keys, names + [x]) == CountsOf(init, names + [x]) + [MethodCount(last, Count(names + [x], last))];
      assert CountsOf(keys, names) == CountsOf(init, names) + [MethodCount(last, Count(names, last))];
      TotalAppend(CountsOf(init, names + [x]), [MethodCount(last, Count(names + [x], last))]);
      TotalAppend(CountsOf(init, names), [MethodCount(last, Count(names, last))]);
      assert (names + [x])[..|names|] == names;
      assert x in keys <==> x in init || x == last;
      assert x == last ==> x !in init;
    }
  }

  lemma {:induction false} TallyTotal(names: seq<string>)
    ensures Total(Tally(names)) == |names|
    decreases |names|
  {
    if names != [] {
      var init := names[..|names| - 1];
      var x := names[|names| - 1];
      TallyTotal(init);
      assert names == init + [x];
      var keys := Seqs.Uniq(init);
      assert Tally(init) == CountsOf(keys, init);
      CountsOfGrow(keys, init, x);
      if x in init {
        assert Tally(names) == CountsOf(keys, names);
      } else {
        assert Tally(names) == CountsOf(keys, names) + [MethodCount(x, Count(names, x))];
        TotalAppend(CountsOf(keys, names), [MethodCount(x, Count(names, x))]);
        assert Count(names, x) == 1 by {
          assert Count(init, x) == 0;
        }
      }
    }
  }

  /** The statistics count every call once, list each normalised name once with its number
      of calls, and put larger counts first. */
  lemma MethodCallsSpec(calls: seq<string>)
    ensures var r := MethodCallsOf(calls);
      var names := Normalised(calls);
      Total(r) == |calls| &&
      Seqs.SortedBy(r, MoreCalls()) &&
      (forall c :: c in r <==> c.call in names && c.count == Count(names, c.call))
  {
    var names := Normalised(calls);
    var t := Tally(names);
    TallyTotal(names);
    TotalSort(t, MoreCalls());
    MoreCallsTotalPreorder();
    Seqs.SortSorted(t, MoreCalls());
    forall c ensures c in MethodCallsOf(calls) <==> c.call in names && c.count == Count(names, c.call) {
      Seqs.SortMembers(t, MoreCalls(), c);
      if c.call in names {
        var keys := Seqs.Uniq(names);
        var k :| 0 <= k < |keys| && keys[k] == c.call;
        assert t[k].call == c.call;
      }
    }
  }

  /** The statistics never list a normalised name twice. */
  lemma MethodCallsDistinct(calls: seq<string>)
    ensures var r := MethodCallsOf(calls);
      forall i, j :: 0 <= i < j < |r| ==> r[i].call != r[j].call
  {
    var names := Normalised(calls);
    var t := Tally(names);
    var r := MethodCallsOf(calls);
    assert Seqs.NoDuplicates(t);
    Seqs.SortNoDuplicates(t, MoreCalls());
    MethodCallsSpec(calls);
  }

  lemma UniqStep(xs: seq<string>, x: string)
    ensures Seqs.Uniq(xs + [x]) == if x in xs then Seqs.Uniq(xs) else Seqs.Uniq(xs) + [x]
  {
    assert (xs + [x])[..|xs|] == xs;
  }

  lemma CountStep(xs: seq<string>, x: string, n: string)
    ensures Count(xs + [x], n) == Count(xs, n) + if x == n then 1 else 0
  {
    assert (xs + [x])[..|xs|] == xs;
  }

  /** The table the counting pass builds is the tally of the names. */
  lemma TallyOfCounts(names: seq<string>, order: seq<string>, counts: map<string, nat>)
    requires order == Seqs.Uniq(names)
    requires forall n :: n in counts <==> n in order
    requires forall n :: n in counts ==> counts[n] == Count(names, n)
    ensures seq(|order|, k requires 0 <= k < |order| => MethodCount(order[k], counts[order[k]])) == Tally(names)
  {
  }

  /** The counting pass has seen `seen`: `order` lists its distinct names by first
      occurrence and `counts` holds each one's number of occurrences. */
  ghost predicate Counted(seen: seq<string>, order: seq<string>, counts: map<string, nat>) {
    order == Seqs.Uniq(seen) &&
    (forall n :: n in counts <==> n in order) &&
    (forall n :: n in counts ==> counts[n] == Count(seen, n))
  }

  lemma CountedStep(seen: seq<string>, order: seq<string>, counts: map<string, nat>, x: string)
    requires Counted(seen, order, counts)
    ensures Counted(seen + [x], if x in counts then order else order + [x], Bump(counts, x))
  {
    UniqStep(seen, x);
    var order' := if x in counts then order else order + [x];
    var counts' := Bump(counts, x);
    assert order' == Seqs.Uniq(seen + [x]);
    forall n ensures n in counts' <==> n in order' {
      assert n in order + [x] <==> n in order || n == x;
    }
    forall n | n in counts' ensures counts'[n] == Count(seen + [x], n) {
      CountStep(seen, x, n);
    }
  }

  /** `methodCalls`: counts the normalised calls in one pass, then sorts by count. */
  method MethodCalls(calls: seq<string>) returns (r: seq<MethodCount>)
    ensures r == MethodCallsOf(calls)
  {
    ghost var names := Normalised(calls);
    var counts: map<string, nat> := map[];
    var order: seq<string> := [];
    var i := 0;
    while i < |calls|
      invariant 0 <= i <= |calls|
      invariant Counted(names[..i], order, counts)
    {
      var call := NormaliseCall(calls[i]);
      assert names[..i + 1] == names[..i] + [call];
      CountedStep(names[..i], order, counts, call);
      if call !in counts {
        order := order + [call];
      }
      counts := Bump(counts, call);
      i := i + 1;
    }
    assert names[..i] == names;
    TallyOfCounts(names, order, counts);
    r := Seqs.Sort(seq(|order|, k requires 0 <= k < |order| => MethodCount(order[k], counts[order[k]])), MoreCalls());
  }

  // ---------------------------------------------------------------------------
  // The target-directory stamp (`_prepareTargetDirectory`)

  /** The generator name the stamp file records. */
  const Generator := "extjs2react"

  /** Either the conversion refuses the target directory, or it writes the stamp naming
      the generator. */
  datatype Preparation = Refused | Stamped(generator: string)

  /** The decision: a directory that exists and was not stamped by this generator (no
      stamp, an unreadable one, or another generator's) is refused before anything is
      written. */
  function PrepareTarget(isDirectory: bool, generator: Option<string>): (r: Preparation)
    ensures r.Refused? <==> isDirectory && generator != Some(Generator)
    ensures r.Stamped? ==> r.generator == Generator
  {
    if isDirectory && generator != Some(Generator) then Refused else Stamped(Generator)
  }

  /** A directory this generator prepared is accepted again. */
  lemma PrepareTargetAgain(isDirectory: bool, generator: Option<string>)
    requires PrepareTarget(isDirectory, generator).Stamped?
    ensures PrepareTarget(true, Some(PrepareTarget(isDirectory, generator).generator)).Stamped?
  {
  }

  // ---------------------------------------------------------------------------
  // The codebase

  class Codebase {
    var aliases: map<string, string>
    var classes: map<string, Registry.ClassEntry>
    var classOrder: seq<string>
    var alternates: map<string, string>
    var patterns: seq<Registry.ClassPattern>
    var allClassesRegistered: bool
    var properties: map<string, nat>
    var words: seq<string>
    var initLog: seq<InitEvent>
    const customWords: seq<string>
    const parent: Option<Registry.Scope>

    /** The tables, with the errors logged so far. */
    function TablesWith(log: seq<Duplicate>): Tables
      reads this
    {
      Tables(aliases, classes, classOrder, alternates, patterns, log)
    }

    /** The codebase as its lookups see it. */
    function Scope(): Registry.Scope
      reads this
    {
      ScopeOf(TablesWith([]), allClassesRegistered, parent)
    }

    ghost predicate Valid()
      reads this
    {
      TablesValid(TablesWith([])) &&
      (parent.Some? ==> Registry.Valid(parent.value)) &&
      (forall e :: e in initLog ==> e.registered)
    }

    /** A codebase starts with the built-in words and the configured ones and, below a
        parent codebase, the words of the class names the parent's aliases denote.
        `parentAliasValues` is `Object.values(parent.aliases)`. */
    constructor(customWords: seq<string>, parent: Option<Registry.Scope>, parentAliasValues: seq<string>)
      requires parent.Some? ==> Registry.Valid(parent.value)
      requires parent.Some? ==> forall v :: v in parentAliasValues <==> v in parent.value.aliases.Values
      ensures Valid()
      ensures aliases == map[] && classes == map[] && classOrder == [] && alternates == map[] && patterns == []
      ensures !allClassesRegistered && properties == map[] && initLog == []
      ensures this.customWords == customWords && this.parent == parent
      ensures words == if parent.Some?
        then Words.AddWords(Words.AddWords(Words.DefaultWords, customWords, customWords), Words.ClassWords(parentAliasValues), customWords)
        else Words.AddWords(Words.DefaultWords, customWords, customWords)
    {
      aliases := map[];
      classes := map[];
      classOrder := [];
      alternates := map[];
      patterns := [];
      allClassesRegistered := false;
      properties := map[];
      initLog := [];
      this.customWords := customWords;
      this.parent := parent;
      words := Words.AddWords(Words.DefaultWords, customWords, customWords);
      new;
      if parent.Some? {
        AddWordsFromClassNames(parentAliasValues);
      }
    }

    /** `_addWords(newWords)`. */
    method AddWordsList(newWords: seq<string>)
      modifies this
      ensures words == Words.AddWords(old(words), newWords, customWords)
      ensures aliases == old(aliases) && classes == old(classes) && classOrder == old(classOrder)
      ensures alternates == old(alternates) && patterns == old(patterns)
      ensures allClassesRegistered == old(allClassesRegistered) && properties == old(properties)
      ensures initLog == old(initLog)
    {
      words := Words.AddWords(words, newWords, customWords);
    }

    /** `_addWordsFromClassNames(classNames)`. */
    method AddWordsFromClassNames(classNames: seq<string>)
      modifies this
      ensures words == Words.AddWords(old(words), Words.ClassWords(classNames), customWords)
      ensures aliases == old(aliases) && classes == old(classes) && classOrder == old(classOrder)
      ensures alternates == old(alternates) && patterns == old(patterns)
      ensures allClassesRegistered == old(allClassesRegistered) && properties == old(properties)
      ensures initLog == old(initLog)
    {
      AddWordsList(Words.ClassWords(classNames));
    }

    /** `logProperty(name)`. */
    method LogProperty(name: string)
      modifies this
      ensures properties == Bump(old(properties), name)
      ensures aliases == old(aliases) && classes == old(classes) && classOrder == old(classOrder)
      ensures alternates == old(alternates) && patterns == old(patterns)
      ensures allClassesRegistered == old(allClassesRegistered) && words == old(words)
      ensures initLog == old(initLog)
    {
      properties := Bump(properties, name);
    }

    /** Files the aliases of one class under its name, logging those already taken. */
    method AddAliases(names: seq<string>, className: string) returns (dups: seq<Duplicate>)
      modifies this
      ensures aliases == WithAll(old(aliases), names, className)
      ensures dups == AliasDuplicates(old(aliases), names, className)
      ensures classes == old(classes) && classOrder == old(classOrder) && alternates == old(alternates)
      ensures patterns == old(patterns) && allClassesRegistered == old(allClassesRegistered)
      ensures properties == old(properties) && words == old(words) && initLog == old(initLog)
    {
      dups := [];
      var j := 0;
      while j < |names|
        invariant 0 <= j <= |names|
        invariant aliases == WithAll(old(aliases), names[..j], className)
        invariant dups == AliasDuplicates(old(aliases), names[..j], className)
        invariant classes == old(classes) && classOrder == old(classOrder) && alternates == old(alternates)
        invariant patterns == old(patterns) && allClassesRegistered == old(allClassesRegistered)
        invariant properties == old(properties) && words == old(words) && initLog == old(initLog)
      {
        var a := names[j];
        AliasDuplicatesStep(old(aliases), names, className, j);
        WithAllStep(old(aliases), names, className, j);
        if a in aliases && aliases[a] != "" {
          dups := dups + [DuplicateAlias(a)];
        }
        aliases := aliases[a := className];
        j := j + 1;
      }
      assert names[..j] == names;
    }

    /** Files the alternate names of one class under its name. */
    method AddAlternates(names: seq<string>, className: string)
      modifies this
      ensures alternates == WithAll(old(alternates), names, className)
      ensures aliases == old(aliases) && classes == old(classes) && classOrder == old(classOrder)
      ensures patterns == old(patterns) && allClassesRegistered == old(allClassesRegistered)
      ensures properties == old(properties) && words == old(words) && initLog == old(initLog)
    {
      var j := 0;
      while j < |names|
        invariant 0 <= j <= |names|
        invariant alternates == WithAll(old(alternates), names[..j], className)
        invariant aliases == old(aliases) && classes == old(classes) && classOrder == old(classOrder)
        invariant patterns == old(patterns) && allClassesRegistered == old(allClassesRegistered)
        invariant properties == old(properties) && words == old(words) && initLog == old(initLog)
      {
        WithAllStep(old(alternates), names, className, j);
        alternates := alternates[names[j] := className];
        j := j + 1;
      }
      assert names[..j] == names;
    }

    /** Registers one class. */
    method RegisterClass(d: ClassDecl, log: seq<Duplicate>) returns (log': seq<Duplicate>)
      modifies this
      ensures TablesWith(log') == Register(old(TablesWith(log)), d)
      ensures allClassesRegistered == old(allClassesRegistered)
      ensures properties == old(properties) && words == old(words) && initLog == old(initLog)
    {
      var dups := AddAliases(d.aliases, d.className);
      log' := log + dups;
      if d.className in classes {
        log' := log' + [DuplicateClass(d.className)];
      } else {
        classOrder := classOrder + [d.className];
      }
      classes := classes[d.className := Registry.ClassEntry(d.className, d.exportName, d.ast)];
      AddAlternates(d.alternateNames, d.className);
      patterns := patterns + Patterns(d);
    }

    /** Registers the classes in order, returning the duplicates logged. */
    method RegisterClasses(decls: seq<ClassDecl>) returns (log: seq<Duplicate>)
      modifies this
      ensures TablesWith(log) == RegisterAll(old(TablesWith([])), decls)
      ensures allClassesRegistered == old(allClassesRegistered)
      ensures properties == old(properties) && words == old(words) && initLog == old(initLog)
    {
      log := [];
      var i := 0;
      while i < |decls|
        invariant 0 <= i <= |decls|
        invariant TablesWith(log) == RegisterAll(old(TablesWith([])), decls[..i])
        invariant allClassesRegistered == old(allClassesRegistered)
        invariant properties == old(properties) && words == old(words) && initLog == old(initLog)
      {
        RegisterAllStep(old(TablesWith([])), decls, i);
        log := RegisterClass(decls[i], log);
        i := i + 1;
      }
      assert decls[..i] == decls;
    }

    /** Initialises the given classes, then the given files, in order; each sees the
        registration flag as it is. */
    method InitAll(classNames: seq<string>, files: seq<string>)
      modifies this
      ensures initLog == old(initLog) + ClassInits(classNames, allClassesRegistered) + FileInits(files, allClassesRegistered)
      ensures TablesWith([]) == old(TablesWith([])) && allClassesRegistered == old(allClassesRegistered)
      ensures properties == old(properties) && words == old(words)
    {
      var flag := allClassesRegistered;
      var k := 0;
      while k < |classNames|
        invariant 0 <= k <= |classNames|
        invariant initLog == old(initLog) + ClassInits(classNames[..k], flag)
        invariant TablesWith([]) == old(TablesWith([])) && allClassesRegistered == old(allClassesRegistered)
        invariant properties == old(properties) && words == old(words)
      {
        assert ClassInits(classNames[..k + 1], flag) == ClassInits(classNames[..k], flag) + [InitClass(classNames[k], flag)];
        initLog := initLog + [InitClass(classNames[k], allClassesRegistered)];
        k := k + 1;
      }
      assert classNames[..k] == classNames;
      ghost var classInits := initLog;
      k := 0;
      while k < |files|
        invariant 0 <= k <= |files|
        invariant initLog == classInits + FileInits(files[..k], flag)
        invariant TablesWith([]) == old(TablesWith([])) && allClassesRegistered == old(allClassesRegistered)
        invariant properties == old(properties) && words == old(words)
      {
        assert FileInits(files[..k + 1], flag) == FileInits(files[..k], flag) + [InitFile(files[k], flag)];
        initLog := initLog + [InitFile(files[k], allClassesRegistered)];
        k := k + 1;
      }
      assert files[..k] == files;
    }

    /** `_addSourceFiles()`: registers every class of every file in order, adds the words
        of their names, sets the registration flag, and only then initialises the classes
        and then the files. Returns the duplicates it logs, in order. */
    method AddSourceFiles(decls: seq<ClassDecl>, files: seq<string>) returns (log: seq<Duplicate>)
      requires Valid()
      modifies this
      ensures Valid()
      ensures TablesWith(log) == RegisterAll(old(TablesWith([])), decls)
      ensures allClassesRegistered
      ensures words == Words.AddWords(old(words), Words.ClassWords(ClassNames(decls)), customWords)
      ensures initLog == old(initLog) + ClassInits(ClassNames(decls), true) + FileInits(files, true)
      ensures properties == old(properties)
    {
      ghost var before := TablesWith([]);
      log := RegisterClasses(decls);
      RegisterAllValid(before, decls);
      TablesValidWithoutLog(TablesWith(log));
      AddWordsFromClassNames(ClassNames(decls));
      allClassesRegistered := true;
      ghost var prefix := initLog;
      InitAll(ClassNames(decls), files);
      InitsRegistered(prefix, ClassNames(decls), files);
    }

    /** `capitalize(s)` with the codebase's current words. */
    function Capitalize(s: string): (r: Option<string>)
      reads this
      ensures r.None? <==> s == []
      ensures r.Some? ==> |r.value| == |s| && Text.ToLower(r.value) == Text.ToLower(s)
    {
      Words.CapitalizeSpec(words, s);
      Words.Capitalize(words, s)
    }
  }
}
