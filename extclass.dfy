/** One Ext JS class as the compiler sees it (src/ExtJSClass.js): its aliases, the class
    references in its `extend`, `mixins` and `plugins`, its ancestry, its configs and the
    accessors synthesised for them, and the per-class state the transpiler updates
    (the assimilating class, the props extracted into JSX, the listeners).
    The memoised getters of the source are pure functions of the registry and of the
    class's definition object; printing a node is the parameter `printer`. */
module ExtClass {

  import opened Wrappers
  import Text
  import Seqs
  import Ast
  import Registry
  import Words

  type Printer = Ast.Node -> string

  /** A member of the class definition object, `Ast.getProperty(this.ast, name)`. */
  function Member(ast: Ast.Node, name: string): Option<Ast.Node> {
    if ast.Obj? then Ast.GetProperty(ast, name) else None
  }

  // ---------------------------------------------------------------------------
  // Aliases (`_getAliasesFromNode`, `classAliases`)

  /** The alias namespace a config name implies. */
  function AliasPrefix(configName: string): (r: string)
    ensures configName == "xtype" ==> r == "widget."
    ensures configName == "viewModel" ==> r == "viewmodel."
    ensures configName == "controller" ==> r == "controller."
    ensures configName !in ["xtype", "viewModel", "controller"] ==> r == ""
  {
    if configName == "xtype" then "widget."
    else if configName == "viewModel" then "viewmodel."
    else if configName == "controller" then "controller."
    else ""
  }

  predicate TakesArrays(configName: string) { configName == "xtype" || configName == "alias" }

  predicate TakesObjects(configName: string) { configName == "controller" || configName == "viewModel" }

  /** `handleNode(node, aliases)`: the aliases named by `node` appended to `acc`. A string
      names one alias; `null` none; an array (for `xtype` and `alias`) the aliases of its
      elements in order; an object (for `controller` and `viewModel`) those of its `type`;
      a ternary those of its consequent, then those of its alternate. Any other shape is
      logged and names none. */
  function HandleAliasNode(configName: string, node: Ast.Node, acc: seq<string>): seq<string>
    decreases node
  {
    match node
    case Str(v) => acc + [AliasPrefix(configName) + v]
    case Null => acc
    case Arr(es) => if TakesArrays(configName) then HandleAliasNodes(configName, es, acc) else acc
    case Obj(ps) =>
      if TakesObjects(configName) then
        match Ast.FirstNamed(ps, "type", 0)
        case Some(i) => HandleAliasNode(configName, ps[i].value, acc)
        case None => acc
      else acc
    case Ternary(_, cons, alt) => HandleAliasNode(configName, alt, HandleAliasNode(configName, cons, acc))
    case _ => acc
  }

  /** `nodes.reduce((aliases, node) => handleNode(node, aliases), acc)`. */
  function HandleAliasNodes(configName: string, nodes: seq<Ast.Node>, acc: seq<string>): seq<string>
    decreases nodes
  {
    if nodes == [] then acc
    else HandleAliasNodes(configName, nodes[1..], HandleAliasNode(configName, nodes[0], acc))
  }

  /** `_getAliasesFromNode(configName, node)`. */
  function AliasesFromNode(configName: string, node: Ast.Node): seq<string> {
    HandleAliasNode(configName, node, [])
  }

  /** The aliases a node names, defined shape by shape without an accumulator. */
  function Aliases(configName: string, node: Ast.Node): (r: seq<string>)
    ensures forall a :: a in r ==> Text.StartsWith(a, AliasPrefix(configName))
    decreases node
  {
    match node
    case Str(v) =>
      assert (AliasPrefix(configName) + v)[..|AliasPrefix(configName)|] == AliasPrefix(configName);
      [AliasPrefix(configName) + v]
    case Null => []
    case Arr(es) => if TakesArrays(configName) then AliasesOfAll(configName, es) else []
    case Obj(ps) =>
      if TakesObjects(configName) then
        match Ast.FirstNamed(ps, "type", 0)
        case Some(i) => Aliases(configName, ps[i].value)
        case None => []
      else []
    case Ternary(_, cons, alt) => Aliases(configName, cons) + Aliases(configName, alt)
    case _ => []
  }

  function AliasesOfAll(configName: string, nodes: seq<Ast.Node>): (r: seq<string>)
    ensures forall a :: a in r ==> Text.StartsWith(a, AliasPrefix(configName))
    decreases nodes
  {
    if nodes == [] then [] else Aliases(configName, nodes[0]) + AliasesOfAll(configName, nodes[1..])
  }

  /** The accumulating traversal appends exactly the aliases the node names. */
  lemma {:induction false} HandleAliasNodeAppends(configName: string, node: Ast.Node, acc: seq<string>)
    ensures HandleAliasNode(configName, node, acc) == acc + Aliases(configName, node)
    decreases node
  {
    match node
    case Str(v) =>
    case Null =>
    case Arr(es) =>
      if TakesArrays(configName) {
        HandleAliasNodesAppends(configName, es, acc);
      }
    case Obj(ps) =>
      if TakesObjects(configName) {
        var t := Ast.FirstNamed(ps, "type", 0);
        if t.Some? {
          HandleAliasNodeAppends(configName, ps[t.value].value, acc);
        }
        AliasObjStep(configName, node, acc);
      }
    case Ternary(_, cons, alt) =>
      HandleAliasNodeAppends(configName, cons, acc);
      HandleAliasNodeAppends(configName, alt, acc + Aliases(configName, cons));
      AliasTernaryStep(configName, node, acc);
    case _ =>
  }

  /** The object step of HandleAliasNodeAppends, given the fact for its `type`. */
  lemma AliasObjStep(configName: string, node: Ast.Node, acc: seq<string>)
    requires node.Obj? && TakesObjects(configName)
    requires var t := Ast.FirstNamed(node.properties, "type", 0);
      t.Some? ==>
        HandleAliasNode(configName, node.properties[t.value].value, acc) == acc + Aliases(configName, node.properties[t.value].value)
    ensures HandleAliasNode(configName, node, acc) == acc + Aliases(configName, node)
  {
    var t := Ast.FirstNamed(node.properties, "type", 0);
    if t.None? {
      assert Aliases(configName, node) == [];
      assert acc + [] == acc;
    }
  }

  /** The ternary step of HandleAliasNodeAppends, given the facts for both branches. */
  lemma AliasTernaryStep(configName: string, node: Ast.Node, acc: seq<string>)
    requires node.Ternary?
    requires HandleAliasNode(configName, node.consequent, acc) == acc + Aliases(configName, node.consequent)
    requires HandleAliasNode(configName, node.alternate, acc + Aliases(configName, node.consequent)) ==
      acc + Aliases(configName, node.consequent) + Aliases(configName, node.alternate)
    ensures HandleAliasNode(configName, node, acc) == acc + Aliases(configName, node)
  {
    assert Aliases(configName, node) == Aliases(configName, node.consequent) + Aliases(configName, node.alternate);
    assert acc + Aliases(configName, node.consequent) + Aliases(configName, node.alternate) == acc + Aliases(configName, node);
  }

  lemma {:induction false} HandleAliasNodesAppends(configName: string, nodes: seq<Ast.Node>, acc: seq<string>)
    ensures HandleAliasNodes(configName, nodes, acc) == acc + AliasesOfAll(configName, nodes)
    decreases nodes
  {
    if nodes != [] {
      HandleAliasNodeAppends(configName, nodes[0], acc);
      HandleAliasNodesAppends(configName, nodes[1..], acc + Aliases(configName, nodes[0]));
    }
  }

  /** Every alias `_getAliasesFromNode` returns carries the config's prefix; an array is
      only looked into for `xtype` and `alias`, an object only for `controller` and
      `viewModel`, through its `type`. */
  lemma AliasesFromNodeSpec(configName: string, node: Ast.Node)
    ensures AliasesFromNode(configName, node) == Aliases(configName, node)
    ensures forall a :: a in AliasesFromNode(configName, node) ==> Text.StartsWith(a, AliasPrefix(configName))
    ensures node.Arr? && !TakesArrays(configName) ==> AliasesFromNode(configName, node) == []
    ensures node.Obj? && !TakesObjects(configName) ==> AliasesFromNode(configName, node) == []
    ensures node.Obj? && TakesObjects(configName) ==>
      AliasesFromNode(configName, node) ==
        match Ast.GetProperty(node, "type")
        case Some(t) => Aliases(configName, t)
        case None => []
  {
    HandleAliasNodeAppends(configName, node, []);
    if node.Obj? {
      Ast.GetPropertyAtFirst(node, "type");
    }
  }

  /** `classAliases`: the distinct aliases of the `xtype` member (as `widget.` aliases),
      then those of the `alias` member. */
  function ClassAliases(ast: Ast.Node): (r: seq<string>)
    ensures Seqs.NoDuplicates(r)
  {
    var xtypes := match Member(ast, "xtype") case Some(x) => AliasesFromNode("xtype", x) case None => [];
    var aliases := match Member(ast, "alias") case Some(a) => AliasesFromNode("alias", a) case None => [];
    Seqs.Uniq(xtypes + aliases)
  }

  lemma ClassAliasesSpec(ast: Ast.Node, a: string)
    ensures a in ClassAliases(ast) <==>
      (Member(ast, "xtype").Some? && a in Aliases("xtype", Member(ast, "xtype").value)) ||
      (Member(ast, "alias").Some? && a in Aliases("alias", Member(ast, "alias").value))
  {
    if Member(ast, "xtype").Some? {
      AliasesFromNodeSpec("xtype", Member(ast, "xtype").value);
    }
    if Member(ast, "alias").Some? {
      AliasesFromNodeSpec("alias", Member(ast, "alias").value);
    }
  }

  // ---------------------------------------------------------------------------
  // Class references (`_parseClassReferenceNode`)

  /** A name the alias table maps to `x` under the alias type. */
  ghost predicate IsAliasTarget(scope: Registry.Scope, aliasType: Option<string>, x: string) {
    aliasType.Some? && aliasType.value != "" &&
    exists v :: Registry.ClassNameForAlias(scope, aliasType.value + "." + v) == Some(x)
  }

  /** `getClassName` on a leaf node: the node's text names a class itself, or (given an
      alias type) through the alias `<aliasType>.<text>`; otherwise nothing. Empty names
      are dropped, as `_.compact` drops them. */
  function RefName(scope: Registry.Scope, printer: Printer, n: Ast.Node, aliasType: Option<string>): (r: Option<string>)
    ensures r.Some? ==> r.value != "" && (Registry.ClassForName(scope, r.value).Some? || IsAliasTarget(scope, aliasType, r.value))
  {
    var value := if n.Str? then n.value else printer(n);
    if Registry.ClassForName(scope, value).Some? then (if value != "" then Some(value) else None)
    else if aliasType.Some? && aliasType.value != "" then
      var r := Registry.ClassNameForAlias(scope, aliasType.value + "." + value);
      assert r.Some? ==> IsAliasTarget(scope, aliasType, r.value);
      r
    else None
  }

  /** `_.compact(_.flattenDeep([getClassName(node)]))`: for an object, the references of
      all its keys and then of all its values; for an array, those of its elements. */
  function ClassRefs(scope: Registry.Scope, printer: Printer, n: Ast.Node, aliasType: Option<string>): seq<string>
    decreases n
  {
    match n
    case Obj(ps) =>
      Seqs.Flatten(seq(|ps|, i requires 0 <= i < |ps| => ClassRefs(scope, printer, ps[i].key, aliasType))) +
      Seqs.Flatten(seq(|ps|, i requires 0 <= i < |ps| => ClassRefs(scope, printer, ps[i].value, aliasType)))
    case Arr(es) => Seqs.Flatten(seq(|es|, i requires 0 <= i < |es| => ClassRefs(scope, printer, es[i], aliasType)))
    case _ => match RefName(scope, printer, n, aliasType) case Some(x) => [x] case None => []
  }

  /** Every reference found names a class the registry resolves, or one an alias of the
      given type maps to; without an alias type, only resolvable class names come out. */
  lemma {:induction false} ClassRefsResolve(scope: Registry.Scope, printer: Printer, n: Ast.Node, aliasType: Option<string>, x: string)
    requires x in ClassRefs(scope, printer, n, aliasType)
    ensures x != ""
    ensures Registry.ClassForName(scope, x).Some? || IsAliasTarget(scope, aliasType, x)
    ensures aliasType.None? ==> Registry.ClassForName(scope, x).Some?
    decreases n
  {
    match n
    case Obj(ps) =>
      var keys := seq(|ps|, i requires 0 <= i < |ps| => ClassRefs(scope, printer, ps[i].key, aliasType));
      var values := seq(|ps|, i requires 0 <= i < |ps| => ClassRefs(scope, printer, ps[i].value, aliasType));
      if x in Seqs.Flatten(keys) {
        Seqs.FlattenMember(keys, x);
        var k :| 0 <= k < |keys| && x in keys[k];
        ClassRefsResolve(scope, printer, ps[k].key, aliasType, x);
      } else {
        Seqs.FlattenMember(values, x);
        var k :| 0 <= k < |values| && x in values[k];
        ClassRefsResolve(scope, printer, ps[k].value, aliasType, x);
      }
    case Arr(es) =>
      var refs := seq(|es|, i requires 0 <= i < |es| => ClassRefs(scope, printer, es[i], aliasType));
      Seqs.FlattenMember(refs, x);
      var k :| 0 <= k < |refs| && x in refs[k];
      ClassRefsResolve(scope, printer, es[k], aliasType, x);
    case _ =>
  }

  /** A string naming a registered class is that one reference. */
  lemma ClassRefsOfString(scope: Registry.Scope, printer: Printer, v: string, aliasType: Option<string>)
    requires v != "" && Registry.ClassForName(scope, v).Some?
    ensures ClassRefs(scope, printer, Ast.Str(v), aliasType) == [v]
  {
  }

  /** An array of strings naming registered classes gives those names, in order. */
  lemma {:induction false} ClassRefsOfStrings(scope: Registry.Scope, printer: Printer, names: seq<string>, aliasType: Option<string>)
    requires forall k :: 0 <= k < |names| ==> names[k] != "" && Registry.ClassForName(scope, names[k]).Some?
    ensures ClassRefs(scope, printer, Ast.Arr(seq(|names|, i requires 0 <= i < |names| => Ast.Str(names[i]))), aliasType) == names
    decreases |names|
  {
    var es := seq(|names|, i requires 0 <= i < |names| => Ast.Str(names[i]));
    var refs := seq(|es|, i requires 0 <= i < |es| => ClassRefs(scope, printer, es[i], aliasType));
    forall k | 0 <= k < |es| ensures refs[k] == [names[k]] {
      ClassRefsOfString(scope, printer, names[k], aliasType);
    }
    FlattenSingletons(refs, names);
  }

  lemma {:induction false} FlattenSingletons(refs: seq<seq<string>>, names: seq<string>)
    requires |refs| == |names|
    requires forall k :: 0 <= k < |refs| ==> refs[k] == [names[k]]
    ensures Seqs.Flatten(refs) == names
    decreases |refs|
  {
    if refs != [] {
      FlattenSingletons(refs[1..], names[1..]);
      assert names == [names[0]] + names[1..];
    }
  }

  // ---------------------------------------------------------------------------
  // Parent class and ancestors (`parentClassName`, `parentClass`, `ancestors`)

  /** `parentClassName`: the first class reference of the `extend` member, if any. */
  function ParentClassName(scope: Registry.Scope, printer: Printer, ast: Ast.Node): Option<string> {
    match Member(ast, "extend")
    case None => None
    case Some(e) =>
      var refs := ClassRefs(scope, printer, e, None);
      if refs == [] then None else Some(refs[0])
  }

  /** A parent class name taken from `extend` always names a class the registry resolves. */
  lemma ParentClassNameResolves(scope: Registry.Scope, printer: Printer, ast: Ast.Node)
    requires ParentClassName(scope, printer, ast).Some?
    ensures ParentClassName(scope, printer, ast).value != ""
    ensures Registry.ClassForName(scope, ParentClassName(scope, printer, ast).value).Some?
  {
    var e := Member(ast, "extend").value;
    ClassRefsResolve(scope, printer, e, None, ClassRefs(scope, printer, e, None)[0]);
  }

  /** What resolving through the registry gives: a value, or the error the source throws
      when a class reads `parentClass` before its codebase has registered every class,
      or (in the model only) an exhausted bound on the number of lookups. */
  datatype Outcome<T> = Done(value: T) | Unregistered | Exhausted

  /** `parentClass` of a class registered in `home`. */
  function ParentClass(home: Registry.Scope, printer: Printer, ast: Ast.Node): (r: Outcome<Option<Registry.Resolved>>)
    ensures !r.Exhausted?
  {
    if !home.registered then Unregistered
    else match ParentClassName(home, printer, ast)
      case Some(n) => Done(Registry.ClassForName(home, n))
      case None => Done(None)
  }

  /** `parentClass` errs exactly when the class's codebase has not registered its classes. */
  lemma ParentClassGuard(home: Registry.Scope, printer: Printer, ast: Ast.Node)
    ensures ParentClass(home, printer, ast).Unregistered? <==> !home.registered
    ensures home.registered && ParentClassName(home, printer, ast).Some? ==>
      ParentClass(home, printer, ast).Done? && ParentClass(home, printer, ast).value.Some?
  {
    if home.registered && ParentClassName(home, printer, ast).Some? {
      ParentClassNameResolves(home, printer, ast);
    }
  }

  /** How a class's parent is looked up: `parentClass` of a class registered in a codebase. */
  type ParentLookup = (Registry.Scope, Ast.Node) -> Outcome<Option<Registry.Resolved>>

  function ParentLookupOf(printer: Printer): ParentLookup {
    (home: Registry.Scope, ast: Ast.Node) => ParentClass(home, printer, ast)
  }

  /** The parent chain, nearest first, with at most `fuel` parent lookups. The source
      loops forever on a cycle of `extend`s; the bound is the model's. */
  function AncestorsOf(parentOf: ParentLookup, home: Registry.Scope, ast: Ast.Node, fuel: nat): Outcome<seq<Registry.Resolved>>
    decreases fuel
  {
    match parentOf(home, ast)
    case Unregistered => Unregistered
    case Exhausted => Exhausted
    case Done(None) => Done([])
    case Done(Some(p)) =>
      if fuel == 0 then Exhausted
      else Prepend([p], AncestorsOf(parentOf, p.home, p.entry.ast, fuel - 1))
  }

  /** The ancestors found so far, followed by what is still to be found. */
  function Prepend(found: seq<Registry.Resolved>, rest: Outcome<seq<Registry.Resolved>>): Outcome<seq<Registry.Resolved>> {
    match rest
    case Done(more) => Done(found + more)
    case Unregistered => Unregistered
    case Exhausted => Exhausted
  }

  /** How the walk ends, given the parent lookup where it stopped. */
  function Stop(link: Outcome<Option<Registry.Resolved>>, found: seq<Registry.Resolved>): Outcome<seq<Registry.Resolved>> {
    match link
    case Unregistered => Unregistered
    case Done(None) => Done(found)
    case _ => Exhausted
  }

  /** `ancestors`: follows `parentClass` until there is none. */
  method Ancestors(parentOf: ParentLookup, home: Registry.Scope, ast: Ast.Node, fuel: nat) returns (r: Outcome<seq<Registry.Resolved>>)
    ensures r == AncestorsOf(parentOf, home, ast, fuel)
  {
    var found: seq<Registry.Resolved> := [];
    var curHome, curAst, left := home, ast, fuel;
    var link := parentOf(curHome, curAst);
    PrependNothing(AncestorsOf(parentOf, home, ast, fuel));
    while link.Done? && link.value.Some? && left > 0
      invariant link == parentOf(curHome, curAst)
      invariant AncestorsOf(parentOf, home, ast, fuel) == Prepend(found, AncestorsOf(parentOf, curHome, curAst, left))
      decreases left
    {
      var p := link.value.value;
      PrependTwice(found, p, AncestorsOf(parentOf, p.home, p.entry.ast, left - 1));
      found := found + [p];
      curHome, curAst, left := p.home, p.entry.ast, left - 1;
      link := parentOf(curHome, curAst);
    }
    r := Stop(link, found);
    AncestorsStop(parentOf, curHome, curAst, left, found);
  }

  lemma PrependNothing(rest: Outcome<seq<Registry.Resolved>>)
    ensures Prepend([], rest) == rest
  {
    if rest.Done? {
      assert [] + rest.value == rest.value;
    }
  }

  lemma PrependTwice(found: seq<Registry.Resolved>, p: Registry.Resolved, rest: Outcome<seq<Registry.Resolved>>)
    ensures Prepend(found, Prepend([p], rest)) == Prepend(found + [p], rest)
  {
    if rest.Done? {
      assert found + ([p] + rest.value) == (found + [p]) + rest.value;
    }
  }

  /** Where the walk stops, the rest of the chain is decided by the parent found there. */
  lemma AncestorsStop(parentOf: ParentLookup, home: Registry.Scope, ast: Ast.Node, fuel: nat, found: seq<Registry.Resolved>)
    requires !(parentOf(home, ast).Done? && parentOf(home, ast).value.Some? && fuel > 0)
    ensures Prepend(found, AncestorsOf(parentOf, home, ast, fuel)) == Stop(parentOf(home, ast), found)
  {
    assert found + [] == found;
  }

  /** The ancestors are linked by `parentClass`: the first is the class's parent, each
      next one the parent of the one before, and the last has no parent. */
  lemma {:induction false} AncestorsLinked(parentOf: ParentLookup, home: Registry.Scope, ast: Ast.Node, fuel: nat)
    requires AncestorsOf(parentOf, home, ast, fuel).Done?
    ensures var anc := AncestorsOf(parentOf, home, ast, fuel).value;
      (anc == [] <==> parentOf(home, ast) == Done(None)) &&
      (anc != [] ==> parentOf(home, ast) == Done(Some(anc[0]))) &&
      (forall i :: 0 <= i < |anc| - 1 ==> parentOf(anc[i].home, anc[i].entry.ast) == Done(Some(anc[i + 1]))) &&
      (anc != [] ==> parentOf(anc[|anc| - 1].home, anc[|anc| - 1].entry.ast) == Done(None))
    decreases fuel
  {
    var anc := AncestorsOf(parentOf, home, ast, fuel).value;
    match parentOf(home, ast)
    case Done(None) =>
    case Done(Some(p)) =>
      AncestorsLinked(parentOf, p.home, p.entry.ast, fuel - 1);
      var rest := AncestorsOf(parentOf, p.home, p.entry.ast, fuel - 1).value;
      assert anc == [p] + rest;
      forall i | 0 <= i < |anc| - 1
        ensures parentOf(anc[i].home, anc[i].entry.ast) == Done(Some(anc[i + 1]))
      {
        if i > 0 {
          assert anc[i] == rest[i - 1] && anc[i + 1] == rest[i];
        }
      }
  }

  /** More fuel never changes a chain that was found. */
  lemma {:induction false} AncestorsFuel(parentOf: ParentLookup, home: Registry.Scope, ast: Ast.Node, fuel: nat)
    requires AncestorsOf(parentOf, home, ast, fuel).Done?
    ensures AncestorsOf(parentOf, home, ast, fuel + 1) == AncestorsOf(parentOf, home, ast, fuel)
    decreases fuel
  {
    match parentOf(home, ast)
    case Done(None) =>
    case Done(Some(p)) =>
      AncestorsFuel(parentOf, p.home, p.entry.ast, fuel - 1);
  }

  /** Reading the ancestors before registration is finished raises the error. */
  lemma AncestorsGuard(printer: Printer, home: Registry.Scope, ast: Ast.Node, fuel: nat)
    requires !home.registered
    ensures AncestorsOf(ParentLookupOf(printer), home, ast, fuel) == Unregistered
  {
  }

  // ---------------------------------------------------------------------------
  // Configs (`configs`, `cachedConfigs`, `eventedConfigs`, `localConfigs`,
  // `inheritedConfigs`, `localAndInheritedConfigs`, `_getLocalConfigs`)

  /** The names of the properties of the config object under `key`. */
  function ConfigNames(ast: Ast.Node, key: string): seq<string> {
    match Member(ast, key)
    case Some(Obj(ps)) => PropertyNames(ps)
    case _ => []
  }

  function PropertyNames(ps: seq<Ast.Property>): (r: seq<string>)
    ensures forall x :: x in r <==> exists k :: 0 <= k < |ps| && Ast.PropertyName(ps[k]) == Some(x)
    decreases |ps|
  {
    if ps == [] then []
    else
      var rest := PropertyNames(ps[1..]);
      assert forall x :: (exists k :: 0 <= k < |ps[1..]| && Ast.PropertyName(ps[1..][k]) == Some(x)) <==>
                         (exists k :: 1 <= k < |ps| && Ast.PropertyName(ps[k]) == Some(x)) by {
        forall x | exists k :: 1 <= k < |ps| && Ast.PropertyName(ps[k]) == Some(x)
          ensures exists k :: 0 <= k < |ps[1..]| && Ast.PropertyName(ps[1..][k]) == Some(x)
        {
          var k :| 1 <= k < |ps| && Ast.PropertyName(ps[k]) == Some(x);
          assert ps[1..][k - 1] == ps[k];
        }
      }
      match Ast.PropertyName(ps[0])
      case Some(n) => [n] + rest
      case None => rest
  }

  /** `_getLocalConfigs(type)`: the config names of one kind that are not inherited, sorted. */
  function LocalOf(ast: Ast.Node, key: string, inherited: seq<string>): seq<string> {
    Seqs.Sort(Seqs.Difference(ConfigNames(ast, key), inherited), Seqs.StringLe())
  }

  /** `localConfigs`: the configs, then the cached configs, then the evented configs. */
  function LocalConfigs(ast: Ast.Node, inherited: seq<string>): seq<string> {
    LocalOf(ast, "config", inherited) + LocalOf(ast, "cachedConfig", inherited) + LocalOf(ast, "eventedConfig", inherited)
  }

  /** Each kind of local config is sorted and holds exactly the declared names of that
      kind that are not inherited. */
  lemma LocalOfSpec(ast: Ast.Node, key: string, inherited: seq<string>, x: string)
    ensures Seqs.SortedBy(LocalOf(ast, key, inherited), Seqs.StringLe())
    ensures x in LocalOf(ast, key, inherited) <==> x in ConfigNames(ast, key) && x !in inherited
  {
    var d := Seqs.Difference(ConfigNames(ast, key), inherited);
    Seqs.StringLeTotalPreorder();
    Seqs.SortSorted(d, Seqs.StringLe());
    Seqs.SortMembers(d, Seqs.StringLe(), x);
  }

  /** No local config is also inherited. */
  lemma LocalConfigsNotInherited(ast: Ast.Node, inherited: seq<string>, x: string)
    requires x in LocalConfigs(ast, inherited)
    ensures x !in inherited
    ensures x in ConfigNames(ast, "config") || x in ConfigNames(ast, "cachedConfig") || x in ConfigNames(ast, "eventedConfig")
  {
    LocalOfSpec(ast, "config", inherited, x);
    LocalOfSpec(ast, "cachedConfig", inherited, x);
    LocalOfSpec(ast, "eventedConfig", inherited, x);
  }

  /** A class the registry finds under one of the names. */
  ghost predicate ResolvedFrom(home: Registry.Scope, names: seq<string>, c: Registry.Resolved) {
    exists n :: n in names && Registry.ClassForName(home, n) == Some(c)
  }

  /** The classes the names resolve to, in order, dropping the names the registry does
      not know (`names.map(getClassForClassName)` under `_.compact`). */
  function Lookups(home: Registry.Scope, names: seq<string>): (r: seq<Registry.Resolved>)
    ensures forall c :: c in r ==> ResolvedFrom(home, names, c)
    ensures forall k :: 0 <= k < |names| && Registry.ClassForName(home, names[k]).Some? ==>
      Registry.ClassForName(home, names[k]).value in r
    ensures |r| <= |names|
    decreases |names|
  {
    if names == [] then []
    else
      var rest := Lookups(home, names[1..]);
      assert forall c :: c in rest ==> ResolvedFrom(home, names, c) by {
        forall c | c in rest ensures ResolvedFrom(home, names, c) {
          assert ResolvedFrom(home, names[1..], c);
          var n :| n in names[1..] && Registry.ClassForName(home, n) == Some(c);
          assert n in names;
        }
      }
      assert forall k :: 1 <= k < |names| && Registry.ClassForName(home, names[k]).Some? ==>
        Registry.ClassForName(home, names[k]).value in rest by {
        forall k | 1 <= k < |names| && Registry.ClassForName(home, names[k]).Some?
          ensures Registry.ClassForName(home, names[k]).value in rest {
          assert names[1..][k - 1] == names[k];
        }
      }
      match Registry.ClassForName(home, names[0])
      case Some(c) =>
        assert ResolvedFrom(home, names, c) by { assert names[0] in names; }
        [c] + rest
      case None => rest
  }

  /** The lookups of a list are the lookups of its parts, one after the other, and one
      name contributes its class or nothing: so the kept classes come in the order of
      the names, each resolving name contributing exactly one. */
  lemma {:induction false} LookupsConcat(home: Registry.Scope, a: seq<string>, b: seq<string>)
    ensures Lookups(home, a + b) == Lookups(home, a) + Lookups(home, b)
    ensures |a| == 1 ==> (Lookups(home, a) ==
                           match Registry.ClassForName(home, a[0]) case Some(c) => [c] case None => [])
    decreases |a|
  {
    if a != [] {
      assert (a + b)[1..] == a[1..] + b;
      assert (a + b)[0] == a[0];
      LookupsConcat(home, a[1..], b);
      assert Lookups(home, a + b) == Lookups(home, [a[0]]) + Lookups(home, a[1..] + b);
      assert Lookups(home, a) == Lookups(home, [a[0]]) + Lookups(home, a[1..]);
    } else {
      assert a + b == b;
    }
  }

  /** A class found by name is registered, under its own name, in a codebase of the chain. */
  lemma LookupsRegistered(home: Registry.Scope, names: seq<string>, c: Registry.Resolved)
    requires Registry.Valid(home)
    requires ResolvedFrom(home, names, c)
    ensures c.home in Registry.Chain(home) && c.entry.className in c.home.classes && c.home.classes[c.entry.className] == c.entry
  {
    var n :| n in names && Registry.ClassForName(home, n) == Some(c);
    Registry.ClassForNameRegistered(home, n);
  }

  function Mixins(home: Registry.Scope, printer: Printer, ast: Ast.Node): seq<string> {
    match Member(ast, "mixins") case Some(m) => ClassRefs(home, printer, m, None) case None => []
  }

  function Plugins(home: Registry.Scope, printer: Printer, ast: Ast.Node): seq<string> {
    match Member(ast, "plugins") case Some(m) => ClassRefs(home, printer, m, Some("plugin")) case None => []
  }

  /** `_.compact([parentClass, ...mixin classes, ...plugin classes])`. */
  function Related(home: Registry.Scope, printer: Printer, ast: Ast.Node): Outcome<seq<Registry.Resolved>> {
    match ParentClass(home, printer, ast)
    case Done(parent) =>
      Done((match parent case Some(p) => [p] case None => []) +
           Lookups(home, Mixins(home, printer, ast)) + Lookups(home, Plugins(home, printer, ast)))
    case _ => Unregistered
  }

  /** `localAndInheritedConfigs`, with at most `fuel` levels of inheritance. */
  function AllConfigs(home: Registry.Scope, printer: Printer, ast: Ast.Node, fuel: nat): Outcome<seq<string>>
    decreases fuel, 0, 0
  {
    if fuel == 0 then Exhausted
    else match InheritedConfigs(home, printer, ast, fuel - 1)
      case Done(inherited) => Done(LocalConfigs(ast, inherited) + inherited)
      case Unregistered => Unregistered
      case Exhausted => Exhausted
  }

  /** `inheritedConfigs`: every config of the parent, the mixins and the plugins. */
  function InheritedConfigs(home: Registry.Scope, printer: Printer, ast: Ast.Node, fuel: nat): Outcome<seq<string>>
    decreases fuel, 2, 0
  {
    match Related(home, printer, ast)
    case Done(rs) => CollectConfigs(rs, printer, fuel)
    case Unregistered => Unregistered
    case Exhausted => Exhausted
  }

  function CollectConfigs(rs: seq<Registry.Resolved>, printer: Printer, fuel: nat): Outcome<seq<string>>
    decreases fuel, 1, |rs|
  {
    if rs == [] then Done([])
    else match AllConfigs(rs[0].home, printer, rs[0].entry.ast, fuel)
      case Done(first) =>
        (match CollectConfigs(rs[1..], printer, fuel)
         case Done(more) => Done(first + more)
         case Unregistered => Unregistered
         case Exhausted => Exhausted)
      case Unregistered => Unregistered
      case Exhausted => Exhausted
  }

  /** The inherited configs are exactly the configs of the related classes: each related
      class's configs are all inherited, and every inherited config is one of them. */
  lemma {:induction false} CollectConfigsSpec(rs: seq<Registry.Resolved>, printer: Printer, fuel: nat, x: string)
    requires CollectConfigs(rs, printer, fuel).Done?
    ensures forall k :: 0 <= k < |rs| ==> AllConfigs(rs[k].home, printer, rs[k].entry.ast, fuel).Done?
    ensures x in CollectConfigs(rs, printer, fuel).value <==>
      exists k :: 0 <= k < |rs| && x in AllConfigs(rs[k].home, printer, rs[k].entry.ast, fuel).value
    decreases |rs|
  {
    if rs != [] {
      CollectConfigsSpec(rs[1..], printer, fuel, x);
      forall k | 0 <= k < |rs| ensures AllConfigs(rs[k].home, printer, rs[k].entry.ast, fuel).Done? {
        if k > 0 {
          assert rs[k] == rs[1..][k - 1];
        }
      }
      if exists k :: 0 <= k < |rs| && x in AllConfigs(rs[k].home, printer, rs[k].entry.ast, fuel).value {
        var k :| 0 <= k < |rs| && x in AllConfigs(rs[k].home, printer, rs[k].entry.ast, fuel).value;
        if k > 0 {
          assert rs[k] == rs[1..][k - 1];
        }
      }
    }
  }

  /** A class's configs are its local configs, sorted per kind and none of them inherited,
      followed by the inherited ones. */
  lemma AllConfigsSpec(home: Registry.Scope, printer: Printer, ast: Ast.Node, fuel: nat, x: string)
    requires AllConfigs(home, printer, ast, fuel).Done?
    ensures InheritedConfigs(home, printer, ast, fuel - 1).Done?
    ensures var inherited := InheritedConfigs(home, printer, ast, fuel - 1).value;
      AllConfigs(home, printer, ast, fuel).value == LocalConfigs(ast, inherited) + inherited &&
      (x in LocalConfigs(ast, inherited) ==> x !in inherited)
  {
    var inherited := InheritedConfigs(home, printer, ast, fuel - 1).value;
    if x in LocalConfigs(ast, inherited) {
      LocalConfigsNotInherited(ast, inherited, x);
    }
  }

  /** Configs are read through `parentClass`, so reading them before registration is
      finished raises the error. */
  lemma InheritedConfigsGuard(home: Registry.Scope, printer: Printer, ast: Ast.Node, fuel: nat)
    requires !home.registered
    ensures InheritedConfigs(home, printer, ast, fuel) == Unregistered
  {
  }

  /** The related classes are the parent (when it resolves) and the mixins and plugins that
      resolve; each is a class registered in some codebase of the chain. */
  lemma RelatedRegistered(home: Registry.Scope, printer: Printer, ast: Ast.Node, c: Registry.Resolved)
    requires Registry.Valid(home)
    requires Related(home, printer, ast).Done? && c in Related(home, printer, ast).value
    ensures c.home in Registry.Chain(home) && c.entry.className in c.home.classes && c.home.classes[c.entry.className] == c.entry
  {
    var parent := ParentClass(home, printer, ast).value;
    var mixins := Lookups(home, Mixins(home, printer, ast));
    var plugins := Lookups(home, Plugins(home, printer, ast));
    if c in mixins {
      LookupsRegistered(home, Mixins(home, printer, ast), c);
    } else if c in plugins {
      LookupsRegistered(home, Plugins(home, printer, ast), c);
    } else {
      var n := ParentClassName(home, printer, ast).value;
      LookupsRegistered(home, [n], c);
    }
  }

  // ---------------------------------------------------------------------------
  // Accessors (`getAccessorsFromConfig`)

  /** One statement of a synthesised setter. */
  datatype SetterStep =
    | ApplyStep(applyCode: string)                  // value = (apply).call(this, value, previous)
    | UpdateStep(updateCode: string, guarded: bool) // (update).call(this, value, this._<name>)
    | DispatchStep(eventName: string)               // if initialised: dispatch the change event
    | MarkInitialized                               // this._<name>Initialized = true
    | AssignStep                                    // this._<name> = value

  /** The getter: whether it starts with the "initialise on first read" guard; the setter
      steps in order. */
  datatype Methods = Methods(initGuard: bool, setter: seq<SetterStep>)

  datatype Accessor = Accessor(externalName: string, internalName: string, defaultValue: string, methods: Option<Methods>)

  /** `code.replace(/;$/, '')`. */
  function StripSemicolon(code: string): (r: string)
    ensures code != [] && code[|code| - 1] == ';' ==> r + ";" == code
    ensures (code == [] || code[|code| - 1] != ';') ==> r == code
  {
    if code != [] && code[|code| - 1] == ';' then code[..|code| - 1] else code
  }

  /** The accessor for a config `name` with its printed default value, given the printed
      `apply<Name>` and `update<Name>` members (when the class has them) and whether the
      config is evented. */
  function MakeAccessor(name: string, defaultValue: string, apply: Option<string>, update: Option<string>, evented: bool): Accessor {
    if apply.None? && update.None? && !evented then Accessor(name, name, defaultValue, None)
    else
      var hooked := apply.Some? || update.Some?;
      var setter :=
        (if apply.Some? then [ApplyStep(apply.value)] else []) +
        (if update.Some? then [UpdateStep(update.value, apply.Some?)] else []) +
        (if evented then [DispatchStep(Text.ToLower(name) + "change")] else []) +
        (if hooked then [MarkInitialized] else []) +
        [AssignStep];
      Accessor(name, "_" + name, defaultValue, Some(Methods(hooked, setter)))
  }

  /** The position a kind of step has in every setter. */
  function Rank(step: SetterStep): nat {
    match step
    case ApplyStep(_) => 0
    case UpdateStep(_, _) => 1
    case DispatchStep(_) => 2
    case MarkInitialized => 3
    case AssignStep => 4
  }

  /** A plain field exactly when there is no hook and no event, with the internal name equal
      to the external one; otherwise the value lives in `_<name>`, the getter initialises
      it first when there is a hook, and the setter applies, updates (guarded by "defined
      and changed" when there is also an apply), dispatches the change event, marks the
      value initialised (only with a hook) and assigns, in that order, each at most once. */
  lemma MakeAccessorShape(name: string, defaultValue: string, apply: Option<string>, update: Option<string>, evented: bool)
    ensures var a := MakeAccessor(name, defaultValue, apply, update, evented);
      a.externalName == name && a.defaultValue == defaultValue &&
      (a.methods.None? <==> apply.None? && update.None? && !evented) &&
      (a.methods.None? ==> a.internalName == name) &&
      (a.methods.Some? ==>
        a.internalName == "_" + name && a.methods.value.initGuard == (apply.Some? || update.Some?))
  {
  }

  /** The setter's steps come in the fixed order apply, update, dispatch, mark, assign:
      each kind at most once, and the assignment last. */
  lemma MakeAccessorOrder(name: string, defaultValue: string, apply: Option<string>, update: Option<string>, evented: bool)
    ensures var a := MakeAccessor(name, defaultValue, apply, update, evented);
      a.methods.Some? ==>
        var steps := a.methods.value.setter;
        (forall i, j :: 0 <= i < j < |steps| ==> Rank(steps[i]) < Rank(steps[j])) &&
        steps[|steps| - 1] == AssignStep
  {
  }

  /** Each optional step is in the setter exactly when its trigger is present: the apply
      code with an apply member, the update code (guarded when there is also an apply) with
      an update member, the `<name>change` event when evented, the initialised mark with
      either member. */
  lemma MakeAccessorSteps(name: string, defaultValue: string, apply: Option<string>, update: Option<string>, evented: bool)
    ensures var a := MakeAccessor(name, defaultValue, apply, update, evented);
      a.methods.Some? ==>
        var steps := a.methods.value.setter;
        (apply.Some? <==> ApplyStep(apply.GetOr("")) in steps) &&
        (update.Some? <==> UpdateStep(update.GetOr(""), apply.Some?) in steps) &&
        (evented <==> DispatchStep(Text.ToLower(name) + "change") in steps) &&
        ((apply.Some? || update.Some?) <==> MarkInitialized in steps)
  {
    var a := MakeAccessor(name, defaultValue, apply, update, evented);
    if a.methods.Some? {
      var s1 := if apply.Some? then [ApplyStep(apply.value)] else [];
      var s2 := if update.Some? then [UpdateStep(update.value, apply.Some?)] else [];
      var s3 := if evented then [DispatchStep(Text.ToLower(name) + "change")] else [];
      var s4 := if apply.Some? || update.Some? then [MarkInitialized] else [];
      var steps := s1 + s2 + s3 + s4 + [AssignStep];
      assert a.methods.value.setter == steps;
      StepsMembers(s1, s2, s3, s4, AssignStep, ApplyStep(apply.GetOr("")));
      StepsMembers(s1, s2, s3, s4, AssignStep, UpdateStep(update.GetOr(""), apply.Some?));
      StepsMembers(s1, s2, s3, s4, AssignStep, DispatchStep(Text.ToLower(name) + "change"));
      StepsMembers(s1, s2, s3, s4, AssignStep, MarkInitialized);
    }
  }

  /** Membership in a setter's list of steps, group by group. */
  lemma StepsMembers(s1: seq<SetterStep>, s2: seq<SetterStep>, s3: seq<SetterStep>, s4: seq<SetterStep>, last: SetterStep, x: SetterStep)
    ensures x in s1 + s2 + s3 + s4 + [last] <==> x in s1 || x in s2 || x in s3 || x in s4 || x == last
  {
  }

  /** `this.classMembers[member]` as a hook: `Some(None)` when the class has no such member,
      the printed method when it is a method, and `None` when it is some other member
      (marking that hook deleted makes the source throw). */
  function Hook(printer: Printer, members: map<string, Ast.Node>, member: string): (r: Option<Option<string>>)
    ensures r == Some(None) <==> member !in members
    ensures r.None? <==> member in members && !Ast.IsFunction(members[member])
  {
    if member !in members then Some(None)
    else if Ast.IsFunction(members[member]) then Some(Some(printer(members[member])))
    else None
  }

  /** What `getAccessorsFromConfig(node, evented)` returns, or `None` where it throws. */
  function AccessorOf(printer: Printer, members: map<string, Ast.Node>, p: Ast.Property, evented: bool): Option<Accessor> {
    var name := printer(p.key);
    if name == [] then None
    else
      var defaultValue := StripSemicolon(printer(p.value));
      var cap := Text.UpperFirst(name);
      var apply := Hook(printer, members, "apply" + cap);
      var update := Hook(printer, members, "update" + cap);
      if apply == Some(None) && update == Some(None) && !evented then Some(MakeAccessor(name, defaultValue, None, None, false))
      else if apply.None? || update.None? then None
      else Some(MakeAccessor(name, defaultValue, apply.value, update.value, evented))
  }

  /** The source throws for a config whose printed name is empty, and for one with an
      `apply<Name>` or `update<Name>` member that is not a method (unless the config is
      a plain field, which the source returns before looking at the hooks). Otherwise the
      accessor is named after the config, its default is the printed value without a
      trailing `;`, and it is a plain field exactly when neither hook exists and the
      config is not evented. */
  lemma AccessorOfSpec(printer: Printer, members: map<string, Ast.Node>, p: Ast.Property, evented: bool)
    ensures var name := printer(p.key);
      var applyName := "apply" + Text.UpperFirst(name);
      var updateName := "update" + Text.UpperFirst(name);
      var plain := applyName !in members && updateName !in members && !evented;
      var badHook := (applyName in members && !Ast.IsFunction(members[applyName])) ||
        (updateName in members && !Ast.IsFunction(members[updateName]));
      var r := AccessorOf(printer, members, p, evented);
      (r.None? <==> name == [] || (!plain && badHook)) &&
      (r.Some? ==>
        r.value.externalName == name &&
        r.value.defaultValue == StripSemicolon(printer(p.value)) &&
        (r.value.methods.None? <==> plain))
  {
    var name := printer(p.key);
    if name != [] {
      var cap := Text.UpperFirst(name);
      var apply := Hook(printer, members, "apply" + cap);
      var update := Hook(printer, members, "update" + cap);
      if apply == Some(None) && update == Some(None) && !evented {
      } else if apply.Some? && update.Some? {
        MakeAccessorShape(name, StripSemicolon(printer(p.value)), apply.value, update.value, evented);
      }
    }
  }

  /** With methods, the setter applies the `apply<Name>` method when the class has one and
      calls the `update<Name>` method when it has one, each printed. */
  lemma AccessorOfHooks(printer: Printer, members: map<string, Ast.Node>, p: Ast.Property, evented: bool)
    requires AccessorOf(printer, members, p, evented).Some?
    requires AccessorOf(printer, members, p, evented).value.methods.Some?
    ensures var name := printer(p.key);
      var applyName := "apply" + Text.UpperFirst(name);
      var updateName := "update" + Text.UpperFirst(name);
      var steps := AccessorOf(printer, members, p, evented).value.methods.value.setter;
      (applyName in members ==> ApplyStep(printer(members[applyName])) in steps) &&
      (updateName in members ==> UpdateStep(printer(members[updateName]), applyName in members) in steps) &&
      (evented ==> DispatchStep(Text.ToLower(name) + "change") in steps)
  {
    var name := printer(p.key);
    var cap := Text.UpperFirst(name);
    var apply := Hook(printer, members, "apply" + cap);
    var update := Hook(printer, members, "update" + cap);
    MakeAccessorSteps(name, StripSemicolon(printer(p.value)), apply.value, update.value, evented);
  }

  // ---------------------------------------------------------------------------
  // Props extracted into JSX (`_shouldExtractJSXValue`)

  /** Every string literal of an expression, keys included, in source order. */
  function StringLiterals(n: Ast.Node): seq<string>
    decreases n
  {
    match n
    case Str(v) => [v]
    case Arr(es) => Seqs.Flatten(seq(|es|, i requires 0 <= i < |es| => StringLiterals(es[i])))
    case Obj(ps) => Seqs.Flatten(seq(|ps|, i requires 0 <= i < |ps| => StringLiterals(ps[i].key) + StringLiterals(ps[i].value)))
    case Ternary(t, c, a) => StringLiterals(t) + StringLiterals(c) + StringLiterals(a)
    case Member(o, q) => StringLiterals(o) + StringLiterals(q)
    case Call(c, args) => StringLiterals(c) + Seqs.Flatten(seq(|args|, i requires 0 <= i < |args| => StringLiterals(args[i])))
    case Func(_, _, params, body) =>
      Seqs.Flatten(seq(|params|, i requires 0 <= i < |params| => StringLiterals(params[i]))) + BodyLiterals(body)
    case Other(ch) => Seqs.Flatten(seq(|ch|, i requires 0 <= i < |ch| => StringLiterals(ch[i])))
    case _ => []
  }

  function BodyLiterals(b: Ast.Body): seq<string>
    decreases b
  {
    match b
    case Block(ss) => Seqs.Flatten(seq(|ss|, i requires 0 <= i < |ss| => StmtLiterals(ss[i])))
    case Expression(e) => StringLiterals(e)
  }

  function StmtLiterals(st: Ast.Stmt): seq<string>
    decreases st
  {
    match st
    case Return(arg) => (match arg case Some(e) => StringLiterals(e) case None => [])
    case VarDecl(_, inits) => Seqs.Flatten(seq(|inits|, i requires 0 <= i < |inits| => StringLiterals(inits[i])))
    case ExprStmt(e) => StringLiterals(e)
    case Nested(ss) => Seqs.Flatten(seq(|ss|, i requires 0 <= i < |ss| => StmtLiterals(ss[i])))
    case Compound(es, inner) =>
      Seqs.Flatten(seq(|es|, i requires 0 <= i < |es| => StringLiterals(es[i]))) +
      Seqs.Flatten(seq(|inner|, i requires 0 <= i < |inner| => StmtLiterals(inner[i])))
  }

  /** What the pattern `<[^>]+>|,|\.|\?` matches at position `i`: a comma, a dot, a
      question mark, or a `<` closed by the next `>` with at least one character between. */
  ghost predicate MatchAt(s: string, i: nat)
    requires i < |s|
  {
    s[i] == ',' || s[i] == '.' || s[i] == '?' ||
    (s[i] == '<' && exists j :: i + 1 < j < |s| && s[j] == '>' && forall k :: i < k < j ==> s[k] != '>')
  }

  /** The text contains a match of the pattern somewhere. */
  ghost predicate ComplexText(s: string) {
    exists i :: 0 <= i < |s| && MatchAt(s, i)
  }

  /** The regular-expression test, searching from position `i`. */
  function Scan(s: string, i: nat): bool
    requires i <= |s|
    decreases |s| - i
  {
    if i == |s| then false
    else if s[i] == ',' || s[i] == '.' || s[i] == '?' then true
    else if s[i] == '<' && i + 1 < |s| && s[i + 1] != '>' && '>' in s[i + 2..] then true
    else Scan(s, i + 1)
  }

  /** The first `>` at or after position `k`. */
  lemma FirstClose(s: string, k: nat) returns (j: nat)
    requires k <= |s| && '>' in s[k..]
    ensures k <= j < |s| && s[j] == '>' && forall m :: k <= m < j ==> s[m] != '>'
    decreases |s| - k
  {
    if s[k] == '>' {
      j := k;
    } else {
      assert s[k..] == [s[k]] + s[k + 1..];
      j := FirstClose(s, k + 1);
    }
  }

  lemma {:induction false} ScanFrom(s: string, i: nat)
    requires i <= |s|
    ensures Scan(s, i) <==> exists m :: i <= m < |s| && MatchAt(s, m)
    decreases |s| - i
  {
    if i < |s| {
      ScanFrom(s, i + 1);
      if s[i] == '<' && i + 1 < |s| && s[i + 1] != '>' && '>' in s[i + 2..] {
        var j := FirstClose(s, i + 2);
        assert MatchAt(s, i);
      }
      if MatchAt(s, i) && s[i] == '<' {
        var j :| i + 1 < j < |s| && s[j] == '>' && forall k :: i < k < j ==> s[k] != '>';
        assert s[i + 1] != '>';
        assert s[i + 2..][j - i - 2] == '>';
      }
      if exists m :: i <= m < |s| && MatchAt(s, m) {
        var m :| i <= m < |s| && MatchAt(s, m);
        if m > i {
          assert exists m' :: i + 1 <= m' < |s| && MatchAt(s, m');
        }
      }
    }
  }

  /** `_shouldExtractJSXValue(node)`: some string literal in the expression has a tag, a
      comma, a dot or a question mark. */
  function ShouldExtractJSXValue(n: Ast.Node): bool {
    exists k :: 0 <= k < |StringLiterals(n)| && Scan(StringLiterals(n)[k], 0)
  }

  lemma ShouldExtractJSXValueSpec(n: Ast.Node)
    ensures ShouldExtractJSXValue(n) <==> exists s :: s in StringLiterals(n) && ComplexText(s)
  {
    var lits := StringLiterals(n);
    forall k | 0 <= k < |lits| ensures Scan(lits[k], 0) <==> ComplexText(lits[k]) {
      ScanFrom(lits[k], 0);
    }
    if exists s :: s in lits && ComplexText(s) {
      var s :| s in lits && ComplexText(s);
      var k :| 0 <= k < |lits| && lits[k] == s;
    }
  }

  // ---------------------------------------------------------------------------
  // Template interpolations (`_convertTplInterpolations`, one match at a time)

  /** `replaceQuotes(code)`: both kinds of quote become HTML entities. */
  function ReplaceQuotes(code: string): (r: string)
    ensures '"' !in r && '\'' !in r
  {
    var once := Text.ReplaceAll(code, "\"", "&quot;");
    Text.ReplaceAllRemovesChar(code, '"', "&quot;");
    Text.ReplaceAllKeepsOut(once, "'", "&apos;", '"');
    Text.ReplaceAllRemovesChar(once, '\'', "&apos;");
    Text.ReplaceAll(once, "'", "&apos;")
  }

  /** The helper text where `this.` is rewritten in inline code: `<helper>.` for a helper,
      nothing without one. */
  function HelperPrefix(helper: Option<string>): string {
    if helper.Some? && helper.value != "" then helper.value + "." else ""
  }

  /** The replacement for `{[ original ]}`: `{ code }` with quotes escaped, `values` read
      as `data` and `this.` read as the helper. */
  function InlineInterpolation(original: string, helper: Option<string>): (r: string)
  {
    var code := "{" + ReplaceQuotes(Text.Trim(original)) + "}";
    var code := Text.ReplaceAll(code, "values", "data");
    Text.ReplaceAll(code, "this.", HelperPrefix(helper))
  }

  /** Inline code never carries a quote character unless the helper's name does. */
  lemma InlineInterpolationNoQuotes(original: string, helper: Option<string>)
    requires helper.Some? ==> '"' !in helper.value && '\'' !in helper.value
    ensures '"' !in InlineInterpolation(original, helper) && '\'' !in InlineInterpolation(original, helper)
  {
    var code := "{" + ReplaceQuotes(Text.Trim(original)) + "}";
    var prefix := HelperPrefix(helper);
    assert '"' !in prefix && '\'' !in prefix;
    RewritesKeepOut(code, "values", "data", "this.", prefix, '"');
    RewritesKeepOut(code, "values", "data", "this.", prefix, '\'');
  }

  /** Two rewrites in a row keep a character out when neither replacement brings it in. */
  lemma RewritesKeepOut(code: string, p1: string, r1: string, p2: string, r2: string, c: char)
    requires p1 != [] && p2 != []
    requires c !in code && c !in r1 && c !in r2
    ensures c !in Text.ReplaceAll(Text.ReplaceAll(code, p1, r1), p2, r2)
  {
    Text.ReplaceAllKeepsOut(code, p1, r1, c);
    Text.ReplaceAllKeepsOut(Text.ReplaceAll(code, p1, r1), p2, r2, c);
  }

  predicate IsLineTerminator(c: char) {
    c == '\n' || c == '\r' || c == '\U{2028}' || c == '\U{2029}'
  }

  /** The first index at or after `k` where `s` has no `(`: where `[^(]+` starts matching. */
  function FirstNonParen(s: string, k: nat): (r: nat)
    requires k <= |s|
    ensures k <= r <= |s| && (r < |s| ==> s[r] != '(')
    ensures forall m :: k <= m < r ==> s[m] == '('
    decreases |s| - k
  {
    if k == |s| || s[k] != '(' then k else FirstNonParen(s, k + 1)
  }

  /** The end of the run of non-`(` characters starting at `k`. */
  function RunEnd(s: string, k: nat): (r: nat)
    requires k <= |s|
    ensures k <= r <= |s| && (r < |s| ==> s[r] == '(')
    ensures forall m :: k <= m < r ==> s[m] != '('
    decreases |s| - k
  {
    if k == |s| || s[k] == '(' then k else RunEnd(s, k + 1)
  }

  /** The end of the line that starts at `k` (where `.` stops matching). */
  function LineEnd(s: string, k: nat): (r: nat)
    requires k <= |s|
    ensures k <= r <= |s| && (r < |s| ==> IsLineTerminator(s[r]))
    ensures forall m :: k <= m < r ==> !IsLineTerminator(s[m])
    decreases |s| - k
  {
    if k == |s| || IsLineTerminator(s[k]) then k else LineEnd(s, k + 1)
  }

  /** The last `)` in `s[lo..hi]`, searching down from `e`. */
  function LastClose(s: string, lo: nat, e: nat): (r: Option<nat>)
    requires lo <= e <= |s|
    ensures r.Some? ==> lo <= r.value < e && s[r.value] == ')' && forall m :: r.value < m < e ==> s[m] != ')'
    ensures r.None? ==> forall m :: lo <= m < e ==> s[m] != ')'
    decreases e - lo
  {
    if e == lo then None else if s[e - 1] == ')' then Some(e - 1) else LastClose(s, lo, e - 1)
  }

  /** A match of `/([^\(]+)(\((.+)\))?/`: the function name and, when the optional group
      matches, the extra arguments between its parentheses. */
  datatype FnCall = FnCall(fnName: string, extraArgs: Option<string>)

  function MatchFnCall(call: string): (r: Option<FnCall>)
    ensures r.None? <==> forall m :: 0 <= m < |call| ==> call[m] == '('
  {
    var start := FirstNonParen(call, 0);
    if start == |call| then None
    else
      var stop := RunEnd(call, start);
      var extra :=
        if stop < |call| && stop + 2 <= LineEnd(call, stop + 1) then
          match LastClose(call, stop + 2, LineEnd(call, stop + 1))
          case Some(e) => Some(call[stop + 1..e])
          case None => None
        else None;
      Some(FnCall(call[start..stop], extra))
  }

  /** The match is where the regular expression finds it: the name is the first run of
      characters other than `(`, and the extra arguments are everything from the `(`
      after it to the last `)` on that line, at least one character. */
  lemma MatchFnCallName(call: string)
    requires MatchFnCall(call).Some?
    ensures var m := MatchFnCall(call).value;
      var start := FirstNonParen(call, 0);
      m.fnName != [] && '(' !in m.fnName &&
      start + |m.fnName| <= |call| && call[start..start + |m.fnName|] == m.fnName &&
      (forall k :: 0 <= k < start ==> call[k] == '(') &&
      (start + |m.fnName| == |call| || call[start + |m.fnName|] == '(')
  {
    var start := FirstNonParen(call, 0);
    var stop := RunEnd(call, start);
    assert forall c :: c in call[start..stop] ==> c != '(' by {
      forall c | c in call[start..stop] ensures c != '(' {
        var k :| 0 <= k < stop - start && call[start..stop][k] == c;
        assert call[start + k] != '(';
      }
    }
  }

  /** The extra arguments run from the `(` after the name to the last `)` on that line,
      at least one character. */
  lemma MatchFnCallArgs(call: string)
    requires MatchFnCall(call).Some? && MatchFnCall(call).value.extraArgs.Some?
    ensures var m := MatchFnCall(call).value;
      var q := RunEnd(call, FirstNonParen(call, 0));
      var e := q + 1 + |m.extraArgs.value|;
      |m.fnName| == q - FirstNonParen(call, 0) &&
      m.extraArgs.value != [] && e < |call| && call[e] == ')' &&
      call[q + 1..e] == m.extraArgs.value &&
      (forall k :: q + 1 <= k < e ==> !IsLineTerminator(call[k])) &&
      (forall k :: e < k < LineEnd(call, q + 1) ==> call[k] != ')')
  {
  }

  /** `${helper}`: the helper's name, or `null` when there is none. */
  function HelperText(helper: Option<string>): string {
    match helper case Some(h) => h case None => "null"
  }

  /** The expression a field reads: `data` itself for `.`, one of its members otherwise. */
  function FieldName(raw: string): string {
    if raw == "." then "data" else "data." + raw
  }

  /** The formatting function: a method of the helper for `this.<fn>`, one of
      `Ext.util.Format` otherwise. */
  function FnTarget(fnName: string, helper: Option<string>): string {
    if Text.StartsWith(fnName, "this.") then HelperText(helper) + "." + fnName[5..]
    else "Ext.util.Format." + fnName
  }

  /** `{fn(field, extraArgs)}`, the extra arguments only when there are some. */
  function Formatted(field: string, m: FnCall, helper: Option<string>): string {
    "{" + FnTarget(m.fnName, helper) + "(" + FnArgs(field, m) + ")}"
  }

  function FnArgs(field: string, m: FnCall): string {
    match m.extraArgs case Some(x) => field + ", " + x case None => field
  }

  lemma FnArgsStartWithField(field: string, m: FnCall)
    ensures Text.StartsWith(FnArgs(field, m), field)
  {
    if m.extraArgs.Some? {
      Text.StartsWithConcat(field, "", ", " + m.extraArgs.value);
      assert field + "" == field;
    }
  }

  /** A text framed by `a`, `b` and `c` in front starts with them and the start of the rest. */
  lemma FramedStart(a: string, b: string, c: string, args: string, field: string, d: string)
    requires Text.StartsWith(args, field)
    ensures Text.StartsWith(a + b + c + args + d, a + b + c + field)
  {
    var p := a + b + c;
    assert args == field + args[|field|..];
    assert p + args + d == p + field + (args[|field|..] + d);
    Text.StartsWithConcat(p, field, args[|field|..] + d);
  }

  /** The replacement for a field interpolation `{code}` outside inline code: `{data.field}`
      (`{data}` for `.`), or with a formatting function `{fn(data.field, extraArgs)}`. `None`
      where the source throws: a function part made only of `(`. */
  function FieldInterpolation(code: string, helper: Option<string>): Option<string> {
    var parts := Text.Split(ReplaceQuotes(Text.Trim(code)), ':');
    var field := FieldName(parts[0]);
    if |parts| < 2 || parts[1] == "" then Some("{" + field + "}")
    else match MatchFnCall(parts[1])
      case None => None
      case Some(m) => Some(Formatted(field, m, helper))
  }

  lemma BracedField(field: string)
    ensures "{" + FieldName(field) + "}" == if field == "." then "{data}" else "{data." + field + "}"
  {
  }

  /** A field without a function reads from `data`. */
  lemma FieldWithoutFunction(field: string, helper: Option<string>)
    requires field != [] && field == Text.Trim(field)
    requires ':' !in field && '"' !in field && '\'' !in field
    ensures FieldInterpolation(field, helper) == Some(if field == "." then "{data}" else "{data." + field + "}")
  {
    Text.ReplaceAllNoMatch(field, "\"", "&quot;");
    Text.ReplaceAllNoMatch(field, "'", "&apos;");
    assert ReplaceQuotes(Text.Trim(field)) == field;
    Text.SplitNoSeparator(field, ':');
    assert Text.Split(ReplaceQuotes(Text.Trim(field)), ':') == [field];
    BracedField(field);
  }

  /** A formatted field calls the helper's method when the function is written
      `this.<fn>` and `Ext.util.Format.<fn>` otherwise, with the field as first argument. */
  lemma FormattedTarget(field: string, m: FnCall, helper: Option<string>)
    ensures var r := Formatted(field, m, helper);
      if Text.StartsWith(m.fnName, "this.") then Text.StartsWith(r, "{" + HelperText(helper) + "." + m.fnName[5..] + "(" + field)
      else Text.StartsWith(r, "{Ext.util.Format." + m.fnName + "(" + field)
  {
    var target := FnTarget(m.fnName, helper);
    FnArgsStartWithField(field, m);
    FramedStart("{", target, "(", FnArgs(field, m), field, ")}");
    if !Text.StartsWith(m.fnName, "this.") {
      FormatPrefix(m.fnName);
    }
  }

  lemma FormatPrefix(fnName: string)
    ensures "{" + ("Ext.util.Format." + fnName) + "(" == "{Ext.util.Format." + fnName + "("
  {
  }

  // ---------------------------------------------------------------------------
  // Whole templates (`_convertTplInterpolations`)

  /** One match of a global `replace`: where it starts and how long it is. */
  datatype Hit = Hit(offset: nat, len: nat)

  /** Matches lie in the text, in order, without overlapping. */
  predicate Hits(s: string, hs: seq<Hit>) {
    (forall k :: 0 <= k < |hs| ==> hs[k].offset + hs[k].len <= |s|) &&
    (forall j, k :: 0 <= j < k < |hs| ==> hs[j].offset + hs[j].len <= hs[k].offset)
  }

  lemma HitsTail(s: string, hs: seq<Hit>)
    requires Hits(s, hs) && hs != []
    ensures Hits(s, hs[1..])
  {
    forall j, k | 0 <= j < k < |hs[1..]| ensures hs[1..][j].offset + hs[1..][j].len <= hs[1..][k].offset {
      assert hs[1..][j] == hs[j + 1] && hs[1..][k] == hs[k + 1];
    }
  }

  /** A global `replace` from position `from` on: the text between matches is kept and
      each match gives way to its replacement. */
  function Splice(s: string, hs: seq<Hit>, reps: seq<string>, from: nat): string
    requires Hits(s, hs) && |reps| == |hs|
    requires from <= |s| && (hs != [] ==> from <= hs[0].offset)
    decreases |hs|
  {
    if hs == [] then s[from..]
    else
      HitsTail(s, hs);
      s[from..hs[0].offset] + reps[0] + Splice(s, hs[1..], reps[1..], hs[0].offset + hs[0].len)
  }

  /** How far the first `k` replacements move the text after them (`offsetOffset`). */
  function Shift(hs: seq<Hit>, reps: seq<string>, k: nat): int
    requires |reps| == |hs| && k <= |hs|
  {
    if k == 0 then 0 else Shift(hs, reps, k - 1) + |reps[k - 1]| - hs[k - 1].len
  }

  lemma {:induction false} ShiftTail(hs: seq<Hit>, reps: seq<string>, k: nat)
    requires |reps| == |hs| && 1 <= k <= |hs|
    ensures Shift(hs, reps, k) == |reps[0]| - hs[0].len + Shift(hs[1..], reps[1..], k - 1)
  {
    if k > 1 {
      ShiftTail(hs, reps, k - 1);
      assert hs[1..][k - 2] == hs[k - 1] && reps[1..][k - 2] == reps[k - 1];
    }
  }

  /** The `k`-th replacement stands in the result where the match stood, moved by the
      replacements before it. */
  lemma {:induction false} SpliceAt(s: string, hs: seq<Hit>, reps: seq<string>, from: nat, k: nat)
    requires Hits(s, hs) && |reps| == |hs|
    requires from <= |s| && (hs != [] ==> from <= hs[0].offset)
    requires k < |hs|
    ensures 0 <= hs[k].offset - from + Shift(hs, reps, k)
    ensures hs[k].offset - from + Shift(hs, reps, k) + |reps[k]| <= |Splice(s, hs, reps, from)|
    ensures Splice(s, hs, reps, from)[hs[k].offset - from + Shift(hs, reps, k)..hs[k].offset - from + Shift(hs, reps, k) + |reps[k]|] == reps[k]
    decreases |hs|
  {
    var head := s[from..hs[0].offset] + reps[0];
    var tail := Splice(s, hs[1..], reps[1..], hs[0].offset + hs[0].len);
    assert Splice(s, hs, reps, from) == head + tail;
    if k > 0 {
      SpliceAt(s, hs[1..], reps[1..], hs[0].offset + hs[0].len, k - 1);
      ShiftTail(hs, reps, k);
      assert hs[1..][k - 1] == hs[k] && reps[1..][k - 1] == reps[k];
      var q := hs[k].offset - (hs[0].offset + hs[0].len) + Shift(hs[1..], reps[1..], k - 1);
      assert (head + tail)[|head| + q..|head| + q + |reps[k]|] == tail[q..q + |reps[k]|];
    } else {
      assert (head + tail)[|head| - |reps[0]|..|head|] == reps[0];
    }
  }

  /** No line break in `s[lo..hi]`: the text `.` can match. */
  predicate OnOneLine(s: string, lo: nat, hi: nat)
    requires lo <= hi <= |s|
  {
    forall m :: lo <= m < hi ==> !IsLineTerminator(s[m])
  }

  /** A `]}` at `m`. */
  predicate CloseAt(s: string, m: nat) {
    m + 2 <= |s| && s[m] == ']' && s[m + 1] == '}'
  }

  /** Where the lazy group of `/\{\[(.+?)(?=\]\})/` stops once it has reached `e`: at the
      first `]}` from `e` on, as long as no line break comes first. */
  function LazyEnd(s: string, e: nat): (r: Option<nat>)
    requires e <= |s|
    ensures r.Some? ==> e <= r.value && CloseAt(s, r.value) && OnOneLine(s, e, r.value)
    ensures r.Some? ==> forall m :: e <= m < r.value ==> !CloseAt(s, m)
    ensures r.None? ==> forall m :: e <= m <= |s| && CloseAt(s, m) ==> !OnOneLine(s, e, m)
    decreases |s| - e
  {
    if e + 2 > |s| then None
    else if CloseAt(s, e) then Some(e)
    else if IsLineTerminator(s[e]) then None
    else LazyEnd(s, e + 1)
  }

  /** The end of the inline-code match at `i`: `{[`, a group of at least one character
      without a line break, up to the first `]}`, which is only looked at. */
  function InlineAt(s: string, i: nat): (r: Option<nat>)
    requires i <= |s|
    ensures r.Some? ==> i + 3 <= r.value && r.value + 2 <= |s| && s[i] == '{' && s[i + 1] == '['
    ensures r.Some? ==> CloseAt(s, r.value) && OnOneLine(s, i + 2, r.value)
    ensures r.Some? ==> forall m :: i + 3 <= m < r.value ==> !CloseAt(s, m)
  {
    if i + 3 <= |s| && s[i] == '{' && s[i + 1] == '[' && !IsLineTerminator(s[i + 2]) then LazyEnd(s, i + 3) else None
  }

  /** The matches of `/\{\[(.+?)(?=\]\})/g` from `i` on: the search goes on where a
      match ends, before its `]}`. */
  function InlineHits(s: string, i: nat): (r: seq<Hit>)
    requires i <= |s|
    ensures Hits(s, r)
    ensures forall k :: 0 <= k < |r| ==> i <= r[k].offset && r[k].len >= 3 && InlineAt(s, r[k].offset) == Some(r[k].offset + r[k].len)
    decreases |s| - i
  {
    if i == |s| then []
    else match InlineAt(s, i)
      case Some(e) => [Hit(i, e - i)] + InlineHits(s, e)
      case None => InlineHits(s, i + 1)
  }

  /** The first `}` at or after `k`. */
  function CloseBrace(s: string, k: nat): (r: Option<nat>)
    requires k <= |s|
    ensures r.Some? ==> k <= r.value < |s| && s[r.value] == '}' && forall m :: k <= m < r.value ==> s[m] != '}'
    ensures r.None? ==> forall m :: k <= m < |s| ==> s[m] != '}'
    decreases |s| - k
  {
    if k == |s| then None else if s[k] == '}' then Some(k) else CloseBrace(s, k + 1)
  }

  /** The closing `}` of the field match `/\{([^\}]+)\}/` at `i`: `{`, at least one
      character other than `}`, then the first `}`. */
  function FieldAt(s: string, i: nat): (r: Option<nat>)
    requires i <= |s|
    ensures r.Some? ==> i + 2 <= r.value < |s| && s[i] == '{' && s[r.value] == '}'
    ensures r.Some? ==> forall m :: i < m < r.value ==> s[m] != '}'
    ensures r.None? ==> i + 1 >= |s| || s[i] != '{' || s[i + 1] == '}' || forall m :: i + 1 < m < |s| ==> s[m] != '}'
  {
    if i + 1 < |s| && s[i] == '{' && s[i + 1] != '}' then CloseBrace(s, i + 1)
    else None
  }

  /** The matches of `/\{([^\}]+)\}/g` from `i` on. */
  function FieldHits(s: string, i: nat): (r: seq<Hit>)
    requires i <= |s|
    ensures Hits(s, r)
    ensures forall k :: 0 <= k < |r| ==> i <= r[k].offset && r[k].len >= 3 && FieldAt(s, r[k].offset) == Some(r[k].offset + r[k].len - 1)
    decreases |s| - i
  {
    if i == |s| then []
    else match FieldAt(s, i)
      case Some(c) => [Hit(i, c + 1 - i)] + FieldHits(s, c + 1)
      case None => FieldHits(s, i + 1)
  }

  /** The text each inline match captures: what follows its `{[`. */
  function Originals(s: string, hs: seq<Hit>): (r: seq<string>)
    requires Hits(s, hs) && forall k :: 0 <= k < |hs| ==> hs[k].len >= 2
    ensures |r| == |hs|
    ensures forall k :: 0 <= k < |hs| ==> r[k] == s[hs[k].offset + 2..hs[k].offset + hs[k].len]
  {
    seq(|hs|, k requires 0 <= k < |hs| => s[hs[k].offset + 2..hs[k].offset + hs[k].len])
  }

  /** The code each inline match becomes. */
  function InlineCodes(originals: seq<string>, helper: Option<string>): (r: seq<string>)
    ensures |r| == |originals|
    ensures forall k :: 0 <= k < |originals| ==> r[k] == InlineInterpolation(originals[k], helper)
  {
    seq(|originals|, k requires 0 <= k < |originals| => InlineInterpolation(originals[k], helper))
  }

  /** An entry of `inlineOffsets`: where a piece of inline code starts and ends. */
  datatype Range = Range(start: int, end: int)

  /** What `inlineOffsets` holds: each match's offset moved by the replacements before it,
      and the end of its code. */
  function InlineRanges(hs: seq<Hit>, codes: seq<string>): (r: seq<Range>)
    requires |codes| == |hs|
    ensures |r| == |hs|
    ensures forall k :: 0 <= k < |hs| ==> r[k].start == hs[k].offset + Shift(hs, codes, k) && r[k].end == r[k].start + |codes[k]|
  {
    seq(|hs|, k requires 0 <= k < |hs| => Range(hs[k].offset + Shift(hs, codes, k), hs[k].offset + Shift(hs, codes, k) + |codes[k]|))
  }

  /** The bookkeeping of the inline replace: `offset + offsetOffset` is pushed for each
      match and `offsetOffset` grows by how much longer the code is than the match. */
  method InlineOffsets(hs: seq<Hit>, codes: seq<string>) returns (inlineOffsets: seq<Range>)
    requires |codes| == |hs|
    requires forall k :: 0 <= k < |hs| ==> hs[k].len >= 2
    ensures inlineOffsets == InlineRanges(hs, codes)
  {
    var offsetOffset := 0;
    inlineOffsets := [];
    for k := 0 to |hs|
      invariant offsetOffset == Shift(hs, codes, k)
      invariant |inlineOffsets| == k
      invariant forall j :: 0 <= j < k ==> inlineOffsets[j] == InlineRanges(hs, codes)[j]
    {
      var original := hs[k].len - 2;
      var offset := hs[k].offset + offsetOffset;
      inlineOffsets := inlineOffsets + [Range(offset, offset + |codes[k]|)];
      offsetOffset := offsetOffset + (|codes[k]| - original) - 2;
    }
  }

  /** Each entry of `inlineOffsets` spans exactly its rewritten code in the text the
      inline replace gives. */
  lemma InlineRangesHoldCode(s: string, hs: seq<Hit>, codes: seq<string>, k: nat)
    requires Hits(s, hs) && |codes| == |hs| && k < |hs|
    ensures var out := Splice(s, hs, codes, 0);
      var rg := InlineRanges(hs, codes)[k];
      0 <= rg.start <= rg.end <= |out| && out[rg.start..rg.end] == codes[k]
  {
    var out := Splice(s, hs, codes, 0);
    var p := hs[k].offset + Shift(hs, codes, k);
    SpliceAt(s, hs, codes, 0, k);
    assert 0 <= p && p + |codes[k]| <= |out| && out[p..p + |codes[k]|] == codes[k];
    var rg := InlineRanges(hs, codes)[k];
    assert rg.start == p && rg.end == p + |codes[k]|;
  }

  /** `inlineOffsets.find(([start, end]) => offset >= start && offset <= end)` finds one. */
  predicate InInline(offset: nat, ranges: seq<Range>) {
    exists k :: 0 <= k < |ranges| && ranges[k].start <= offset <= ranges[k].end
  }

  /** The text of each match. */
  function MatchTexts(s: string, hs: seq<Hit>): (r: seq<string>)
    requires Hits(s, hs)
    ensures |r| == |hs|
    ensures forall k :: 0 <= k < |hs| ==> r[k] == s[hs[k].offset..hs[k].offset + hs[k].len]
  {
    seq(|hs|, k requires 0 <= k < |hs| => s[hs[k].offset..hs[k].offset + hs[k].len])
  }

  /** What each field match captures between its braces. */
  function Captures(s: string, hs: seq<Hit>): (r: seq<string>)
    requires Hits(s, hs) && forall k :: 0 <= k < |hs| ==> hs[k].len >= 2
    ensures |r| == |hs|
    ensures forall k :: 0 <= k < |hs| ==> r[k] == s[hs[k].offset + 1..hs[k].offset + hs[k].len - 1]
  {
    seq(|hs|, k requires 0 <= k < |hs| => s[hs[k].offset + 1..hs[k].offset + hs[k].len - 1])
  }

  /** Whether each field match starts inside inline code. */
  function Insides(hs: seq<Hit>, ranges: seq<Range>): (r: seq<bool>)
    ensures |r| == |hs|
    ensures forall k :: 0 <= k < |hs| ==> r[k] == InInline(hs[k].offset, ranges)
  {
    seq(|hs|, k requires 0 <= k < |hs| => InInline(hs[k].offset, ranges))
  }

  /** The replacement of one field match: the match itself inside inline code, the
      rewritten field otherwise. */
  function FieldReplacement(text: string, code: string, inside: bool, helper: Option<string>): Option<string> {
    if inside then Some(text) else FieldInterpolation(code, helper)
  }

  /** The replacement of each field match. */
  function FieldResults(texts: seq<string>, codes: seq<string>, insides: seq<bool>, helper: Option<string>): (r: seq<Option<string>>)
    requires |codes| == |texts| && |insides| == |texts|
    ensures |r| == |texts|
    ensures forall k :: 0 <= k < |texts| ==> r[k] == FieldReplacement(texts[k], codes[k], insides[k], helper)
  {
    seq(|texts|, k requires 0 <= k < |texts| => FieldReplacement(texts[k], codes[k], insides[k], helper))
  }

  /** The field replace throws as soon as one match does. */
  function Collect(rs: seq<Option<string>>): (r: Option<seq<string>>)
    ensures r.Some? ==> |r.value| == |rs| && forall k :: 0 <= k < |rs| ==> rs[k] == Some(r.value[k])
    ensures r.None? <==> exists k :: 0 <= k < |rs| && rs[k].None?
    decreases |rs|
  {
    if rs == [] then Some([])
    else
      var rest := Collect(rs[1..]);
      assert forall k :: 1 <= k < |rs| ==> rs[1..][k - 1] == rs[k];
      match rs[0]
      case None => None
      case Some(x) => if rest.None? then None else Some([x] + rest.value)
  }

  /** `_convertTplInterpolations(tpl, helper)`: the inline replace, the field replace that
      leaves matches inside inline code alone, then every `}]}` made `}`. `None` where a
      field's function part makes the source throw. */
  function ConvertTplInterpolations(tpl: string, helper: Option<string>): Option<string> {
    var ih := InlineHits(tpl, 0);
    var codes := InlineCodes(Originals(tpl, ih), helper);
    var t := Splice(tpl, ih, codes, 0);
    var fh := FieldHits(t, 0);
    match Collect(FieldResults(MatchTexts(t, fh), Captures(t, fh), Insides(fh, InlineRanges(ih, codes)), helper))
    case None => None
    case Some(reps) => Some(Text.ReplaceAll(Splice(t, fh, reps, 0), "}]}", "}"))
  }

  /** A field match inside inline code is replaced by its own text, any other by the
      rewritten field. */
  lemma FieldResultAt(texts: seq<string>, codes: seq<string>, insides: seq<bool>, helper: Option<string>, reps: seq<string>, k: nat)
    requires |codes| == |texts| && |insides| == |texts|
    requires Collect(FieldResults(texts, codes, insides, helper)) == Some(reps)
    requires k < |texts|
    ensures insides[k] ==> reps[k] == texts[k]
    ensures !insides[k] ==> Some(reps[k]) == FieldInterpolation(codes[k], helper)
  {
    assert FieldResults(texts, codes, insides, helper)[k] == Some(reps[k]);
  }

  // ---------------------------------------------------------------------------
  // Extracted props (`_extractProp`)

  /** The key of the `instance`-th prop extracted under `name`: the name itself first,
      then the name followed by the instance number. */
  function KeyedName(name: string, instance: nat): string {
    if instance == 1 then name else name + Text.NatToString(instance)
  }

  lemma KeyedNameInjective(name: string, i: nat, j: nat)
    requires 1 <= i && 1 <= j && i != j
    ensures KeyedName(name, i) != KeyedName(name, j)
  {
    if i != 1 && j != 1 {
      Text.NatToStringInjective(i, j);
      assert (name + Text.NatToString(i))[|name|..] == Text.NatToString(i);
      assert (name + Text.NatToString(j))[|name|..] == Text.NatToString(j);
    }
  }

  /** The keys of the first `n` instances. */
  ghost function KeyedNames(name: string, n: nat): (r: set<string>)
    ensures forall k :: 1 <= k <= n ==> KeyedName(name, k) in r
  {
    if n == 0 then {} else KeyedNames(name, n - 1) + {KeyedName(name, n)}
  }

  lemma {:induction false} KeyedNamesOnly(name: string, n: nat, key: string)
    requires key in KeyedNames(name, n)
    ensures exists k :: 1 <= k <= n && KeyedName(name, k) == key
  {
    if n > 0 && key != KeyedName(name, n) {
      KeyedNamesOnly(name, n - 1, key);
    }
  }

  /** The first `n` keys are all different. */
  lemma {:induction false} KeyedNamesCount(name: string, n: nat)
    ensures |KeyedNames(name, n)| == n
  {
    if n > 0 {
      KeyedNamesCount(name, n - 1);
      if KeyedName(name, n) in KeyedNames(name, n - 1) {
        KeyedNamesOnly(name, n - 1, KeyedName(name, n));
        var k :| 1 <= k <= n - 1 && KeyedName(name, k) == KeyedName(name, n);
        KeyedNameInjective(name, k, n);
      }
    }
  }

  /** A map cannot hold more distinct keyed names than it has keys. */
  lemma TakenBound(keys: set<string>, name: string, n: nat)
    requires forall k :: 1 <= k <= n ==> KeyedName(name, k) in keys
    ensures n <= |keys|
  {
    var taken := KeyedNames(name, n);
    KeyedNamesCount(name, n);
    forall key | key in taken ensures key in keys {
      KeyedNamesOnly(name, n, key);
    }
    Seqs.SubsetSize(taken, keys);
  }

  // ---------------------------------------------------------------------------
  // Listener props (`getPropFromListener`)

  /** A JSX attribute made from one listener: none for `element` and `scope`, `Fails`
      where the source throws (a listener without a name, or with an empty one). */
  datatype ListenerProp = NoProp | Prop(attrName: string, value: Ast.Node) | Fails

  /** The attribute a listener named `eventName` becomes: `onTap` for `handler`, `on`
      followed by the capitalised event name otherwise. */
  function ListenerAttrName(words: seq<string>, eventName: string): Option<string> {
    if eventName == "handler" then Some("onTap")
    else match Words.Capitalize(words, eventName)
      case Some(c) => Some("on" + c)
      case None => None
  }

  lemma ListenerAttrNameSpec(words: seq<string>, eventName: string)
    ensures var r := ListenerAttrName(words, eventName);
      (r.None? <==> eventName == []) &&
      (r.Some? ==> Text.StartsWith(r.value, "on") && |r.value| == 2 + (if eventName == "handler" then 3 else |eventName|)) &&
      (r.Some? && eventName != "handler" ==> Text.ToLower(r.value[2..]) == Text.ToLower(eventName))
  {
    if eventName != "handler" {
      Words.CapitalizeSpec(words, eventName);
      match Words.Capitalize(words, eventName)
      case Some(c) =>
        assert ("on" + c)[2..] == c;
        assert ("on" + c)[..2] == "on";
      case None =>
    }
  }

  // ---------------------------------------------------------------------------
  // Snapshots (`toSnapshot` / `fromSnapshot`)

  /** What a class carries across runs. The optional names are `undefined` when falsy. */
  datatype Snapshot = Snapshot(
    className: string, exportName: string,
    parentClassName: Option<string>, override: Option<string>,
    alternateClassNames: seq<string>, classAliases: seq<string>,
    mixins: seq<string>, plugins: seq<string>,
    configs: seq<string>, cachedConfigs: seq<string>, eventedConfigs: seq<string>,
    aliasesUsed: seq<string>, methodCalls: seq<string>)

  /** The members of a class a snapshot is taken of, or that one is restored into. */
  datatype ClassInfo = ClassInfo(
    className: string, exportName: string,
    parentClassName: Option<string>, override: Option<string>,
    alternateClassNames: seq<string>, classAliases: seq<string>,
    mixins: seq<string>, plugins: seq<string>,
    configs: seq<string>, cachedConfigs: seq<string>, eventedConfigs: seq<string>,
    aliasesUsed: seq<string>, methodCalls: seq<string>)

  /** `x || undefined` for a string that may be absent. */
  function Truthy(x: Option<string>): (r: Option<string>)
    ensures r.Some? <==> x.Some? && x.value != ""
    ensures r.Some? ==> r == x
  {
    if x.Some? && x.value != "" then x else None
  }

  function ToSnapshot(c: ClassInfo): Snapshot {
    Snapshot(c.className, c.exportName, Truthy(c.parentClassName), Truthy(c.override),
      c.alternateClassNames, c.classAliases, c.mixins, c.plugins,
      c.configs, c.cachedConfigs, c.eventedConfigs, c.aliasesUsed, c.methodCalls)
  }

  function FromSnapshot(s: Snapshot): ClassInfo {
    ClassInfo(s.className, s.exportName, s.parentClassName, s.override,
      s.alternateClassNames, s.classAliases, s.mixins, s.plugins,
      s.configs, s.cachedConfigs, s.eventedConfigs, s.aliasesUsed, s.methodCalls)
  }

  /** A class whose parent and override names are not empty is restored as it was. */
  lemma SnapshotRoundTrip(c: ClassInfo)
    requires c.parentClassName != Some("") && c.override != Some("")
    ensures FromSnapshot(ToSnapshot(c)) == c
  {
  }

  /** An empty parent or override name is restored as absent, which the source reads the
      same way; everything else is restored as it was. */
  lemma SnapshotNormalises(c: ClassInfo)
    ensures var r := FromSnapshot(ToSnapshot(c));
      r.parentClassName == Truthy(c.parentClassName) && r.override == Truthy(c.override) &&
      r.(parentClassName := c.parentClassName, override := c.override) == c
  {
  }

  /** Restoring and taking a snapshot again gives back the snapshot taken from a class. */
  lemma SnapshotStable(c: ClassInfo)
    ensures ToSnapshot(FromSnapshot(ToSnapshot(c))) == ToSnapshot(c)
  {
  }

  // ---------------------------------------------------------------------------
  // The per-class state the conversion updates in place

  class ExtJSClass {
    const className: string
    /** The name the class is exported under (`exportName`, computed once by its file). */
    const exportName: string
    /** The class this one has been merged into (a view's controller, say). */
    var assimilatingClass: ExtJSClass?
    /** Props pulled out of a template into their own constants, by key. */
    var extractedProps: map<string, Ast.Node>
    /** Names of the listener methods referred to by string. */
    var listeners: seq<string>
    /** Whether some config is evented (the class then needs an event dispatcher). */
    var evented: bool
    /** Names of the class members marked for deletion from the output. */
    var deleted: set<string>

    constructor(className: string, exportName: string)
      ensures this.className == className && this.exportName == exportName && assimilatingClass == null
      ensures extractedProps == map[] && listeners == [] && !evented && deleted == {}
    {
      this.className := className;
      this.exportName := exportName;
      assimilatingClass := null;
      extractedProps := map[];
      listeners := [];
      evented := false;
      deleted := {};
    }

    /** `discard`: a class merged into another is not written out on its own. */
    predicate Discard()
      reads this
    {
      assimilatingClass != null
    }

    /** `assimilatingClass = cls`: the new class always wins, and an error is logged when
        it replaces a different one. */
    method SetAssimilatingClass(cls: ExtJSClass) returns (logged: bool)
      modifies this
      ensures assimilatingClass == cls && Discard()
      ensures logged <==> old(assimilatingClass) != null && old(assimilatingClass) != cls
      ensures extractedProps == old(extractedProps) && listeners == old(listeners)
      ensures evented == old(evented) && deleted == old(deleted)
    {
      logged := assimilatingClass != null && assimilatingClass != cls;
      assimilatingClass := cls;
    }

    /** `_extractProp(name, value)`: files the value under the first free key among `name`,
        `name2`, `name3`, ... and returns that key. */
    method ExtractProp(name: string, value: Ast.Node) returns (key: string, instance: nat)
      modifies this
      ensures instance >= 1 && key == KeyedName(name, instance)
      ensures key !in old(extractedProps)
      ensures forall k :: 1 <= k < instance ==> KeyedName(name, k) in old(extractedProps)
      ensures extractedProps == old(extractedProps)[key := value]
      ensures assimilatingClass == old(assimilatingClass) && listeners == old(listeners)
      ensures evented == old(evented) && deleted == old(deleted)
    {
      var props := extractedProps;
      instance := 1;
      while KeyedName(name, instance) in props
        modifies {}
        invariant instance >= 1
        invariant forall k :: 1 <= k < instance ==> KeyedName(name, k) in props
        decreases |props.Keys| + 1 - instance
      {
        TakenBound(props.Keys, name, instance);
        instance := instance + 1;
      }
      key := KeyedName(name, instance);
      extractedProps := extractedProps[key := value];
    }

    /** `getAccessorsFromConfig(node, evented)`: the accessor, with the hooks it uses marked
        deleted and the class flagged evented when the config is. */
    method GetAccessorsFromConfig(printer: Printer, members: map<string, Ast.Node>, p: Ast.Property, isEvented: bool)
      returns (r: Option<Accessor>)
      modifies this
      ensures r == AccessorOf(printer, members, p, isEvented)
      ensures r.Some? && r.value.methods.Some? ==>
        var cap := Text.UpperFirst(printer(p.key));
        evented == (old(evented) || isEvented) &&
        deleted == old(deleted) + (set h | h in {"apply" + cap, "update" + cap} && h in members)
      ensures !(r.Some? && r.value.methods.Some?) ==> evented == old(evented) && deleted == old(deleted)
      ensures assimilatingClass == old(assimilatingClass) && listeners == old(listeners)
      ensures extractedProps == old(extractedProps)
    {
      r := AccessorOf(printer, members, p, isEvented);
      if r.Some? && r.value.methods.Some? {
        var cap := Text.UpperFirst(printer(p.key));
        deleted := deleted + (set h | h in {"apply" + cap, "update" + cap} && h in members);
        evented := evented || isEvented;
      }
    }

    /** `getPropFromListener(node)`: the JSX attribute for one listener. A handler named by
        a string is recorded and referred to by name. */
    method PropFromListener(words: seq<string>, p: Ast.Property) returns (r: ListenerProp)
      modifies this
      ensures var eventName := Ast.PropertyName(p);
        var value := if p.value.Str? then Ast.Ident(p.value.value) else p.value;
        if eventName == Some("element") || eventName == Some("scope") then r == NoProp
        else if eventName.None? || ListenerAttrName(words, eventName.value).None? then r == Fails
        else r == Prop(ListenerAttrName(words, eventName.value).value, value)
      ensures r.Prop? && p.value.Str? ==> listeners == old(listeners) + [p.value.value]
      ensures !(r.Prop? && p.value.Str?) ==> listeners == old(listeners)
      ensures assimilatingClass == old(assimilatingClass) && extractedProps == old(extractedProps)
      ensures evented == old(evented) && deleted == old(deleted)
    {
      var eventName := Ast.PropertyName(p);
      if eventName == Some("element") || eventName == Some("scope") {
        return NoProp;
      }
      if eventName.None? {
        return Fails;
      }
      var attr := ListenerAttrName(words, eventName.value);
      if attr.None? {
        return Fails;
      }
      var value := p.value;
      if value.Str? {
        listeners := listeners + [value.value];
        value := Ast.Ident(value.value);
      }
      r := Prop(attr.value, value);
    }
  }
}
