/** The structural passes of `afterTranspile` in src/Hooks.js, on syntax trees as
    values: `var` to `let` at the top of function bodies, function expressions to arrow
    functions, and arrow functions whose body only returns a value to the expression
    form. Each pass is a function on `Ast.Node`, written once per kind of tree
    (nodes, node lists, object properties, bodies, statements, statement lists). */
module HookPasses {

  import opened Wrappers
  import Ast

  // ---------------------------------------------------------------------------
  // Every function node of a tree passes a test

  predicate AllFuncs(p: Ast.Node -> bool, n: Ast.Node)
    decreases n
  {
    match n
    case Arr(es) => AllFuncsIn(p, es)
    case Obj(ps) => AllFuncsProps(p, ps)
    case Ternary(a, b, c) => AllFuncs(p, a) && AllFuncs(p, b) && AllFuncs(p, c)
    case Member(o, q) => AllFuncs(p, o) && AllFuncs(p, q)
    case Call(c, args) => AllFuncs(p, c) && AllFuncsIn(p, args)
    case Func(_, _, params, body) => p(n) && AllFuncsIn(p, params) && AllFuncsBody(p, body)
    case Other(cs) => AllFuncsIn(p, cs)
    case _ => true
  }

  predicate AllFuncsIn(p: Ast.Node -> bool, ns: seq<Ast.Node>)
    decreases ns
  {
    ns == [] || (AllFuncs(p, ns[0]) && AllFuncsIn(p, ns[1..]))
  }

  predicate AllFuncsProps(p: Ast.Node -> bool, ps: seq<Ast.Property>)
    decreases ps
  {
    ps == [] || (AllFuncsProp(p, ps[0]) && AllFuncsProps(p, ps[1..]))
  }

  predicate AllFuncsProp(p: Ast.Node -> bool, q: Ast.Property)
    decreases q
  {
    AllFuncs(p, q.key) && AllFuncs(p, q.value)
  }

  predicate AllFuncsBody(p: Ast.Node -> bool, b: Ast.Body)
    decreases b
  {
    match b
    case Block(ss) => AllFuncsStmts(p, ss)
    case Expression(e) => AllFuncs(p, e)
  }

  predicate AllFuncsStmt(p: Ast.Node -> bool, s: Ast.Stmt)
    decreases s
  {
    match s
    case Return(a) => a.None? || AllFuncs(p, a.value)
    case VarDecl(_, inits) => AllFuncsIn(p, inits)
    case ExprStmt(e) => AllFuncs(p, e)
    case Nested(ss) => AllFuncsStmts(p, ss)
    case Compound(es, ss) => AllFuncsIn(p, es) && AllFuncsStmts(p, ss)
  }

  predicate AllFuncsStmts(p: Ast.Node -> bool, ss: seq<Ast.Stmt>)
    decreases ss
  {
    ss == [] || (AllFuncsStmt(p, ss[0]) && AllFuncsStmts(p, ss[1..]))
  }

  // ---------------------------------------------------------------------------
  // `var` to `let` (the `varToLet` visitor)

  predicate IsVar(s: Ast.Stmt) {
    s.VarDecl? && s.kind == "var"
  }

  /** A `var` declaration is rewritten only where its parent is a block whose parent is a
      function: at the top of a function body. */
  predicate NoTopVar(ss: seq<Ast.Stmt>) {
    forall i :: 0 <= i < |ss| ==> !IsVar(ss[i])
  }

  predicate TopVarFree(n: Ast.Node) {
    n.Func? && n.body.Block? ==> NoTopVar(n.body.statements)
  }

  function ToLet(n: Ast.Node): (r: Ast.Node)
    decreases n
  {
    match n
    case Arr(es) => Ast.Arr(ToLetIn(es))
    case Obj(ps) => Ast.Obj(ToLetProps(ps))
    case Ternary(a, b, c) => Ast.Ternary(ToLet(a), ToLet(b), ToLet(c))
    case Member(o, q) => Ast.Member(ToLet(o), ToLet(q))
    case Call(c, args) => Ast.Call(ToLet(c), ToLetIn(args))
    case Func(arrow, isAsync, params, body) => Ast.Func(arrow, isAsync, ToLetIn(params), ToLetBody(body))
    case Other(cs) => Ast.Other(ToLetIn(cs))
    case _ => n
  }

  function ToLetIn(ns: seq<Ast.Node>): (r: seq<Ast.Node>)
    ensures |r| == |ns|
    decreases ns
  {
    if ns == [] then [] else [ToLet(ns[0])] + ToLetIn(ns[1..])
  }

  function ToLetProps(ps: seq<Ast.Property>): (r: seq<Ast.Property>)
    decreases ps
  {
    if ps == [] then [] else [ToLetProp(ps[0])] + ToLetProps(ps[1..])
  }

  function ToLetProp(q: Ast.Property): (r: Ast.Property)
    decreases q
  {
    Ast.Property(ToLet(q.key), ToLet(q.value))
  }

  /** The body of a function: its own top-level statements are at the top. */
  function ToLetBody(b: Ast.Body): (r: Ast.Body)
    decreases b
  {
    match b
    case Block(ss) => Ast.Block(ToLetStmts(ss, true))
    case Expression(e) => Ast.Expression(ToLet(e))
  }

  /** A statement; `top` says whether it sits directly in a function body. A declaration
      keeps its kind unless it is a `var` at the top. */
  function ToLetStmt(s: Ast.Stmt, top: bool): (r: Ast.Stmt)
    ensures s.VarDecl? <==> r.VarDecl?
    ensures s.VarDecl? ==> r.kind == (if top && s.kind == "var" then "let" else s.kind)
    ensures top ==> !IsVar(r)
    decreases s
  {
    match s
    case Return(a) => Ast.Return(if a.None? then None else Some(ToLet(a.value)))
    case VarDecl(kind, inits) => Ast.VarDecl(if top && kind == "var" then "let" else kind, ToLetIn(inits))
    case ExprStmt(e) => Ast.ExprStmt(ToLet(e))
    case Nested(ss) => Ast.Nested(ToLetStmts(ss, false))
    case Compound(es, ss) => Ast.Compound(ToLetIn(es), ToLetStmts(ss, false))
  }

  function ToLetStmts(ss: seq<Ast.Stmt>, top: bool): (r: seq<Ast.Stmt>)
    ensures |r| == |ss|
    ensures forall i :: 0 <= i < |ss| ==> r[i] == ToLetStmt(ss[i], top)
    decreases ss
  {
    if ss == [] then [] else [ToLetStmt(ss[0], top)] + ToLetStmts(ss[1..], top)
  }

  /** After the pass no function body starts a `var` declaration at its top level, and a
      tree that has none there is left as it is (so the pass is idempotent). */
  lemma {:induction false} ToLetSpec(n: Ast.Node)
    ensures AllFuncs(TopVarFree, ToLet(n))
    ensures AllFuncs(TopVarFree, n) ==> ToLet(n) == n
    decreases n
  {
    match n
    case Arr(es) => ToLetInSpec(es);
    case Obj(ps) => ToLetPropsSpec(ps);
    case Ternary(a, b, c) => ToLetSpec(a); ToLetSpec(b); ToLetSpec(c);
    case Member(o, q) => ToLetSpec(o); ToLetSpec(q);
    case Call(c, args) => ToLetSpec(c); ToLetInSpec(args);
    case Func(_, _, params, body) =>
      ToLetInSpec(params);
      ToLetBodySpec(body);
      if body.Block? {
        var r := ToLetStmts(body.statements, true);
        assert NoTopVar(r);
      }
    case Other(cs) => ToLetInSpec(cs);
    case _ =>
  }

  lemma {:induction false} ToLetInSpec(ns: seq<Ast.Node>)
    ensures AllFuncsIn(TopVarFree, ToLetIn(ns))
    ensures AllFuncsIn(TopVarFree, ns) ==> ToLetIn(ns) == ns
    decreases ns
  {
    if ns != [] {
      ToLetSpec(ns[0]);
      ToLetInSpec(ns[1..]);
      assert ToLetIn(ns)[1..] == ToLetIn(ns[1..]);
    }
  }

  lemma {:induction false} ToLetPropsSpec(ps: seq<Ast.Property>)
    ensures AllFuncsProps(TopVarFree, ToLetProps(ps))
    ensures AllFuncsProps(TopVarFree, ps) ==> ToLetProps(ps) == ps
    decreases ps
  {
    if ps != [] {
      ToLetPropSpec(ps[0]);
      ToLetPropsSpec(ps[1..]);
      assert ToLetProps(ps)[1..] == ToLetProps(ps[1..]);
    }
  }

  lemma ToLetPropSpec(q: Ast.Property)
    ensures AllFuncsProp(TopVarFree, ToLetProp(q))
    ensures AllFuncsProp(TopVarFree, q) ==> ToLetProp(q) == q
    decreases q
  {
    ToLetSpec(q.key);
    ToLetSpec(q.value);
  }

  lemma {:induction false} ToLetBodySpec(b: Ast.Body)
    ensures AllFuncsBody(TopVarFree, ToLetBody(b))
    ensures AllFuncsBody(TopVarFree, b) && (b.Block? ==> NoTopVar(b.statements)) ==> ToLetBody(b) == b
    decreases b
  {
    match b
    case Block(ss) => ToLetStmtsSpec(ss, true);
    case Expression(e) => ToLetSpec(e);
  }

  lemma {:induction false} ToLetStmtSpec(s: Ast.Stmt, top: bool)
    ensures AllFuncsStmt(TopVarFree, ToLetStmt(s, top))
    ensures AllFuncsStmt(TopVarFree, s) && (top ==> !IsVar(s)) ==> ToLetStmt(s, top) == s
    decreases s
  {
    match s
    case Return(a) => if a.Some? { ToLetSpec(a.value); }
    case VarDecl(_, inits) => ToLetInSpec(inits);
    case ExprStmt(e) => ToLetSpec(e);
    case Nested(ss) => ToLetStmtsSpec(ss, false);
    case Compound(es, ss) => ToLetInSpec(es); ToLetStmtsSpec(ss, false);
  }

  lemma {:induction false} ToLetStmtsSpec(ss: seq<Ast.Stmt>, top: bool)
    ensures AllFuncsStmts(TopVarFree, ToLetStmts(ss, top))
    ensures AllFuncsStmts(TopVarFree, ss) && (top ==> NoTopVar(ss)) ==> ToLetStmts(ss, top) == ss
    decreases ss
  {
    if ss != [] {
      ToLetStmtSpec(ss[0], top);
      ToLetStmtsSpec(ss[1..], top);
      assert ToLetStmts(ss, top)[1..] == ToLetStmts(ss[1..], top);
      if top && NoTopVar(ss) {
        assert !IsVar(ss[0]);
        assert NoTopVar(ss[1..]) by {
          forall i | 0 <= i < |ss[1..]| ensures !IsVar(ss[1..][i]) { assert ss[1..][i] == ss[i + 1]; }
        }
      }
    }
  }

  // ---------------------------------------------------------------------------
  // Function expressions to arrow functions (`transformArrowFunctions`)

  /** The tree mentions `this` or the identifier `arguments` anywhere, nested functions
      included: such a function keeps its own binding and is not converted. */
  predicate Uses(n: Ast.Node)
    decreases n
  {
    match n
    case This => true
    case Ident(name) => name == "arguments"
    case Arr(es) => UsesIn(es)
    case Obj(ps) => UsesProps(ps)
    case Ternary(a, b, c) => Uses(a) || Uses(b) || Uses(c)
    case Member(o, q) => Uses(o) || Uses(q)
    case Call(c, args) => Uses(c) || UsesIn(args)
    case Func(_, _, params, body) => UsesIn(params) || UsesBody(body)
    case Other(cs) => UsesIn(cs)
    case _ => false
  }

  predicate UsesIn(ns: seq<Ast.Node>)
    decreases ns
  {
    ns != [] && (Uses(ns[0]) || UsesIn(ns[1..]))
  }

  predicate UsesProps(ps: seq<Ast.Property>)
    decreases ps
  {
    ps != [] && (UsesProp(ps[0]) || UsesProps(ps[1..]))
  }

  predicate UsesProp(q: Ast.Property)
    decreases q
  {
    Uses(q.key) || Uses(q.value)
  }

  predicate UsesBody(b: Ast.Body)
    decreases b
  {
    match b
    case Block(ss) => UsesStmts(ss)
    case Expression(e) => Uses(e)
  }

  predicate UsesStmt(s: Ast.Stmt)
    decreases s
  {
    match s
    case Return(a) => a.Some? && Uses(a.value)
    case VarDecl(_, inits) => UsesIn(inits)
    case ExprStmt(e) => Uses(e)
    case Nested(ss) => UsesStmts(ss)
    case Compound(es, ss) => UsesIn(es) || UsesStmts(ss)
  }

  predicate UsesStmts(ss: seq<Ast.Stmt>)
    decreases ss
  {
    ss != [] && (UsesStmt(ss[0]) || UsesStmts(ss[1..]))
  }

  /** What is left after the pass: every function that is not an arrow uses `this` or
      `arguments`. */
  predicate Converted(n: Ast.Node) {
    n.Func? ==> n.arrow || Uses(n)
  }

  /** A function expression that uses neither `this` nor `arguments` becomes an arrow
      function with the same parameters, body and `async` flag; the visitor goes on into
      the parameters and the body. */
  function ToArrow(n: Ast.Node): (r: Ast.Node)
    decreases n
  {
    match n
    case Arr(es) => Ast.Arr(ToArrowIn(es))
    case Obj(ps) => Ast.Obj(ToArrowProps(ps))
    case Ternary(a, b, c) => Ast.Ternary(ToArrow(a), ToArrow(b), ToArrow(c))
    case Member(o, q) => Ast.Member(ToArrow(o), ToArrow(q))
    case Call(c, args) => Ast.Call(ToArrow(c), ToArrowIn(args))
    case Func(arrow, isAsync, params, body) =>
      Ast.Func(arrow || !Uses(n), isAsync, ToArrowIn(params), ToArrowBody(body))
    case Other(cs) => Ast.Other(ToArrowIn(cs))
    case _ => n
  }

  function ToArrowIn(ns: seq<Ast.Node>): (r: seq<Ast.Node>)
    ensures |r| == |ns|
    decreases ns
  {
    if ns == [] then [] else [ToArrow(ns[0])] + ToArrowIn(ns[1..])
  }

  function ToArrowProps(ps: seq<Ast.Property>): (r: seq<Ast.Property>)
    decreases ps
  {
    if ps == [] then [] else [ToArrowProp(ps[0])] + ToArrowProps(ps[1..])
  }

  function ToArrowProp(q: Ast.Property): (r: Ast.Property)
    decreases q
  {
    Ast.Property(ToArrow(q.key), ToArrow(q.value))
  }

  function ToArrowBody(b: Ast.Body): (r: Ast.Body)
    decreases b
  {
    match b
    case Block(ss) => Ast.Block(ToArrowStmts(ss))
    case Expression(e) => Ast.Expression(ToArrow(e))
  }

  function ToArrowStmt(s: Ast.Stmt): (r: Ast.Stmt)
    decreases s
  {
    match s
    case Return(a) => Ast.Return(if a.None? then None else Some(ToArrow(a.value)))
    case VarDecl(kind, inits) => Ast.VarDecl(kind, ToArrowIn(inits))
    case ExprStmt(e) => Ast.ExprStmt(ToArrow(e))
    case Nested(ss) => Ast.Nested(ToArrowStmts(ss))
    case Compound(es, ss) => Ast.Compound(ToArrowIn(es), ToArrowStmts(ss))
  }

  function ToArrowStmts(ss: seq<Ast.Stmt>): (r: seq<Ast.Stmt>)
    ensures |r| == |ss|
    decreases ss
  {
    if ss == [] then [] else [ToArrowStmt(ss[0])] + ToArrowStmts(ss[1..])
  }

  /** The pass does not change whether a tree uses `this` or `arguments`; after it
      every function that is not an arrow uses one of them, and a tree where that holds
      already is left as it is (so the second call of the pass changes nothing). */
  lemma {:induction false} ToArrowSpec(n: Ast.Node)
    ensures Uses(ToArrow(n)) == Uses(n)
    ensures AllFuncs(Converted, ToArrow(n))
    ensures AllFuncs(Converted, n) ==> ToArrow(n) == n
    decreases n
  {
    match n
    case Arr(es) => ToArrowInSpec(es);
    case Obj(ps) => ToArrowPropsSpec(ps);
    case Ternary(a, b, c) => ToArrowSpec(a); ToArrowSpec(b); ToArrowSpec(c);
    case Member(o, q) => ToArrowSpec(o); ToArrowSpec(q);
    case Call(c, args) => ToArrowSpec(c); ToArrowInSpec(args);
    case Func(_, _, params, body) => ToArrowInSpec(params); ToArrowBodySpec(body); ToArrowFuncStep(n);
    case Other(cs) => ToArrowInSpec(cs);
    case _ =>
  }

  /** The function-node step of ToArrowSpec, given the facts for its parameters and body. */
  lemma ToArrowFuncStep(n: Ast.Node)
    requires n.Func?
    requires UsesIn(ToArrowIn(n.params)) == UsesIn(n.params)
    requires AllFuncsIn(Converted, ToArrowIn(n.params))
    requires AllFuncsIn(Converted, n.params) ==> ToArrowIn(n.params) == n.params
    requires UsesBody(ToArrowBody(n.body)) == UsesBody(n.body)
    requires AllFuncsBody(Converted, ToArrowBody(n.body))
    requires AllFuncsBody(Converted, n.body) ==> ToArrowBody(n.body) == n.body
    ensures Uses(ToArrow(n)) == Uses(n)
    ensures AllFuncs(Converted, ToArrow(n))
    ensures AllFuncs(Converted, n) ==> ToArrow(n) == n
  {
    var r := ToArrow(n);
    assert r == Ast.Func(n.arrow || !Uses(n), n.isAsync, ToArrowIn(n.params), ToArrowBody(n.body));
    assert Uses(r) == Uses(n);
    assert Converted(r);
  }

  lemma {:induction false} ToArrowInSpec(ns: seq<Ast.Node>)
    ensures UsesIn(ToArrowIn(ns)) == UsesIn(ns)
    ensures AllFuncsIn(Converted, ToArrowIn(ns))
    ensures AllFuncsIn(Converted, ns) ==> ToArrowIn(ns) == ns
    decreases ns
  {
    if ns != [] {
      ToArrowSpec(ns[0]);
      ToArrowInSpec(ns[1..]);
      assert ToArrowIn(ns)[1..] == ToArrowIn(ns[1..]);
    }
  }

  lemma {:induction false} ToArrowPropsSpec(ps: seq<Ast.Property>)
    ensures UsesProps(ToArrowProps(ps)) == UsesProps(ps)
    ensures AllFuncsProps(Converted, ToArrowProps(ps))
    ensures AllFuncsProps(Converted, ps) ==> ToArrowProps(ps) == ps
    decreases ps
  {
    if ps != [] {
      ToArrowPropSpec(ps[0]);
      ToArrowPropsSpec(ps[1..]);
      assert ToArrowProps(ps)[1..] == ToArrowProps(ps[1..]);
    }
  }

  lemma ToArrowPropSpec(q: Ast.Property)
    ensures UsesProp(ToArrowProp(q)) == UsesProp(q)
    ensures AllFuncsProp(Converted, ToArrowProp(q))
    ensures AllFuncsProp(Converted, q) ==> ToArrowProp(q) == q
    decreases q
  {
    ToArrowSpec(q.key);
    ToArrowSpec(q.value);
  }

  lemma {:induction false} ToArrowBodySpec(b: Ast.Body)
    ensures UsesBody(ToArrowBody(b)) == UsesBody(b)
    ensures AllFuncsBody(Converted, ToArrowBody(b))
    ensures AllFuncsBody(Converted, b) ==> ToArrowBody(b) == b
    decreases b
  {
    match b
    case Block(ss) => ToArrowStmtsSpec(ss);
    case Expression(e) => ToArrowSpec(e);
  }

  lemma {:induction false} ToArrowStmtSpec(s: Ast.Stmt)
    ensures UsesStmt(ToArrowStmt(s)) == UsesStmt(s)
    ensures AllFuncsStmt(Converted, ToArrowStmt(s))
    ensures AllFuncsStmt(Converted, s) ==> ToArrowStmt(s) == s
    decreases s
  {
    match s
    case Return(a) => if a.Some? { ToArrowSpec(a.value); }
    case VarDecl(_, inits) => ToArrowInSpec(inits);
    case ExprStmt(e) => ToArrowSpec(e);
    case Nested(ss) => ToArrowStmtsSpec(ss);
    case Compound(es, ss) => ToArrowInSpec(es); ToArrowStmtsSpec(ss);
  }

  lemma {:induction false} ToArrowStmtsSpec(ss: seq<Ast.Stmt>)
    ensures UsesStmts(ToArrowStmts(ss)) == UsesStmts(ss)
    ensures AllFuncsStmts(Converted, ToArrowStmts(ss))
    ensures AllFuncsStmts(Converted, ss) ==> ToArrowStmts(ss) == ss
    decreases ss
  {
    if ss != [] {
      ToArrowStmtSpec(ss[0]);
      ToArrowStmtsSpec(ss[1..]);
      assert ToArrowStmts(ss)[1..] == ToArrowStmts(ss[1..]);
    }
  }

  /** A function that mentions `this` anywhere keeps its `function` form. */
  lemma FunctionUsingThisStays(isAsync: bool, params: seq<Ast.Node>, body: Ast.Body)
    requires UsesBody(body)
    ensures ToArrow(Ast.Func(false, isAsync, params, body)).Func?
    ensures !ToArrow(Ast.Func(false, isAsync, params, body)).arrow
  {
  }

  // ---------------------------------------------------------------------------
  // Arrow bodies that only return a value (`transformArrowReturnShorthand`)

  /** A block of exactly one `return` with a value. */
  predicate ReturnOnly(b: Ast.Body) {
    b.Block? && |b.statements| == 1 && b.statements[0].Return? && b.statements[0].argument.Some?
  }

  predicate Shorthanded(n: Ast.Node) {
    n.Func? && n.arrow ==> !ReturnOnly(n.body)
  }

  /** An arrow function whose body only returns a value gets that value as its body;
      the visitor goes on into the parameters and the new body. */
  function ToShorthand(n: Ast.Node): (r: Ast.Node)
    decreases n
  {
    match n
    case Arr(es) => Ast.Arr(ToShorthandIn(es))
    case Obj(ps) => Ast.Obj(ToShorthandProps(ps))
    case Ternary(a, b, c) => Ast.Ternary(ToShorthand(a), ToShorthand(b), ToShorthand(c))
    case Member(o, q) => Ast.Member(ToShorthand(o), ToShorthand(q))
    case Call(c, args) => Ast.Call(ToShorthand(c), ToShorthandIn(args))
    case Func(arrow, isAsync, params, body) =>
      if arrow && ReturnOnly(body) then
        Ast.Func(arrow, isAsync, ToShorthandIn(params), Ast.Expression(ToShorthand(body.statements[0].argument.value)))
      else Ast.Func(arrow, isAsync, ToShorthandIn(params), ToShorthandBody(body))
    case Other(cs) => Ast.Other(ToShorthandIn(cs))
    case _ => n
  }

  function ToShorthandIn(ns: seq<Ast.Node>): (r: seq<Ast.Node>)
    ensures |r| == |ns|
    decreases ns
  {
    if ns == [] then [] else [ToShorthand(ns[0])] + ToShorthandIn(ns[1..])
  }

  function ToShorthandProps(ps: seq<Ast.Property>): (r: seq<Ast.Property>)
    decreases ps
  {
    if ps == [] then [] else [ToShorthandProp(ps[0])] + ToShorthandProps(ps[1..])
  }

  function ToShorthandProp(q: Ast.Property): (r: Ast.Property)
    decreases q
  {
    Ast.Property(ToShorthand(q.key), ToShorthand(q.value))
  }

  function ToShorthandBody(b: Ast.Body): (r: Ast.Body)
    decreases b
  {
    match b
    case Block(ss) => Ast.Block(ToShorthandStmts(ss))
    case Expression(e) => Ast.Expression(ToShorthand(e))
  }

  function ToShorthandStmt(s: Ast.Stmt): (r: Ast.Stmt)
    ensures s.Return? <==> r.Return?
    ensures s.Return? ==> (s.argument.Some? <==> r.argument.Some?)
    decreases s
  {
    match s
    case Return(a) => Ast.Return(if a.None? then None else Some(ToShorthand(a.value)))
    case VarDecl(kind, inits) => Ast.VarDecl(kind, ToShorthandIn(inits))
    case ExprStmt(e) => Ast.ExprStmt(ToShorthand(e))
    case Nested(ss) => Ast.Nested(ToShorthandStmts(ss))
    case Compound(es, ss) => Ast.Compound(ToShorthandIn(es), ToShorthandStmts(ss))
  }

  function ToShorthandStmts(ss: seq<Ast.Stmt>): (r: seq<Ast.Stmt>)
    ensures |r| == |ss|
    ensures forall i :: 0 <= i < |ss| ==> r[i] == ToShorthandStmt(ss[i])
    decreases ss
  {
    if ss == [] then [] else [ToShorthandStmt(ss[0])] + ToShorthandStmts(ss[1..])
  }

  /** After the pass no arrow function has a body that only returns a value, and a tree
      without one is left as it is (so the pass is idempotent). */
  lemma {:induction false} ToShorthandSpec(n: Ast.Node)
    ensures AllFuncs(Shorthanded, ToShorthand(n))
    ensures AllFuncs(Shorthanded, n) ==> ToShorthand(n) == n
    decreases n
  {
    match n
    case Arr(es) => ToShorthandInSpec(es);
    case Obj(ps) => ToShorthandPropsSpec(ps);
    case Ternary(a, b, c) => ToShorthandSpec(a); ToShorthandSpec(b); ToShorthandSpec(c);
    case Member(o, q) => ToShorthandSpec(o); ToShorthandSpec(q);
    case Call(c, args) => ToShorthandSpec(c); ToShorthandInSpec(args);
    case Func(arrow, _, params, body) =>
      ToShorthandInSpec(params);
      if arrow && ReturnOnly(body) {
        ToShorthandSpec(body.statements[0].argument.value);
      } else {
        ToShorthandBodySpec(body);
      }
    case Other(cs) => ToShorthandInSpec(cs);
    case _ =>
  }

  lemma {:induction false} ToShorthandInSpec(ns: seq<Ast.Node>)
    ensures AllFuncsIn(Shorthanded, ToShorthandIn(ns))
    ensures AllFuncsIn(Shorthanded, ns) ==> ToShorthandIn(ns) == ns
    decreases ns
  {
    if ns != [] {
      ToShorthandSpec(ns[0]);
      ToShorthandInSpec(ns[1..]);
      assert ToShorthandIn(ns)[1..] == ToShorthandIn(ns[1..]);
    }
  }

  lemma {:induction false} ToShorthandPropsSpec(ps: seq<Ast.Property>)
    ensures AllFuncsProps(Shorthanded, ToShorthandProps(ps))
    ensures AllFuncsProps(Shorthanded, ps) ==> ToShorthandProps(ps) == ps
    decreases ps
  {
    if ps != [] {
      ToShorthandPropSpec(ps[0]);
      ToShorthandPropsSpec(ps[1..]);
      assert ToShorthandProps(ps)[1..] == ToShorthandProps(ps[1..]);
    }
  }

  lemma ToShorthandPropSpec(q: Ast.Property)
    ensures AllFuncsProp(Shorthanded, ToShorthandProp(q))
    ensures AllFuncsProp(Shorthanded, q) ==> ToShorthandProp(q) == q
    decreases q
  {
    ToShorthandSpec(q.key);
    ToShorthandSpec(q.value);
  }

  lemma {:induction false} ToShorthandBodySpec(b: Ast.Body)
    ensures AllFuncsBody(Shorthanded, ToShorthandBody(b))
    ensures AllFuncsBody(Shorthanded, b) ==> ToShorthandBody(b) == b
    decreases b
  {
    match b
    case Block(ss) => ToShorthandStmtsSpec(ss);
    case Expression(e) => ToShorthandSpec(e);
  }

  lemma {:induction false} ToShorthandStmtSpec(s: Ast.Stmt)
    ensures AllFuncsStmt(Shorthanded, ToShorthandStmt(s))
    ensures AllFuncsStmt(Shorthanded, s) ==> ToShorthandStmt(s) == s
    decreases s
  {
    match s
    case Return(a) => if a.Some? { ToShorthandSpec(a.value); }
    case VarDecl(_, inits) => ToShorthandInSpec(inits);
    case ExprStmt(e) => ToShorthandSpec(e);
    case Nested(ss) => ToShorthandStmtsSpec(ss);
    case Compound(es, ss) => ToShorthandInSpec(es); ToShorthandStmtsSpec(ss);
  }

  lemma {:induction false} ToShorthandStmtsSpec(ss: seq<Ast.Stmt>)
    ensures AllFuncsStmts(Shorthanded, ToShorthandStmts(ss))
    ensures AllFuncsStmts(Shorthanded, ss) ==> ToShorthandStmts(ss) == ss
    decreases ss
  {
    if ss != [] {
      ToShorthandStmtSpec(ss[0]);
      ToShorthandStmtsSpec(ss[1..]);
      assert ToShorthandStmts(ss)[1..] == ToShorthandStmts(ss[1..]);
    }
  }

  /** Together: `function () { return e }` with no `this` or `arguments` in it ends as
      `() => e`, with `e` itself rewritten. */
  lemma ReturningFunctionBecomesShorthand(isAsync: bool, params: seq<Ast.Node>, e: Ast.Node)
    requires !UsesIn(params) && !Uses(e)
    ensures var f := Ast.Func(false, isAsync, params, Ast.Block([Ast.Return(Some(e))]));
      ToShorthand(ToArrow(f)) ==
        Ast.Func(true, isAsync, ToShorthandIn(ToArrowIn(params)), Ast.Expression(ToShorthand(ToArrow(e))))
  {
    var ss := [Ast.Return(Some(e))];
    var f := Ast.Func(false, isAsync, params, Ast.Block(ss));
    assert ToArrowStmts(ss) == [Ast.Return(Some(ToArrow(e)))] by {
      assert ss[1..] == [];
      assert ToArrowStmt(ss[0]) == Ast.Return(Some(ToArrow(e)));
    }
    assert !Uses(f) by {
      assert ss[1..] == [];
      assert !UsesStmts(ss[1..]);
      assert !UsesStmt(ss[0]);
      assert !UsesStmts(ss);
      assert !UsesBody(Ast.Block(ss));
    }
    var g := ToArrow(f);
    assert ToArrowBody(Ast.Block(ss)) == Ast.Block([Ast.Return(Some(ToArrow(e)))]);
    assert g == Ast.Func(true, isAsync, ToArrowIn(params), Ast.Block([Ast.Return(Some(ToArrow(e)))]));
    assert ReturnOnly(g.body);
  }
}
