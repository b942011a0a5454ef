/** The rewrite rules applied after a class is transpiled (`afterTranspile` in
    src/Hooks.js): rule keys with `*` wildcards matched against printed names, the
    alias table, the productions of the call rules with the argument shapes they
    decline, the variable rules, the pruning of calls, and the list of libraries the
    rewritten code needs. Printing a node is a function parameter. */
module Hooks {

  import opened Wrappers
  import Text
  import Seqs
  import Ast

  // ---------------------------------------------------------------------------
  // Rule keys (`parseTransforms`): `^key$` with `.` literal and `*` as
  // `([A-Z0-9_]+)`, under the `i` flag

  /** The length of the longest run of `[A-Z0-9_]` characters (either case) at the start of `s`. */
  function RunLength(s: string): (n: nat)
    ensures n <= |s|
    ensures forall i :: 0 <= i < n ==> Text.IsWordChar(s[i])
    ensures n < |s| ==> !Text.IsWordChar(s[n])
  {
    if s == [] || !Text.IsWordChar(s[0]) then 0 else 1 + RunLength(s[1..])
  }

  /** The regular expression of `key` executed on `s`: the captured runs when it
      matches, `None` otherwise. A `*` first takes the longest run it can and gives
      characters back one at a time while the rest of the key fails, as a greedy
      group does under backtracking. */
  function Match(key: string, s: string): Option<seq<string>>
    decreases |key|, |s| + 1
  {
    if key == [] then (if s == [] then Some([]) else None)
    else if key[0] == '*' then TryStar(key[1..], s, RunLength(s))
    else if s != [] && Text.SameLetter(key[0], s[0]) then Match(key[1..], s[1..])
    else None
  }

  /** The `*` takes the first `k` characters of `s`, or fewer. */
  function TryStar(rest: string, s: string, k: nat): Option<seq<string>>
    requires k <= |s|
    decreases |rest| + 1, k
  {
    if k == 0 then None
    else
      match Match(rest, s[k..])
      case Some(captures) => Some([s[..k]] + captures)
      case None => TryStar(rest, s, k - 1)
  }

  predicate AllWordChars(s: string) {
    forall i :: 0 <= i < |s| ==> Text.IsWordChar(s[i])
  }

  /** `s` is the key with its `*`s replaced by `captures`, in order, each a non-empty run
      of `[A-Z0-9_]` characters, and every other character of the key equal to the
      character of `s` in the same place up to ASCII case. */
  predicate Fits(key: string, captures: seq<string>, s: string)
    decreases |key|
  {
    if key == [] then captures == [] && s == []
    else if key[0] == '*' then
      captures != [] && captures[0] != [] && AllWordChars(captures[0]) &&
      Text.StartsWith(s, captures[0]) && Fits(key[1..], captures[1..], s[|captures[0]|..])
    else s != [] && Text.SameLetter(key[0], s[0]) && Fits(key[1..], captures, s[1..])
  }

  /** Whatever the key's regular expression captures fits the key. */
  lemma {:induction false} MatchSound(key: string, s: string)
    ensures Match(key, s).Some? ==> Fits(key, Match(key, s).value, s)
    decreases |key|, |s| + 1
  {
    if key != [] {
      if key[0] == '*' {
        TryStarSound(key[1..], s, RunLength(s));
      } else if s != [] && Text.SameLetter(key[0], s[0]) {
        MatchSound(key[1..], s[1..]);
      }
    }
  }

  lemma {:induction false} TryStarSound(rest: string, s: string, k: nat)
    requires k <= RunLength(s)
    ensures TryStar(rest, s, k).Some? ==> Fits("*" + rest, TryStar(rest, s, k).value, s)
    decreases |rest| + 1, k
  {
    if k > 0 {
      MatchSound(rest, s[k..]);
      TryStarSound(rest, s, k - 1);
      var r := TryStar(rest, s, k);
      if r.Some? && Match(rest, s[k..]).Some? {
        var c := [s[..k]] + Match(rest, s[k..]).value;
        assert c[0] == s[..k] && c[1..] == Match(rest, s[k..]).value;
        assert ("*" + rest)[1..] == rest;
      }
    }
  }

  /** The key's regular expression matches every name that fits the key. */
  lemma {:induction false} MatchComplete(key: string, captures: seq<string>, s: string)
    requires Fits(key, captures, s)
    ensures Match(key, s).Some?
    decreases |key|
  {
    if key != [] {
      if key[0] == '*' {
        var m := |captures[0]|;
        assert s[..m] == captures[0];
        RunAtLeast(s, m);
        MatchComplete(key[1..], captures[1..], s[m..]);
        TryStarComplete(key[1..], s, RunLength(s), m);
      } else {
        MatchComplete(key[1..], captures, s[1..]);
      }
    }
  }

  lemma {:induction false} RunAtLeast(s: string, m: nat)
    requires m <= |s| && AllWordChars(s[..m])
    ensures m <= RunLength(s)
    decreases m
  {
    if m > 0 {
      assert s[..m][0] == s[0];
      assert s[1..][..m - 1] == s[..m][1..];
      RunAtLeast(s[1..], m - 1);
    }
  }

  lemma {:induction false} TryStarComplete(rest: string, s: string, k: nat, m: nat)
    requires 0 < m <= k <= |s|
    requires Match(rest, s[m..]).Some?
    ensures TryStar(rest, s, k).Some?
    decreases k
  {
    if k > m && Match(rest, s[k..]).None? {
      TryStarComplete(rest, s, k - 1, m);
    }
  }

  /** A key's regular expression matches a name exactly when the name fits the key. */
  lemma MatchIff(key: string, s: string)
    ensures Match(key, s).Some? ==> exists captures :: Fits(key, captures, s)
    ensures (exists captures :: Fits(key, captures, s)) ==> Match(key, s).Some?
  {
    MatchSound(key, s);
    if Match(key, s).Some? {
      var c := Match(key, s).value;
      assert Fits(key, c, s);
    }
    if exists c :: Fits(key, c, s) {
      var c :| Fits(key, c, s);
      MatchComplete(key, c, s);
    }
  }

  /** A key without `*` matches exactly the names equal to it up to ASCII case. */
  lemma {:induction false} MatchLiteral(key: string, s: string)
    requires '*' !in key
    ensures Match(key, s) == (if |key| == |s| && forall i :: 0 <= i < |s| ==> Text.SameLetter(key[i], s[i])
                              then Some([]) else None)
    decreases |key|
  {
    if key != [] {
      assert key[0] != '*' by { assert key[0] in key; }
      assert '*' !in key[1..] by {
        forall i | 0 <= i < |key[1..]| ensures key[1..][i] != '*' { assert key[1..][i] == key[i + 1]; }
      }
      if s != [] {
        MatchLiteral(key[1..], s[1..]);
        if |key| == |s| && Text.SameLetter(key[0], s[0]) && !(forall i :: 0 <= i < |s| ==> Text.SameLetter(key[i], s[i])) {
          var i :| 0 <= i < |s| && !Text.SameLetter(key[i], s[i]);
          assert key[1..][i - 1] == key[i] && s[1..][i - 1] == s[i];
        }
      }
    }
  }

  // ---------------------------------------------------------------------------
  // The alias table (`withAlias`)

  /** `withAlias(name)`: `Ext.bind` and `Ext.encode` are written as their full names. */
  function WithAlias(name: string): (r: string) {
    if name == "Ext.bind" then "Ext.Function.bind"
    else if name == "Ext.encode" then "Ext.JSON.encode"
    else name
  }

  /** Only the two aliases change; every other name is kept. Applying the table twice
      is applying it once. */
  lemma WithAliasSpec(name: string)
    ensures name == "Ext.bind" ==> WithAlias(name) == "Ext.Function.bind"
    ensures name == "Ext.encode" ==> WithAlias(name) == "Ext.JSON.encode"
    ensures name != "Ext.bind" && name != "Ext.encode" ==> WithAlias(name) == name
    ensures WithAlias(WithAlias(name)) == WithAlias(name)
  {
    if name == "Ext.bind" || name == "Ext.encode" {
      AliasTargetsAreNotAliases(WithAlias(name));
    }
  }

  lemma AliasTargetsAreNotAliases(t: string)
    requires t == "Ext.Function.bind" || t == "Ext.JSON.encode"
    ensures t != "Ext.bind" && t != "Ext.encode"
  {
    assert |t| != |"Ext.bind"| && |t| != |"Ext.encode"|;
  }

  /** The properties every plain object inherits from `Object.prototype`. */
  const ObjectPrototypeKeys: seq<string> := [
    "constructor", "__defineGetter__", "__defineSetter__", "hasOwnProperty",
    "__lookupGetter__", "__lookupSetter__", "isPrototypeOf", "propertyIsEnumerable",
    "toString", "valueOf", "__proto__", "toLocaleString"
  ]

  /** `aliases[variable] || variable` as written: the lookup also finds the members of
      `Object.prototype`, which are truthy and are not strings; the name that comes back
      then has no `match` method and the call rule lookup raises (`None`). */
  function WithAliasAsWritten(name: string): (r: Option<string>)
    ensures r.None? <==> name in ObjectPrototypeKeys
    ensures r.Some? ==> r.value == WithAlias(name)
  {
    if name in ObjectPrototypeKeys then None else Some(WithAlias(name))
  }

  /** As written, a call of a function named `toString` makes the rewriting raise. */
  lemma ToStringCallRaises(name: string)
    requires name == "toString"
    ensures WithAliasAsWritten(name).None?
  {
    assert ObjectPrototypeKeys[8] == name;
  }

  // ---------------------------------------------------------------------------
  // Rule tables (`parseTransforms`)

  /** An entry of a rule table: a bare production, or `{ fn, lib }`. */
  datatype Entry<P> = Bare(fn: P) | WithLib(fn: P, lib: Option<string>)

  /** A parsed rule: the key its regular expression is built from, the production and
      the library it needs (`transforms[key].lib || null`). */
  datatype Rule<P> = Rule(key: string, transform: P, library: Option<string>)

  function LibraryOf<P>(e: Entry<P>): Option<string> {
    match e
    case Bare(_) => None
    case WithLib(_, lib) => if lib == Some("") then None else lib
  }

  /** `parseTransforms(transforms)`: one rule per key, in the order of the keys. A bare
      production has no `lib` property, so its rule needs no library. */
  function ParseTransforms<P>(table: seq<(string, Entry<P>)>): (r: seq<Rule<P>>)
    ensures |r| == |table|
    ensures forall i :: 0 <= i < |r| ==>
      r[i].key == table[i].0 && r[i].transform == table[i].1.fn && r[i].library == LibraryOf(table[i].1)
    ensures forall i :: 0 <= i < |r| && table[i].1.Bare? ==> r[i].library.None?
  {
    if table == [] then [] else [Rule(table[0].0, table[0].1.fn, LibraryOf(table[0].1))] + ParseTransforms(table[1..])
  }

  /** `rules.find(rule => name.match(rule.check))`: the first rule whose key matches. */
  function FindRule<P>(rules: seq<Rule<P>>, name: string): (r: Option<nat>)
    ensures r.Some? ==> r.value < |rules| && Match(rules[r.value].key, name).Some?
    ensures r.Some? ==> forall j :: 0 <= j < r.value ==> Match(rules[j].key, name).None?
    ensures r.None? ==> forall j :: 0 <= j < |rules| ==> Match(rules[j].key, name).None?
  {
    if rules == [] then None
    else if Match(rules[0].key, name).Some? then Some(0)
    else match FindRule(rules[1..], name)
      case None => None
      case Some(i) =>
        assert forall j :: 1 <= j <= i ==> rules[j] == rules[1..][j - 1];
        Some(i + 1)
  }

  // ---------------------------------------------------------------------------
  // The call rules (`_callTransforms`)

  /** The productions of the call rules, one per key. */
  datatype CallProduction =
    | ArrayContains | ArrayEach | ArrayIndexOf | ArrayMap | FunctionBind | NumberToFixed
    | ObjectEach | ObjectGetSize | StringLeftPad | StringTrim | Defer | Apply | ApplyIf | IsNumeric

  /** The call rule table, in the order of its keys. Its entries are bare productions. */
  const CallTable: seq<(string, Entry<CallProduction>)> := [
    ("Ext.Array.contains", Bare(ArrayContains)),
    ("Ext.Array.each", Bare(ArrayEach)),
    ("Ext.Array.indexOf", Bare(ArrayIndexOf)),
    ("Ext.Array.map", Bare(ArrayMap)),
    ("Ext.Function.bind", Bare(FunctionBind)),
    ("Ext.Number.toFixed", Bare(NumberToFixed)),
    ("Ext.Object.each", Bare(ObjectEach)),
    ("Ext.Object.getSize", Bare(ObjectGetSize)),
    ("Ext.String.leftPad", Bare(StringLeftPad)),
    ("Ext.String.trim", Bare(StringTrim)),
    ("Ext.defer", Bare(Defer)),
    ("Ext.apply", Bare(Apply)),
    ("Ext.applyIf", Bare(ApplyIf)),
    ("Ext.isNumeric", Bare(IsNumeric))
  ]

  function CallRules(): seq<Rule<CallProduction>> {
    ParseTransforms(CallTable)
  }

  /** No call rule names a library: the table holds bare productions, which have no `lib`. */
  lemma CallRulesNeedNoLibrary(t: seq<(string, Entry<CallProduction>)>)
    requires t == CallTable
    ensures forall i :: 0 <= i < |ParseTransforms(t)| ==> ParseTransforms(t)[i].library.None?
  {
    assert forall i :: 0 <= i < |t| ==> t[i].1.Bare?;
  }

  /** What a production gives: it declines (`null`), gives the code of the replacement,
      or raises. */
  datatype Outcome = Declined | Code(code: string) | Raises

  /** The argument at position `k`, `undefined` past the end of the list. */
  function Arg(args: seq<Ast.Node>, k: nat): Option<Ast.Node> {
    if k < |args| then Some(args[k]) else None
  }

  /** `Ast.toString(node)`; printing `undefined` gives the empty string. */
  function Print(printer: Ast.Node -> string, n: Option<Ast.Node>): string {
    if n.None? then "" else printer(n.value)
  }

  /** `wrapExpression(node)`: a conditional expression is put in parentheses. */
  function Wrap(printer: Ast.Node -> string, n: Option<Ast.Node>): string {
    if n.Some? && n.value.Ternary? then "(" + printer(n.value) + ")" else Print(printer, n)
  }

  /** `getArgs(...args)`: the arguments that are there, printed and joined by `, `. */
  function GetArgs(printer: Ast.Node -> string, ns: seq<Option<Ast.Node>>): string {
    Text.Join(Present(printer, ns), ", ")
  }

  function Present(printer: Ast.Node -> string, ns: seq<Option<Ast.Node>>): (r: seq<string>)
    ensures |r| <= |ns|
  {
    if ns == [] then []
    else (if ns[0].Some? then [printer(ns[0].value)] else []) + Present(printer, ns[1..])
  }

  /** `code.replace(/(^\[|\]$)/g, '')`. */
  function StripBrackets(code: string): (r: string)
    ensures |r| <= |code|
  {
    var a := if code != [] && code[0] == '[' then code[1..] else code;
    if a != [] && a[|a| - 1] == ']' then a[..|a| - 1] else a
  }

  /** `explodeArray(array)`: an array literal loses its brackets, anything else is spread. */
  function ExplodeArray(printer: Ast.Node -> string, n: Option<Ast.Node>): string {
    if n.Some? && n.value.Arr? then StripBrackets(printer(n.value)) else "..." + Print(printer, n)
  }

  /** `swapParams(fn, 0, 1)`: a copy of the function with its first two parameters
      exchanged. Anything but a function with at least two parameters fails. */
  function SwapParams(fn: Option<Ast.Node>): (r: Option<Ast.Node>)
    ensures r.Some? <==> fn.Some? && fn.value.Func? && |fn.value.params| >= 2
    ensures r.Some? ==> (r.value.Func? &&
      r.value.arrow == fn.value.arrow && r.value.isAsync == fn.value.isAsync && r.value.body == fn.value.body &&
      |r.value.params| == |fn.value.params| &&
      r.value.params[0] == fn.value.params[1] && r.value.params[1] == fn.value.params[0] &&
      r.value.params[2..] == fn.value.params[2..])
  {
    match fn
    case Some(Func(arrow, isAsync, ps, body)) =>
      if |ps| >= 2 then Some(Ast.Func(arrow, isAsync, [ps[1], ps[0]] + ps[2..], body)) else None
    case _ => None
  }

  /** `swapParams(fn, 0, 1)` on the objects themselves: the copy's first two parameters
      are exchanged in place, and since the shallow copy shares its parameter array with
      `fn`, the original function changes with it. The copy stands for `SwapParams`. */
  method SwapParamsInPlace(fn: Ast.FunctionObject) returns (copy: Ast.FunctionObject)
    requires fn.params.Length >= 2
    modifies fn.params
    ensures fresh(copy) && copy.params == fn.params
    ensures Some(copy.Value()) == SwapParams(Some(old(fn.Value())))
    ensures fn.Value() == copy.Value()
  {
    copy := fn.Copy();
    var p1 := copy.params[0];
    var p2 := copy.params[1];
    copy.params[0] := p2;
    copy.params[1] := p1;
    assert copy.params[..] == [p2, p1] + old(fn.params[..])[2..];
  }

  /** Swapping the parameters twice gives the function back. */
  lemma SwapParamsTwice(fn: Ast.Node)
    requires fn.Func? && |fn.params| >= 2
    ensures SwapParams(SwapParams(Some(fn))) == Some(fn)
  {
    var ps := fn.params;
    assert [ps[0], ps[1]] + ps[2..] == ps;
  }

  /** `Ext.Function.bind(fn, scope, args, appendArgs)`: declines extra arguments unless
      `appendArgs` prints as `0`; the scope defaults to `window`. */
  function Bind(printer: Ast.Node -> string, fn: Option<Ast.Node>, scope: Option<Ast.Node>,
                args: Option<Ast.Node>, appendArgs: Option<Ast.Node>): Outcome {
    if args.Some? && (appendArgs.None? || printer(appendArgs.value) != "0") then Declined
    else
      var s := if scope.None? then "window" else printer(scope.value);
      var a := if args.None? then "" else ", " + ExplodeArray(printer, args);
      Code(Wrap(printer, fn) + ".bind(" + s + a + ")")
  }

  /** The production of a call rule applied to the call's arguments. */
  function Produce(prod: CallProduction, printer: Ast.Node -> string, args: seq<Ast.Node>): Outcome {
    var a0 := Arg(args, 0);
    var a1 := Arg(args, 1);
    var a2 := Arg(args, 2);
    match prod
    case ArrayContains => Code(Wrap(printer, a0) + ".includes(" + Print(printer, a1) + ")")
    case ArrayEach =>
      if a2.Some? || Arg(args, 3).Some? then Declined
      else Code(Wrap(printer, a0) + ".forEach(" + Print(printer, a1) + ")")
    case ArrayIndexOf => Code(Wrap(printer, a0) + ".indexOf(" + GetArgs(printer, [a1, a2]) + ")")
    case ArrayMap => Code(Wrap(printer, a0) + ".map(" + GetArgs(printer, [a1, a2]) + ")")
    case FunctionBind => Bind(printer, a0, a1, a2, Arg(args, 3))
    case NumberToFixed => Code(Wrap(printer, a0) + ".toFixed(" + Print(printer, a1) + ")")
    case ObjectEach =>
      if a2.Some? then Declined
      else
        var f := SwapParams(a1);
        if f.None? then Raises else Code("_.forEach(" + Print(printer, a0) + ", " + printer(f.value) + ")")
    case ObjectGetSize => Code("Object.keys(" + Print(printer, a0) + ").length")
    case StringLeftPad => Code(Wrap(printer, a0) + ".padStart(" + GetArgs(printer, [a1, a2]) + ")")
    case StringTrim => Code(Wrap(printer, a0) + ".trim()")
    case Defer =>
      var f := if a2.Some? || Arg(args, 3).Some? then Bind(printer, a0, a2, Arg(args, 3), Arg(args, 4))
               else Code(Print(printer, a0));
      if !f.Code? || f.code == "" then Declined
      else Code("setTimeout(" + f.code + ", " + Print(printer, a1) + ")")
    case Apply =>
      var d := if a2.None? then "" else ", " + (if printer(a2.value) == "" then "[object Object]" else printer(a2.value));
      Code("Object.assign(" + Print(printer, a0) + d + ", " + Print(printer, a1) + ")")
    case ApplyIf =>
      Code("_.assignWith(" + Print(printer, a0) + ", " + Print(printer, a1) +
           ", (objValue, srcValue) => _.isUndefined(objValue) ? srcValue : objValue)")
    case IsNumeric => Code("_.isFinite(+" + Print(printer, a0) + ")")
  }

  /** `Ext.Function.bind` declines exactly when it has an `args` argument and no
      `appendArgs` that prints as `0`; otherwise it binds to the given scope, or to
      `window` when there is none. */
  lemma BindSpec(printer: Ast.Node -> string, args: seq<Ast.Node>)
    ensures Produce(FunctionBind, printer, args).Declined? <==>
      |args| >= 3 && (|args| == 3 || printer(args[3]) != "0")
    ensures !Produce(FunctionBind, printer, args).Raises?
    ensures |args| <= 1 ==>
      Produce(FunctionBind, printer, args) == Code(Wrap(printer, Arg(args, 0)) + ".bind(window)")
  {
    if |args| <= 1 {
      var w := Wrap(printer, Arg(args, 0));
      assert w + ".bind(" + "window" + "" + ")" == w + ".bind(window)";
    }
  }

  /** `Ext.Array.each` declines a scope or a `reverse` argument. */
  lemma ArrayEachSpec(printer: Ast.Node -> string, args: seq<Ast.Node>)
    ensures Produce(ArrayEach, printer, args).Declined? <==> |args| >= 3
    ensures |args| < 3 ==> (Produce(ArrayEach, printer, args) ==
      Code(Wrap(printer, Arg(args, 0)) + ".forEach(" + Print(printer, Arg(args, 1)) + ")"))
  {
  }

  /** `Ext.Object.each` declines a scope; otherwise it becomes `_.forEach` over the
      object with the callback's first two parameters (value and key) exchanged, and it
      raises when the callback is not a function with two parameters. */
  lemma ObjectEachSpec(printer: Ast.Node -> string, args: seq<Ast.Node>)
    ensures Produce(ObjectEach, printer, args).Declined? <==> |args| >= 3
    ensures Produce(ObjectEach, printer, args).Raises? <==>
      |args| < 3 && !(|args| >= 2 && args[1].Func? && |args[1].params| >= 2)
    ensures Produce(ObjectEach, printer, args).Code? ==>
      var f := SwapParams(Some(args[1])).value;
      f.params[0] == args[1].params[1] && f.params[1] == args[1].params[0] &&
      Produce(ObjectEach, printer, args).code == "_.forEach(" + Print(printer, Arg(args, 0)) + ", " + printer(f) + ")"
  {
  }

  /** `Ext.defer` declines exactly when its delegated `bind` declines, or when there is
      nothing to call; otherwise it becomes `setTimeout(fn, millis)`. */
  lemma DeferSpec(printer: Ast.Node -> string, args: seq<Ast.Node>)
    ensures var bound := |args| >= 3;
      var f := if bound then Bind(printer, Arg(args, 0), Arg(args, 2), Arg(args, 3), Arg(args, 4))
               else Code(Print(printer, Arg(args, 0)));
      !f.Raises? &&
      (Produce(Defer, printer, args).Declined? <==> f.Declined? || f.code == "") &&
      (Produce(Defer, printer, args).Code? ==>
        Produce(Defer, printer, args).code == "setTimeout(" + f.code + ", " + Print(printer, Arg(args, 1)) + ")")
    ensures |args| >= 3 ==>
      (Produce(Defer, printer, args).Declined? <==> Produce(FunctionBind, printer, [args[0]] + args[2..]).Declined?)
  {
    if |args| >= 3 {
      var b := [args[0]] + args[2..];
      assert Arg(b, 0) == Arg(args, 0) && Arg(b, 1) == Arg(args, 2) && Arg(b, 2) == Arg(args, 3) && Arg(b, 3) == Arg(args, 4);
      var f := Bind(printer, Arg(args, 0), Arg(args, 2), Arg(args, 3), Arg(args, 4));
      if f.Code? {
        assert |f.code| > 0 by { BindCodeNonEmpty(printer, Arg(args, 0), Arg(args, 2), Arg(args, 3), Arg(args, 4)); }
      }
    }
  }

  lemma BindCodeNonEmpty(printer: Ast.Node -> string, fn: Option<Ast.Node>, scope: Option<Ast.Node>,
                         args: Option<Ast.Node>, appendArgs: Option<Ast.Node>)
    ensures Bind(printer, fn, scope, args, appendArgs).Code? ==> Bind(printer, fn, scope, args, appendArgs).code != ""
  {
  }

  /** Only `Ext.Array.each`, `Ext.Function.bind`, `Ext.Object.each` and `Ext.defer` ever
      decline, and only `Ext.Object.each` ever raises. */
  lemma OtherProductionsProduce(prod: CallProduction, printer: Ast.Node -> string, args: seq<Ast.Node>)
    requires prod != ArrayEach && prod != FunctionBind && prod != ObjectEach && prod != Defer
    ensures Produce(prod, printer, args).Code?
  {
  }


  // ---------------------------------------------------------------------------
  // The variable rules (`variableTransforms`)

  /** The productions of the variable rules: `App.<method>` for `*.app.*`, a fixed
      expression for every other key. */
  datatype VarProduction = AppMethod | Constant(code: string)

  const VarTable: seq<(string, Entry<VarProduction>)> := [
    ("*.app.*", WithLib(AppMethod, Some("App"))),
    ("Ext.Array.clean", WithLib(Constant("_.compact"), Some("_"))),
    ("Ext.Array.difference", WithLib(Constant("_.difference"), Some("_"))),
    ("Ext.Array.flatten", WithLib(Constant("_.flattenDeep"), Some("_"))),
    ("Ext.Array.intersect", WithLib(Constant("_.intersection"), Some("_"))),
    ("Ext.Array.pluck", WithLib(Constant("_.map"), Some("_"))),
    ("Ext.Array.remove", WithLib(Constant("_.pull"), Some("_"))),
    ("Ext.Array.unique", WithLib(Constant("_.uniq"), Some("_"))),
    ("Ext.JSON.decode", WithLib(Constant("JSON.parse"), None)),
    ("Ext.JSON.encode", WithLib(Constant("JSON.stringify"), None)),
    ("Ext.Number.constrain", WithLib(Constant("_.clamp"), Some("_"))),
    ("Ext.String.capitalize", WithLib(Constant("_.upperFirst"), Some("_"))),
    ("Ext.baseCSSPrefix", WithLib(Constant("'x-'"), None)),
    ("Ext.clone", WithLib(Constant("_.cloneDeep"), Some("_"))),
    ("Ext.emptyFn", WithLib(Constant("() => {}"), Some("_"))),
    ("Ext.isArray", WithLib(Constant("_.isArray"), Some("_"))),
    ("Ext.isDate", WithLib(Constant("_.isDate"), Some("_"))),
    ("Ext.isDefined", WithLib(Constant("!_.isUndefined"), Some("_"))),
    ("Ext.isEmpty", WithLib(Constant("_.isEmpty"), Some("_"))),
    ("Ext.isFunction", WithLib(Constant("_.isFunction"), Some("_"))),
    ("Ext.isNumber", WithLib(Constant("_.isFinite"), Some("_"))),
    ("Ext.isString", WithLib(Constant("_.isString"), Some("_")))
  ]

  function VarRules(): seq<Rule<VarProduction>> {
    ParseTransforms(VarTable)
  }

  /** The expression a variable rule produces from the captures of its key; a missing
      capture prints as `undefined`. */
  function VarOutput(prod: VarProduction, captures: seq<string>): string {
    match prod
    case AppMethod => "App." + (if |captures| >= 2 then captures[1] else "undefined")
    case Constant(code) => code
  }

  /** The rewriting of a printed member expression under the variable rules `vars`
      (`VarRules()` in the source): the first rule whose key matches the aliased name
      gives the replacement and the library it needs. */
  function MemberAction(vars: seq<Rule<VarProduction>>, expr: string): (r: Option<(string, Option<string>)>)
    ensures r.Some? <==> FindRule(vars, WithAlias(expr)).Some?
    ensures r.Some? ==> var i := FindRule(vars, WithAlias(expr)).value;
      r.value.1 == vars[i].library &&
      r.value.0 == VarOutput(vars[i].transform, Match(vars[i].key, WithAlias(expr)).value)
  {
    var name := WithAlias(expr);
    match FindRule(vars, name)
    case None => None
    case Some(i) =>
      var rule := vars[i];
      Some((VarOutput(rule.transform, Match(rule.key, name).value), rule.library))
  }

  /** The first variable rule is `*.app.*`, giving `App.<method>` and needing `App`. */
  lemma FirstVarRule()
    ensures VarRules() != [] && VarRules()[0] == Rule("*.app.*", AppMethod, Some("App"))
  {
  }

  /** A printed member `<app>.app.<method>` whose two parts are non-empty runs of word
      characters becomes `App.<method>` and needs the `App` library. */
  lemma AppMemberRewrite(vars: seq<Rule<VarProduction>>, app: string, methodName: string, key: string)
    requires key == "*.app.*" && vars != [] && vars[0] == Rule(key, AppMethod, Some("App"))
    requires app != [] && AllWordChars(app) && methodName != [] && AllWordChars(methodName)
    ensures MemberAction(vars, app + ".app." + methodName) == Some(("App." + methodName, Some("App")))
  {
    var mid := ".app.";
    var s := app + mid + methodName;
    assert WithAlias(s) == s by { AppMemberNotAlias(app, methodName, mid); }
    var caps := [app, methodName];
    assert Fits(key, caps, s) by { AppKeyFits(app, methodName, key, mid); }
    MatchComplete(key, caps, s);
    var got := Match(key, s).value;
    MatchSound(key, s);
    AppKeyCaptures(app, methodName, key, mid, got);
    assert FindRule(vars, s) == Some(0);
  }

  lemma AppMemberNotAlias(app: string, methodName: string, mid: string)
    requires mid == ".app." && app != []
    ensures WithAlias(app + mid + methodName) == app + mid + methodName
  {
    var s := app + mid + methodName;
    WithAliasSpec(s);
    assert s[|app| + 2] == 'p';
    if s == "Ext.bind" || s == "Ext.encode" {
      assert false;
    }
  }

  lemma AppKeyFits(app: string, methodName: string, key: string, mid: string)
    requires key == "*.app.*" && mid == ".app."
    requires app != [] && AllWordChars(app) && methodName != [] && AllWordChars(methodName)
    ensures Fits(key, [app, methodName], app + mid + methodName)
  {
    var s := app + mid + methodName;
    assert s[..|app|] == app && s[|app|..] == mid + methodName;
    assert key[1..] == mid + "*";
    assert Fits("*", [methodName], methodName) by {
      assert methodName[..|methodName|] == methodName && methodName[|methodName|..] == [];
      assert Fits("", [], []);
    }
    NoStarInMid(mid);
    FitsLiteralPrefix(mid, "*", [methodName], methodName);
  }

  /** The text has no `*`: it is matched literally. */
  predicate NoStar(p: string)
    decreases |p|
  {
    p == [] || (p[0] != '*' && NoStar(p[1..]))
  }

  lemma NoStarInMid(mid: string)
    requires mid == ".app."
    ensures NoStar(mid)
  {
    assert mid[5..] == [] && mid[4..][1..] == mid[5..] && mid[3..][1..] == mid[4..];
    assert mid[2..][1..] == mid[3..] && mid[1..][1..] == mid[2..];
    assert NoStar(mid[5..]);
    assert NoStar(mid[4..]);
    assert NoStar(mid[3..]);
    assert NoStar(mid[2..]);
    assert NoStar(mid[1..]);
  }

  /** A key that starts with literal characters fits a text that starts with them. */
  lemma {:induction false} FitsLiteralPrefix(p: string, k: string, caps: seq<string>, s: string)
    requires NoStar(p)
    requires Fits(k, caps, s)
    ensures Fits(p + k, caps, p + s)
    decreases |p|
  {
    if p != [] {
      var pk := p + k;
      var ps := p + s;
      FitsLiteralPrefix(p[1..], k, caps, s);
      assert pk[1..] == p[1..] + k && ps[1..] == p[1..] + s;
      assert pk[0] == p[0] && ps[0] == p[0] && p[0] != '*';
      assert Text.SameLetter(pk[0], ps[0]);
    } else {
      assert p + k == k && p + s == s;
    }
  }

  /** Conversely, the captures of such a key after its literal start fit the rest. */
  lemma {:induction false} FitsAfterLiteralPrefix(p: string, k: string, caps: seq<string>, s: string)
    requires NoStar(p)
    requires Fits(p + k, caps, p + s)
    ensures Fits(k, caps, s)
    decreases |p|
  {
    if p != [] {
      var pk := p + k;
      var ps := p + s;
      assert pk[1..] == p[1..] + k && ps[1..] == p[1..] + s;
      assert pk[0] == p[0] && p[0] != '*';
      assert Fits(pk[1..], caps, ps[1..]);
      FitsAfterLiteralPrefix(p[1..], k, caps, s);
    } else {
      assert p + k == k && p + s == s;
    }
  }

  /** The captures of `*.app.*` are the two dot-free parts of the matched text. */
  lemma AppKeyCaptures(app: string, methodName: string, key: string, mid: string, got: seq<string>)
    requires key == "*.app.*" && mid == ".app."
    requires app != [] && AllWordChars(app)
    requires Fits(key, got, app + mid + methodName)
    ensures got == [app, methodName]
  {
    var s := app + mid + methodName;
    var c0 := got[0];
    assert AllWordChars(c0) && c0 != [] && s[..|c0|] == c0;
    var rest := s[|c0|..];
    assert Fits(key[1..], got[1..], rest);
    assert key[1..][0] == '.';
    assert rest != [] && Text.SameLetter('.', rest[0]);
    WordRunStopsAtDot(s, c0, |app|);
    if |c0| < |app| {
      assert rest[0] == app[|c0|];
      DotIsNoWordLetter(rest[0]);
    }
    assert c0 == app;
    assert rest == mid + methodName;
    AppKeyTail(key[1..], got[1..], rest, mid, methodName);
  }

  lemma AppKeyTail(k: string, caps: seq<string>, rest: string, mid: string, methodName: string)
    requires k == ".app.*" && mid == ".app."
    requires rest == mid + methodName
    requires Fits(k, caps, rest)
    ensures caps == [methodName]
  {
    assert k == mid + "*";
    NoStarInMid(mid);
    FitsAfterLiteralPrefix(mid, "*", caps, methodName);
    assert "*"[1..] == "";
    var c := caps[0];
    assert Text.StartsWith(methodName, c);
    assert Fits("", caps[1..], methodName[|c|..]);
    assert |c| == |methodName| && caps[1..] == [];
    assert c == methodName[..|c|] && methodName[..|methodName|] == methodName;
    assert caps == [c] + caps[1..];
  }

  /** A run of word characters at the start of `s` ends before a dot at `k`. */
  lemma WordRunStopsAtDot(s: string, run: string, k: nat)
    requires AllWordChars(run) && Text.StartsWith(s, run)
    requires k < |s| && s[k] == '.'
    ensures |run| <= k
  {
  }

  lemma DotIsNoWordLetter(c: char)
    requires Text.IsWordChar(c)
    ensures !Text.SameLetter('.', c)
  {
  }

  // ---------------------------------------------------------------------------
  // The pass over the calls and the pass over the member expressions

  /** What `getContext(path)` finds about a call: the name of the enclosing method, and
      the `name` of the enclosing class's superclass node, absent when the class has no
      superclass or its superclass expression is not a plain identifier. */
  datatype Context = Context(methodName: Option<string>, extendedClass: Option<string>)

  const DeleteCalls: seq<string> := ["this.initConfig"]

  /** A call is pruned when it is in `deleteCalls`, or when it is `this.callParent` in a
      constructor of a class that extends nothing. */
  predicate Pruned(name: string, ctx: Context) {
    name in DeleteCalls || (name == "this.callParent" && ctx.methodName == Some("constructor") && ctx.extendedClass.None?)
  }

  /** A call, as the visitor reaches it: the printed callee, the argument nodes and the
      context. */
  datatype CallSite = CallSite(callee: string, arguments: seq<Ast.Node>, context: Context)

  /** What happens to a call: it is kept, pruned, or replaced by code that may need a
      library. */
  datatype Action = Keep | Prune | Replace(code: string, library: Option<string>)

  /** One step of the call visitor under the call rules `calls` (`CallRules()` in the
      source); `None` when the production raises. A production that declines, or gives
      the empty string, leaves the call as it is. */
  function CallAction(printer: Ast.Node -> string, calls: seq<Rule<CallProduction>>, site: CallSite): Option<Action> {
    var name := WithAlias(site.callee);
    if Pruned(name, site.context) then Some(Prune)
    else match FindRule(calls, name)
      case None => Some(Keep)
      case Some(i) =>
        var rule := calls[i];
        var o := Produce(rule.transform, printer, site.arguments);
        if o.Raises? then None
        else if o.Declined? || o.code == "" then Some(Keep)
        else Some(Replace(o.code, rule.library))
  }

  /** Every call key starts with `E`. */
  lemma CallKeysStartWithE(t: seq<(string, Entry<CallProduction>)>)
    requires t == CallTable
    ensures forall i :: 0 <= i < |ParseTransforms(t)| ==> ParseTransforms(t)[i].key != [] && ParseTransforms(t)[i].key[0] == 'E'
  {
    assert forall i :: 0 <= i < |t| ==> t[i].0 != [] && t[i].0[0] == 'E';
  }

  /** The names the visitor prunes match no call rule, so pruning a call and then looking
      it up, as the visitor does, is the same as pruning it. */
  lemma PrunedCallsMatchNoRule(calls: seq<Rule<CallProduction>>, name: string, ctx: Context)
    requires forall i :: 0 <= i < |calls| ==> calls[i].key != [] && calls[i].key[0] == 'E'
    requires Pruned(name, ctx)
    ensures FindRule(calls, name).None?
  {
    assert name != [] && name[0] == 't';
    forall i | 0 <= i < |calls| ensures Match(calls[i].key, name).None? {
      FirstLetterMismatch(calls[i].key, name);
    }
  }

  lemma FirstLetterMismatch(key: string, s: string)
    requires key != [] && key[0] == 'E' && s != [] && s[0] == 't'
    ensures Match(key, s).None?
  {
  }

  /** A call whose production declines is kept, and records no library. */
  lemma DeclinedCallIsKept(printer: Ast.Node -> string, calls: seq<Rule<CallProduction>>, site: CallSite)
    requires !Pruned(WithAlias(site.callee), site.context)
    requires FindRule(calls, WithAlias(site.callee)).Some?
    requires Produce(calls[FindRule(calls, WithAlias(site.callee)).value].transform, printer, site.arguments).Declined?
    ensures CallAction(printer, calls, site) == Some(Keep)
  {
  }

  /** `if(lib && !libraries.includes(lib)) libraries.push(lib)`. */
  function AddLibrary(libs: seq<string>, lib: Option<string>): (r: seq<string>)
    ensures lib.None? ==> r == libs
    ensures lib.Some? ==> (if lib.value in libs then r == libs else r == libs + [lib.value])
  {
    if lib.Some? && lib.value !in libs then libs + [lib.value] else libs
  }

  function ActionLibrary(a: Action): Option<string> {
    if a.Replace? then a.library else None
  }

  /** The call visitor over the calls in the order it reaches them, with `act` the step
      at each (`CallAction` under the call rules): the action taken at each call and the
      libraries collected; `None` when a production raises. */
  function CallPass(act: CallSite -> Option<Action>, sites: seq<CallSite>, libs: seq<string>): Option<(seq<Action>, seq<string>)>
    decreases |sites|
  {
    if sites == [] then Some(([], libs))
    else
      match CallPass(act, sites[..|sites| - 1], libs)
      case None => None
      case Some(done) =>
        match act(sites[|sites| - 1])
        case None => None
        case Some(a) => Some((done.0 + [a], AddLibrary(done.1, ActionLibrary(a))))
  }

  /** The step of the call visitor under the call rules. */
  function CallActions(printer: Ast.Node -> string, calls: seq<Rule<CallProduction>>): CallSite -> Option<Action> {
    (site: CallSite) => CallAction(printer, calls, site)
  }

  /** Under call rules that name no library, no action records one. */
  lemma CallActionNeedsNoLibrary(printer: Ast.Node -> string, calls: seq<Rule<CallProduction>>, site: CallSite)
    requires forall i :: 0 <= i < |calls| ==> calls[i].library.None?
    requires CallAction(printer, calls, site).Some?
    ensures ActionLibrary(CallAction(printer, calls, site).value).None?
  {
  }

  /** The productions whose code calls lodash (`_.forEach`, `_.assignWith`, `_.isFinite`). */
  predicate UsesLodash(prod: CallProduction) {
    prod == ObjectEach || prod == ApplyIf || prod == IsNumeric
  }

  /** The entry a production has in the intended table: `{ fn, lib: '_' }` when its code
      calls lodash, the bare production otherwise. */
  function IntendedEntry(prod: CallProduction): Entry<CallProduction> {
    if UsesLodash(prod) then WithLib(prod, Some("_")) else Bare(prod)
  }

  /** A rule table with every entry replaced by its intended entry, keys kept. */
  function Intend(table: seq<(string, Entry<CallProduction>)>): (r: seq<(string, Entry<CallProduction>)>)
    ensures |r| == |table|
    ensures forall i :: 0 <= i < |r| ==> r[i] == (table[i].0, IntendedEntry(table[i].1.fn))
  {
    if table == [] then [] else [(table[0].0, IntendedEntry(table[0].1.fn))] + Intend(table[1..])
  }

  /** The call rule table as intended: the same keys and productions, with the
      productions that call lodash naming the `_` library, as the variable rules do. */
  const CallTableIntended: seq<(string, Entry<CallProduction>)> := Intend(CallTable)

  function CallRulesIntended(): seq<Rule<CallProduction>> {
    ParseTransforms(CallTableIntended)
  }

  /** As written, a rule whose code calls lodash needs no library: the `Ext.Object.each`
      rule turns a call into `_.forEach(...)` and records nothing, so `lodash` is not
      imported for it. */
  lemma LodashRuleNeedsNoLibraryAsWritten(t: seq<(string, Entry<CallProduction>)>)
    requires t == CallTable
    ensures var rules := ParseTransforms(t);
      |rules| > 6 && UsesLodash(rules[6].transform) && rules[6].library.None?
  {
  }

  /** One step of the call visitor: a pruned name is pruned; a name no rule matches is
      kept; otherwise the first matching rule's production decides, raising, declining
      (the call is kept) or giving code that replaces the call. The name is looked up with
      the intended alias lookup `WithAlias`, so a call named after a member of
      `Object.prototype` does not raise here as it does in the source. */
  lemma CallActionSpec(printer: Ast.Node -> string, calls: seq<Rule<CallProduction>>, site: CallSite)
    ensures var name := WithAlias(site.callee);
      CallAction(printer, calls, site) == Some(Prune) <==> Pruned(name, site.context)
    ensures var name := WithAlias(site.callee);
      CallAction(printer, calls, site).None? <==>
        !Pruned(name, site.context) && FindRule(calls, name).Some? &&
        Produce(calls[FindRule(calls, name).value].transform, printer, site.arguments).Raises?
    ensures var name := WithAlias(site.callee);
      (CallAction(printer, calls, site).Some? && CallAction(printer, calls, site).value.Replace?) <==>
        !Pruned(name, site.context) && FindRule(calls, name).Some? &&
        Produce(calls[FindRule(calls, name).value].transform, printer, site.arguments).Code? &&
        Produce(calls[FindRule(calls, name).value].transform, printer, site.arguments).code != ""
  {
  }

  /** A call whose first matching rule produces code replaces the call by that code and
      records the rule's library. */
  lemma RuleReplacesCall(printer: Ast.Node -> string, rules: seq<Rule<CallProduction>>, site: CallSite, i: nat)
    requires FindRule(rules, WithAlias(site.callee)) == Some(i)
    requires !Pruned(WithAlias(site.callee), site.context)
    requires Produce(rules[i].transform, printer, site.arguments).Code?
    requires Produce(rules[i].transform, printer, site.arguments).code != ""
    ensures CallAction(printer, rules, site) ==
      Some(Replace(Produce(rules[i].transform, printer, site.arguments).code, rules[i].library))
  {
  }

  /** `Ext.Object.each` over a function of two parameters gives code starting `_.forEach(`. */
  lemma ObjectEachCode(printer: Ast.Node -> string, args: seq<Ast.Node>)
    requires |args| == 2 && args[1].Func? && |args[1].params| >= 2
    ensures Produce(ObjectEach, printer, args).Code?
    ensures Text.StartsWith(Produce(ObjectEach, printer, args).code, "_.forEach(")
  {
    ObjectEachSpec(printer, args);
    var tail := Print(printer, Arg(args, 0)) + ", " + printer(SwapParams(Some(args[1])).value) + ")";
    Text.StartsWithConcat("_.forEach(", "", tail);
    assert "_.forEach(" + "" == "_.forEach(";
  }

  /** A call that the rule at `i` matches, where that rule produces `_.forEach`, is replaced
      by code starting `_.forEach(` that records exactly the rule's library. */
  lemma ObjectEachReplaced(printer: Ast.Node -> string, rules: seq<Rule<CallProduction>>, site: CallSite, i: nat)
    requires FindRule(rules, WithAlias(site.callee)) == Some(i)
    requires i < |rules| && rules[i].transform == ObjectEach
    requires !Pruned(WithAlias(site.callee), site.context)
    requires |site.arguments| == 2 && site.arguments[1].Func? && |site.arguments[1].params| >= 2
    ensures CallAction(printer, rules, site).Some?
    ensures var a := CallAction(printer, rules, site).value;
      a.Replace? && Text.StartsWith(a.code, "_.forEach(") && a.library == rules[i].library
  {
    ObjectEachCode(printer, site.arguments);
    RuleReplacesCall(printer, rules, site, i);
  }

  /** As written, a replaced `Ext.Object.each` call records no library although its code
      starts with `_.forEach(`, so `lodash` is not imported for it. */
  lemma ObjectEachLibraryAsWritten(printer: Ast.Node -> string, t: seq<(string, Entry<CallProduction>)>, site: CallSite)
    requires t == CallTable
    requires FindRule(ParseTransforms(t), WithAlias(site.callee)) == Some(6)
    requires !Pruned(WithAlias(site.callee), site.context)
    requires |site.arguments| == 2 && site.arguments[1].Func? && |site.arguments[1].params| >= 2
    ensures CallAction(printer, ParseTransforms(t), site).Some?
    ensures var a := CallAction(printer, ParseTransforms(t), site).value;
      a.Replace? && Text.StartsWith(a.code, "_.forEach(") && a.library.None?
  {
    LodashRuleNeedsNoLibraryAsWritten(t);
    var rules := ParseTransforms(t);
    assert rules[6].transform == ObjectEach;
    ObjectEachReplaced(printer, rules, site, 6);
  }

  /** With the intended table the same call records the `_` library. */
  lemma ObjectEachLibrary(printer: Ast.Node -> string, t: seq<(string, Entry<CallProduction>)>, site: CallSite)
    requires t == CallTableIntended
    requires FindRule(ParseTransforms(t), WithAlias(site.callee)) == Some(6)
    requires !Pruned(WithAlias(site.callee), site.context)
    requires |site.arguments| == 2 && site.arguments[1].Func? && |site.arguments[1].params| >= 2
    ensures CallAction(printer, ParseTransforms(t), site).Some?
    ensures var a := CallAction(printer, ParseTransforms(t), site).value;
      a.Replace? && Text.StartsWith(a.code, "_.forEach(") && a.library == Some("_")
  {
    IntendedRulesNameLodash(t);
    var rules := ParseTransforms(t);
    assert rules[6].transform == t[6].1.fn == ObjectEach;
    ObjectEachReplaced(printer, rules, site, 6);
  }

  /** With the intended table, a rule needs the `_` library exactly when its code calls
      lodash, and no other rule needs a library. */
  lemma IntendedRulesNameLodash(t: seq<(string, Entry<CallProduction>)>)
    requires t == CallTableIntended
    ensures forall i :: 0 <= i < |ParseTransforms(t)| ==>
      ParseTransforms(t)[i].library == (if UsesLodash(ParseTransforms(t)[i].transform) then Some("_") else None)
  {
    IntendNamesLodash(CallTable);
  }

  /** Any table made intended names `_` exactly for the lodash productions. */
  lemma IntendNamesLodash(u: seq<(string, Entry<CallProduction>)>)
    ensures forall i :: 0 <= i < |ParseTransforms(Intend(u))| ==>
      ParseTransforms(Intend(u))[i].library == (if UsesLodash(ParseTransforms(Intend(u))[i].transform) then Some("_") else None)
  {
    assert "_" != "";
  }

  /** With the intended table, every call a lodash production replaces records `_`, and
      every other replacement records nothing. */
  lemma ReplacedCallLibraryIntended(printer: Ast.Node -> string, t: seq<(string, Entry<CallProduction>)>, site: CallSite)
    requires t == CallTableIntended
    requires CallAction(printer, ParseTransforms(t), site).Some?
    requires CallAction(printer, ParseTransforms(t), site).value.Replace?
    ensures var rules := ParseTransforms(t);
      var i := FindRule(rules, WithAlias(site.callee)).value;
      ActionLibrary(CallAction(printer, rules, site).value) ==
        (if UsesLodash(rules[i].transform) then Some("_") else None)
  {
    IntendedRulesNameLodash(t);
    ReplacedCallLibrary(printer, ParseTransforms(t), site);
  }

  /** A replaced call records the library of the rule that replaced it. */
  lemma ReplacedCallLibrary(printer: Ast.Node -> string, rules: seq<Rule<CallProduction>>, site: CallSite)
    requires CallAction(printer, rules, site).Some? && CallAction(printer, rules, site).value.Replace?
    ensures FindRule(rules, WithAlias(site.callee)).Some?
    ensures ActionLibrary(CallAction(printer, rules, site).value) == rules[FindRule(rules, WithAlias(site.callee)).value].library
  {
  }

  /** What a member expression becomes under a rule outcome: its replacement, if any,
      and the library that outcome needs. */
  function ReplacementOf(m: Option<(string, Option<string>)>): Option<string> {
    if m.Some? then Some(m.value.0) else None
  }

  function NeededLibrary(m: Option<(string, Option<string>)>): Option<string> {
    if m.Some? then m.value.1 else None
  }

  function MemberReplacement(vars: seq<Rule<VarProduction>>, expr: string): Option<string> {
    ReplacementOf(MemberAction(vars, expr))
  }

  function MemberLibrary(vars: seq<Rule<VarProduction>>, expr: string): Option<string> {
    NeededLibrary(MemberAction(vars, expr))
  }

  /** The member visitor over the printed member expressions in the order it reaches
      them, with `act` the outcome at each (`MemberAction` under the variable rules):
      the replacement of each (or `None`) and the libraries collected. */
  function MemberPass(act: string -> Option<(string, Option<string>)>, exprs: seq<string>, libs: seq<string>): (seq<Option<string>>, seq<string>)
    decreases |exprs|
  {
    if exprs == [] then ([], libs)
    else
      var done := MemberPass(act, exprs[..|exprs| - 1], libs);
      var last := act(exprs[|exprs| - 1]);
      (done.0 + [ReplacementOf(last)], AddLibrary(done.1, NeededLibrary(last)))
  }

  /** The outcome of the variable rules at each member expression. */
  function MemberActions(vars: seq<Rule<VarProduction>>): string -> Option<(string, Option<string>)> {
    (e: string) => MemberAction(vars, e)
  }

  /** The result of the rewriting: what happened to each call, the replacement of each
      member expression, and the libraries the code needs (`afterTranspile`'s result). */
  datatype Rewriting = Rewriting(calls: seq<Action>, members: seq<Option<string>>, libraries: seq<string>)

  function RewritingOf(printer: Ast.Node -> string, calls: seq<Rule<CallProduction>>, vars: seq<Rule<VarProduction>>,
                       sites: seq<CallSite>, exprs: seq<string>): Option<Rewriting> {
    match CallPass(CallActions(printer, calls), sites, [])
    case None => None
    case Some(c) =>
      var m := MemberPass(MemberActions(vars), exprs, c.1);
      Some(Rewriting(c.0, m.0, m.1))
  }

  /** The call visitor: visits the calls in order, taking the step `act` at each and
      collecting the libraries; stops at the first production that raises. */
  method VisitCalls(act: CallSite -> Option<Action>, sites: seq<CallSite>) returns (r: Option<(seq<Action>, seq<string>)>)
    ensures r == CallPass(act, sites, [])
  {
    var actions: seq<Action> := [];
    var libraries: seq<string> := [];
    var i := 0;
    while i < |sites|
      invariant 0 <= i <= |sites|
      invariant CallPass(act, sites[..i], []) == Some((actions, libraries))
    {
      var a := act(sites[i]);
      assert sites[..i + 1][..i] == sites[..i];
      if a.None? {
        CallPassStopsAtRaise(act, sites, i + 1);
        return None;
      }
      actions := actions + [a.value];
      libraries := AddLibrary(libraries, ActionLibrary(a.value));
      i := i + 1;
    }
    assert sites[..|sites|] == sites;
    r := Some((actions, libraries));
  }

  /** The member visitor: visits the member expressions in order, replacing each as
      `act` says and adding the libraries it needs to `start`. */
  method VisitMembers(act: string -> Option<(string, Option<string>)>, exprs: seq<string>, start: seq<string>)
    returns (replaced: seq<Option<string>>, libraries: seq<string>)
    ensures (replaced, libraries) == MemberPass(act, exprs, start)
  {
    replaced := [];
    libraries := start;
    var j := 0;
    while j < |exprs|
      invariant 0 <= j <= |exprs|
      invariant MemberPass(act, exprs[..j], start) == (replaced, libraries)
    {
      assert exprs[..j + 1][..j] == exprs[..j];
      var m := act(exprs[j]);
      replaced := replaced + [ReplacementOf(m)];
      libraries := AddLibrary(libraries, NeededLibrary(m));
      j := j + 1;
    }
    assert exprs[..|exprs|] == exprs;
  }

  /** `afterTranspile`: the call visitor, then the member visitor, collecting libraries
      as they go, under the tables `calls` and `vars`. */
  method AfterTranspile(printer: Ast.Node -> string, calls: seq<Rule<CallProduction>>, vars: seq<Rule<VarProduction>>,
                        sites: seq<CallSite>, exprs: seq<string>) returns (r: Option<Rewriting>)
    ensures r == RewritingOf(printer, calls, vars, sites, exprs)
  {
    var c := VisitCalls(CallActions(printer, calls), sites);
    if c.None? {
      return None;
    }
    var replaced, libraries := VisitMembers(MemberActions(vars), exprs, c.value.1);
    r := Some(Rewriting(c.value.0, replaced, libraries));
  }

  /** Once a production raises, the whole pass raises. */
  lemma {:induction false} CallPassStopsAtRaise(act: CallSite -> Option<Action>, sites: seq<CallSite>, k: nat)
    requires k <= |sites|
    requires CallPass(act, sites[..k], []).None?
    ensures CallPass(act, sites, []).None?
    decreases |sites| - k
  {
    if k < |sites| {
      assert sites[..k + 1][..k] == sites[..k];
      CallPassStopsAtRaise(act, sites, k + 1);
    } else {
      assert sites[..k] == sites;
    }
  }

  /** Collecting keeps what was there, keeps the list free of duplicates, and adds
      exactly the library named. */
  lemma AddLibrarySpec(libs: seq<string>, lib: Option<string>)
    ensures Seqs.NoDuplicates(libs) ==> Seqs.NoDuplicates(AddLibrary(libs, lib))
    ensures forall x :: x in AddLibrary(libs, lib) <==> x in libs || lib == Some(x)
    ensures libs <= AddLibrary(libs, lib)
  {
  }

  /** The call visitor acts on each call as its step says, and records no library
      when no step names one. */
  lemma {:induction false} CallPassSpec(act: CallSite -> Option<Action>, sites: seq<CallSite>, libs: seq<string>)
    requires forall i :: 0 <= i < |sites| && act(sites[i]).Some? ==> ActionLibrary(act(sites[i]).value).None?
    requires CallPass(act, sites, libs).Some?
    ensures CallPass(act, sites, libs).value.1 == libs
    ensures |CallPass(act, sites, libs).value.0| == |sites|
    ensures forall i :: 0 <= i < |sites| ==> Some(CallPass(act, sites, libs).value.0[i]) == act(sites[i])
    decreases |sites|
  {
    if sites != [] {
      var init := sites[..|sites| - 1];
      assert forall i :: 0 <= i < |init| ==> init[i] == sites[i];
      CallPassSpec(act, init, libs);
      var a := act(sites[|sites| - 1]).value;
      assert ActionLibrary(a).None?;
    }
  }

  /** The member visitor replaces each expression as its outcome says. */
  lemma {:induction false} MemberPassReplaces(act: string -> Option<(string, Option<string>)>, exprs: seq<string>, libs: seq<string>)
    ensures |MemberPass(act, exprs, libs).0| == |exprs|
    ensures forall i :: 0 <= i < |exprs| ==> MemberPass(act, exprs, libs).0[i] == ReplacementOf(act(exprs[i]))
    decreases |exprs|
  {
    if exprs != [] {
      var init := exprs[..|exprs| - 1];
      MemberPassReplaces(act, init, libs);
      var before := MemberPass(act, init, libs).0;
      assert MemberPass(act, exprs, libs).0 == before + [ReplacementOf(act(exprs[|exprs| - 1]))];
      forall i | 0 <= i < |exprs| ensures MemberPass(act, exprs, libs).0[i] == ReplacementOf(act(exprs[i])) {
        if i < |init| { assert init[i] == exprs[i]; }
      }
    }
  }

  /** The member visitor collects exactly the libraries of the outcomes that need one,
      each once, after those it started with. */
  lemma {:induction false} MemberPassLibraries(act: string -> Option<(string, Option<string>)>, exprs: seq<string>, libs: seq<string>)
    ensures Seqs.NoDuplicates(libs) ==> Seqs.NoDuplicates(MemberPass(act, exprs, libs).1)
    ensures libs <= MemberPass(act, exprs, libs).1
    ensures forall x :: x in MemberPass(act, exprs, libs).1 <==>
      x in libs || exists i :: 0 <= i < |exprs| && NeededLibrary(act(exprs[i])) == Some(x)
    decreases |exprs|
  {
    if exprs != [] {
      var init := exprs[..|exprs| - 1];
      var last := exprs[|exprs| - 1];
      MemberPassLibraries(act, init, libs);
      var done := MemberPass(act, init, libs).1;
      assert MemberPass(act, exprs, libs).1 == AddLibrary(done, NeededLibrary(act(last)));
      AddLibrarySpec(done, NeededLibrary(act(last)));
      forall x ensures x in MemberPass(act, exprs, libs).1 <==>
        x in libs || exists i :: 0 <= i < |exprs| && NeededLibrary(act(exprs[i])) == Some(x)
      {
        if exists i :: 0 <= i < |exprs| && NeededLibrary(act(exprs[i])) == Some(x) {
          var i :| 0 <= i < |exprs| && NeededLibrary(act(exprs[i])) == Some(x);
          if i < |init| { assert NeededLibrary(act(init[i])) == Some(x); }
        }
        if exists i :: 0 <= i < |init| && NeededLibrary(act(init[i])) == Some(x) {
          var i :| 0 <= i < |init| && NeededLibrary(act(init[i])) == Some(x);
          assert NeededLibrary(act(exprs[i])) == Some(x);
        }
      }
    }
  }

  /** `afterTranspile` returns the libraries of the variable rules that fired, each once;
      when no call rule names a library, as with `CallRules()`, the calls add none. */
  lemma RewritingLibraries(printer: Ast.Node -> string, calls: seq<Rule<CallProduction>>, vars: seq<Rule<VarProduction>>,
                           sites: seq<CallSite>, exprs: seq<string>)
    requires forall i :: 0 <= i < |calls| ==> calls[i].library.None?
    requires RewritingOf(printer, calls, vars, sites, exprs).Some?
    ensures var r := RewritingOf(printer, calls, vars, sites, exprs).value;
      |r.calls| == |sites| && |r.members| == |exprs| &&
      Seqs.NoDuplicates(r.libraries) &&
      forall x :: x in r.libraries <==> exists i :: 0 <= i < |exprs| && MemberLibrary(vars, exprs[i]) == Some(x)
  {
    var act := CallActions(printer, calls);
    forall i | 0 <= i < |sites| && act(sites[i]).Some? ensures ActionLibrary(act(sites[i]).value).None? {
      CallActionNeedsNoLibrary(printer, calls, sites[i]);
    }
    CallPassSpec(act, sites, []);
    var c := CallPass(act, sites, []).value;
    MemberPassReplaces(MemberActions(vars), exprs, c.1);
    MemberPassLibraries(MemberActions(vars), exprs, c.1);
  }
}
