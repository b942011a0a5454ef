/** The abstract syntax tree the compiler works on, and the property filters and
    tree walks of src/Ast.js. Printing a node (recast's `print`) is not modelled:
    operations that print take the printer as a function parameter. */
module Ast {

  import opened Wrappers
  import Seqs

  /** Expression nodes. `Other` stands for every node kind the rules never look
      into by shape; it keeps its sub-expressions so that tree walks still see them. */
  datatype Node =
    | Str(value: string)
    | Null
    | Bool(flag: bool)
    | Num(text: string)
    | Ident(name: string)
    | This
    | Arr(elements: seq<Node>)
    | Obj(properties: seq<Property>)
    | Ternary(test: Node, consequent: Node, alternate: Node)
    | Member(object: Node, property: Node)
    | Call(callee: Node, arguments: seq<Node>)
    | Func(arrow: bool, isAsync: bool, params: seq<Node>, body: Body)
    | Other(children: seq<Node>)

  datatype Property = Property(key: Node, value: Node)

  /** A function body: a block of statements, or (for an arrow) a bare expression. */
  datatype Body = Block(statements: seq<Stmt>) | Expression(expr: Node)

  /** Statements. `Compound` is any statement with nested statements other than a plain
      block (if, for, while, try, ...); `Nested` is a `{ ... }` block inside a block. */
  datatype Stmt =
    | Return(argument: Option<Node>)
    | VarDecl(kind: string, inits: seq<Node>)
    | ExprStmt(expr: Node)
    | Nested(statements: seq<Stmt>)
    | Compound(exprs: seq<Node>, inner: seq<Stmt>)

  predicate IsFunction(n: Node) { n.Func? }

  /** `node.key.name || node.key.value`: an identifier key gives its name, a string
      key its value; anything else (or an empty identifier) gives `undefined`. */
  function PropertyName(p: Property): (r: Option<string>)
    ensures p.key.Str? ==> r == Some(p.key.value)
    ensures p.key.Ident? && p.key.name != "" ==> r == Some(p.key.name)
    ensures !p.key.Str? && !p.key.Ident? ==> r == None
  {
    match p.key
    case Ident(n) => if n != "" then Some(n) else None
    case Str(v) => Some(v)
    case _ => None
  }

  /** The filter of `getProperties(object, only, exclude)`: an absent list does not
      constrain; an unnamed property is never in `only` and never in `exclude`. */
  predicate Keeps(p: Property, only: Option<seq<string>>, exclude: Option<seq<string>>) {
    var name := PropertyName(p);
    (only.None? || (name.Some? && name.value in only.value)) &&
    (exclude.None? || name.None? || name.value !in exclude.value)
  }

  function GetProperties(o: Node, only: Option<seq<string>>, exclude: Option<seq<string>>): (r: seq<Property>)
    requires o.Obj?
    ensures forall p :: p in r <==> p in o.properties && Keeps(p, only, exclude)
  {
    Seqs.Filter(o.properties, p => Keeps(p, only, exclude))
  }

  /** `getProperties` keeps the order of the object's properties. */
  lemma GetPropertiesOrder(o: Node, only: Option<seq<string>>, exclude: Option<seq<string>>, i: nat, j: nat)
    requires o.Obj?
    requires i < j < |GetProperties(o, only, exclude)|
    ensures exists a, b :: (0 <= a < b < |o.properties| &&
      o.properties[a] == GetProperties(o, only, exclude)[i] &&
      o.properties[b] == GetProperties(o, only, exclude)[j])
  {
    Seqs.FilterOrder(o.properties, p => Keeps(p, only, exclude), i, j);
  }

  /** `getPropertiesExcept(object, ...exclude)`: every property whose name is not
      excluded survives, unnamed ones included, and no excluded name does. */
  function GetPropertiesExcept(o: Node, exclude: seq<string>): (r: seq<Property>)
    requires o.Obj?
    ensures forall p :: p in r <==>
      p in o.properties && (PropertyName(p).None? || PropertyName(p).value !in exclude)
  {
    GetProperties(o, None, Some(exclude))
  }

  /** `getPropertyNode(object, name)`: the first property with that name. */
  function GetPropertyNode(o: Node, name: string): (r: Option<Property>)
    requires o.Obj?
  {
    var ps := GetProperties(o, Some([name]), None);
    if ps == [] then None else Some(ps[0])
  }

  /** Index of the first property named `name`, searching from `k`. */
  function FirstNamed(ps: seq<Property>, name: string, k: nat): (r: Option<nat>)
    requires k <= |ps|
    ensures r.Some? ==> k <= r.value < |ps| && PropertyName(ps[r.value]) == Some(name)
    ensures r.Some? ==> forall j :: k <= j < r.value ==> PropertyName(ps[j]) != Some(name)
    ensures r.None? ==> forall j :: k <= j < |ps| ==> PropertyName(ps[j]) != Some(name)
    decreases |ps| - k
  {
    if k == |ps| then None
    else if PropertyName(ps[k]) == Some(name) then Some(k)
    else FirstNamed(ps, name, k + 1)
  }

  /** The filter by one name starts with the first property of that name. */
  lemma {:induction false} NamedFilterHead(ps: seq<Property>, name: string, k: nat)
    requires k <= |ps|
    ensures var f := Seqs.Filter(ps[k..], p => Keeps(p, Some([name]), None));
      match FirstNamed(ps, name, k)
      case None => f == []
      case Some(i) => f != [] && f[0] == ps[i]
    decreases |ps| - k
  {
    var keep := (p: Property) => Keeps(p, Some([name]), None);
    if k < |ps| {
      assert ps[k..][0] == ps[k];
      assert ps[k..][1..] == ps[k + 1..];
      NamedFilterHead(ps, name, k + 1);
    }
  }

  /** `getProperty(object, name)`: the value of the first property with that name,
      or `undefined` (None) when no property has it. */
  function GetProperty(o: Node, name: string): (r: Option<Node>)
    requires o.Obj?
  {
    match GetPropertyNode(o, name)
    case Some(p) => Some(p.value)
    case None => None
  }

  /** `getProperty` is the value of the property `FirstNamed` finds. */
  lemma GetPropertyAtFirst(o: Node, name: string)
    requires o.Obj?
    ensures GetProperty(o, name) ==
      match FirstNamed(o.properties, name, 0)
      case Some(i) => Some(o.properties[i].value)
      case None => None
  {
    NamedFilterHead(o.properties, name, 0);
    assert o.properties[0..] == o.properties;
  }

  lemma GetPropertyIsFirst(o: Node, name: string)
    requires o.Obj?
    ensures match GetProperty(o, name)
      case None => forall p :: p in o.properties ==> PropertyName(p) != Some(name)
      case Some(v) => exists i :: (0 <= i < |o.properties| && o.properties[i].value == v &&
        PropertyName(o.properties[i]) == Some(name) &&
        forall j :: 0 <= j < i ==> PropertyName(o.properties[j]) != Some(name))
  {
    NamedFilterHead(o.properties, name, 0);
    assert o.properties[0..] == o.properties;
    if GetProperty(o, name).None? {
      forall p | p in o.properties ensures PropertyName(p) != Some(name) {
        var j :| 0 <= j < |o.properties| && o.properties[j] == p;
      }
    }
  }

  /** What `toValue` returns: `undefined`, an element list, a property list, or the
      literal's own value (which is `undefined` for non-literals). */
  datatype Value =
    | Undefined
    | Elements(elements: seq<Node>)
    | Properties(properties: seq<Property>)
    | StrValue(s: string)
    | BoolValue(b: bool)
    | NullValue
    | NumValue(text: string)

  function ToValue(n: Option<Node>): (r: Value)
    ensures n.None? ==> r.Undefined?
    ensures n.Some? && n.value.Arr? ==> r == Elements(n.value.elements)
    ensures n.Some? && n.value.Obj? ==> r == Properties(n.value.properties)
    ensures n.Some? && n.value.Str? ==> r == StrValue(n.value.value)
    ensures n.Some? && n.value.Bool? ==> r == BoolValue(n.value.flag)
    ensures n.Some? && n.value.Null? ==> r == NullValue
    ensures n.Some? && n.value.Num? ==> r == NumValue(n.value.text)
    ensures n.Some? && (n.value.Ident? || n.value.This? || n.value.Ternary? || n.value.Member?) ==> r == Undefined
    ensures n.Some? && (n.value.Call? || n.value.Func? || n.value.Other?) ==> r == Undefined
  {
    match n
    case None => Undefined
    case Some(node) =>
      match node
      case Arr(es) => Elements(es)
      case Obj(ps) => Properties(ps)
      case Str(s) => StrValue(s)
      case Bool(b) => BoolValue(b)
      case Null => NullValue
      case Num(t) => NumValue(t)
      case _ => Undefined
  }

  /** `getConfig(object, name)`. */
  function GetConfig(o: Node, name: string): Value
    requires o.Obj?
  {
    ToValue(GetProperty(o, name))
  }

  /** A function node as the mutable object the parser builds: its parameter list is an
      array the object refers to. */
  class FunctionObject {
    var arrow: bool
    var isAsync: bool
    var params: array<Node>
    var body: Body

    constructor(arrow: bool, isAsync: bool, params: array<Node>, body: Body)
      ensures this.arrow == arrow && this.isAsync == isAsync && this.params == params && this.body == body
    {
      this.arrow := arrow;
      this.isAsync := isAsync;
      this.params := params;
      this.body := body;
    }

    /** The node the object stands for. */
    function Value(): Node
      reads this, params
    {
      Func(arrow, isAsync, params[..], body)
    }

    /** `copy(node)`: a new object with the same field values. The copy is shallow: the
        parameter array is shared with the original, not duplicated. */
    method Copy() returns (c: FunctionObject)
      ensures fresh(c)
      ensures c.arrow == arrow && c.isAsync == isAsync && c.params == params && c.body == body
      ensures c.Value() == Value()
    {
      c := new FunctionObject(arrow, isAsync, params, body);
    }
  }

  /** Index of the nearest element of `path` at or after `k` that passes `test`. */
  function FirstFrom<T>(path: seq<T>, test: T -> bool, k: nat): Option<nat>
    decreases |path| - k
  {
    if k >= |path| then None
    else if test(path[k]) then Some(k)
    else FirstFrom(path, test, k + 1)
  }

  /** `FirstFrom` finds the nearest passing element, and finds one whenever there is one. */
  lemma {:induction false} FirstFromSpec<T>(path: seq<T>, test: T -> bool, k: nat)
    ensures match FirstFrom(path, test, k)
      case Some(i) => k <= i < |path| && test(path[i]) && forall j :: k <= j < i ==> !test(path[j])
      case None => forall j :: k <= j < |path| ==> !test(path[j])
    decreases |path| - k
  {
    if k < |path| && !test(path[k]) {
      FirstFromSpec(path, test, k + 1);
    }
  }

  /** `up(path, test)`. The path is the node followed by its ancestors, nearest first;
      the walk starts at the parent, so the node itself is never returned. */
  method Up<T>(path: seq<T>, test: T -> bool) returns (r: Option<nat>)
    ensures r == FirstFrom(path, test, 1)
    ensures r.Some? ==> 1 <= r.value < |path| && test(path[r.value])
    ensures r.Some? ==> forall j :: 1 <= j < r.value ==> !test(path[j])
    ensures r.None? ==> forall j :: 1 <= j < |path| ==> !test(path[j])
  {
    FirstFromSpec(path, test, 1);
    var parent := 1;
    while parent < |path|
      invariant 1 <= parent
      invariant FirstFrom(path, test, parent) == FirstFrom(path, test, 1)
    {
      if test(path[parent]) {
        return Some(parent);
      }
      parent := parent + 1;
    }
    return None;
  }
}
