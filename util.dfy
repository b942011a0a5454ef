/** The relative import path between two files of the generated project
    (`getRelativePath` in src/Util.js). Paths are `/`-separated strings. */
module Util {

  import opened Wrappers
  import Text

  /** `fromParts.findIndex((p, i) => p !== toParts[i])`, searching from index `i`:
      the first index where the parts differ, an entry missing from `toParts`
      counting as a difference, or -1 when there is none. */
  function FindDiff(fromParts: seq<string>, toParts: seq<string>, i: nat): (r: int)
    requires i <= |fromParts| && i <= |toParts|
    ensures r == -1 || (i <= r < |fromParts| && r <= |toParts|)
    ensures r == -1 ==> |fromParts| <= |toParts| && fromParts[i..] == toParts[i..|fromParts|]
    ensures r >= 0 ==> fromParts[i..r] == toParts[i..r] && (r == |toParts| || fromParts[r] != toParts[r])
    decreases |fromParts| - i
  {
    if i == |fromParts| then -1
    else if i >= |toParts| || fromParts[i] != toParts[i] then i
    else FindDiff(fromParts, toParts, i + 1)
  }

  /** `Array(n).fill('..')`. */
  function Dots(n: nat): (r: seq<string>)
    ensures |r| == n
    ensures forall k :: 0 <= k < n ==> r[k] == ".."
  {
    if n == 0 then [] else Dots(n - 1) + [".."]
  }

  /** The `unshift('.')` step: a part list that does not start with `..` gets a leading `.`. */
  function Lead(parts: seq<string>): (r: seq<string>)
    ensures r != [] && (r[0] == "." || r[0] == "..")
  {
    if parts == [] || parts[0] != ".." then ["."] + parts else parts
  }

  /** The index up to which both paths agree: the first difference, or
      `toParts.length - 1` when there is none. */
  function Common(fromParts: seq<string>, toParts: seq<string>): int {
    var d := FindDiff(fromParts, toParts, 0);
    if d == -1 then |toParts| - 1 else d
  }

  /** The segments of the relative path. None when the number of `..` segments
      would be negative, where the JavaScript `Array` constructor throws. */
  function RelativeParts(fromParts: seq<string>, toParts: seq<string>): Option<seq<string>>
    requires |toParts| >= 1
  {
    var common := Common(fromParts, toParts);
    if |fromParts| - common - 1 < 0 then None
    else Some(Lead(Dots(|fromParts| - common - 1) + toParts[common..]))
  }

  function RelativePath(fromFile: string, toFile: string): Option<string> {
    match RelativeParts(Text.Split(fromFile, '/'), Text.Split(toFile, '/'))
    case None => None
    case Some(parts) => Some(Text.Join(parts, "/"))
  }

  /** `getRelativePath(fromFile, toFile)`. */
  method GetRelativePath(fromFile: string, toFile: string) returns (r: Option<string>)
    ensures r == RelativePath(fromFile, toFile)
  {
    var fromParts := Text.Split(fromFile, '/');
    var toParts := Text.Split(toFile, '/');
    var commonParts := FindDiff(fromParts, toParts, 0);
    if commonParts == -1 {
      commonParts := |toParts| - 1;
    }
    if |fromParts| - commonParts - 1 < 0 {
      return None;
    }
    var parts := Dots(|fromParts| - commonParts - 1) + toParts[commonParts..];
    if parts == [] || parts[0] != ".." {
      parts := ["."] + parts;
    }
    return Some(Text.Join(parts, "/"));
  }

  /** The error case arises exactly when the source file's path is a proper prefix of
      the target's, segment by segment. */
  lemma RelativePathErrorIff(fromParts: seq<string>, toParts: seq<string>)
    requires |toParts| >= 1
    ensures RelativeParts(fromParts, toParts).None? <==>
      |fromParts| < |toParts| && fromParts == toParts[..|fromParts|]
  {
  }

  /** The two paths agree on every segment before the common index, and the
      common index lies within both. */
  lemma CommonPrefix(fromParts: seq<string>, toParts: seq<string>)
    requires |toParts| >= 1
    requires RelativeParts(fromParts, toParts).Some?
    ensures var c := Common(fromParts, toParts);
      0 <= c < |fromParts| && c <= |toParts| && fromParts[..c] == toParts[..c]
  {
  }

  /** The result is `..` repeated `fromParts.length - commonParts - 1` times followed by
      `toParts` from the common index, with `.` in front when it does not start with `..`. */
  lemma RelativePartsShape(fromParts: seq<string>, toParts: seq<string>)
    requires |toParts| >= 1
    requires RelativeParts(fromParts, toParts).Some?
    ensures var c := Common(fromParts, toParts);
      var parts := RelativeParts(fromParts, toParts).value;
      var up := |fromParts| - c - 1;
      var pre := if parts[0] == "." && (up > 0 || c == |toParts| || toParts[c] != "..") then 1 else 0;
      parts[0] in {".", ".."} &&
      parts[pre..] == Dots(up) + toParts[c..] &&
      forall k :: pre <= k < pre + up ==> parts[k] == ".."
  {
  }

  /** A path whose every segment is a name, not `.` or `..`. */
  predicate Plain(parts: seq<string>) {
    forall k :: 0 <= k < |parts| ==> parts[k] != "." && parts[k] != ".."
  }

  /** Following relative segments from a directory: `.` stays, `..` goes up, a name goes down. */
  function Resolve(dir: seq<string>, rel: seq<string>): seq<string>
    decreases |rel|
  {
    if rel == [] then dir
    else if rel[0] == "." then Resolve(dir, rel[1..])
    else if rel[0] == ".." then Resolve(if dir == [] then [] else dir[..|dir| - 1], rel[1..])
    else Resolve(dir + [rel[0]], rel[1..])
  }

  lemma {:induction false} ResolvePlain(dir: seq<string>, rel: seq<string>)
    requires Plain(rel)
    ensures Resolve(dir, rel) == dir + rel
    decreases |rel|
  {
    if rel != [] {
      ResolvePlain(dir + [rel[0]], rel[1..]);
      assert dir + [rel[0]] + rel[1..] == dir + rel;
    }
  }

  lemma {:induction false} ResolveDots(dir: seq<string>, n: nat, rest: seq<string>)
    requires n <= |dir|
    ensures Resolve(dir, Dots(n) + rest) == Resolve(dir[..|dir| - n], rest)
    decreases n
  {
    if n > 0 {
      var rel := Dots(n) + rest;
      var parent := dir[..|dir| - 1];
      DotsCons(n);
      assert rel == [".."] + (Dots(n - 1) + rest);
      assert rel[1..] == Dots(n - 1) + rest;
      assert Resolve(dir, rel) == Resolve(parent, rel[1..]);
      ResolveDots(parent, n - 1, rest);
      assert parent[..|parent| - (n - 1)] == dir[..|dir| - n];
    } else {
      assert Dots(n) + rest == rest;
      assert dir[..|dir| - n] == dir;
    }
  }

  lemma {:induction false} DotsCons(n: nat)
    requires n > 0
    ensures Dots(n) == [".."] + Dots(n - 1)
  {
    var a := Dots(n);
    var b := [".."] + Dots(n - 1);
    assert |a| == |b|;
    forall k | 0 <= k < |a| ensures a[k] == b[k] {
    }
  }

  /** Round trip: following the relative path from the directory of the source file
      reaches the target file, whenever the target's segments are plain names. */
  lemma RelativePartsResolve(fromParts: seq<string>, toParts: seq<string>)
    requires |fromParts| >= 1 && |toParts| >= 1
    requires Plain(toParts)
    requires RelativeParts(fromParts, toParts).Some?
    ensures Resolve(fromParts[..|fromParts| - 1], RelativeParts(fromParts, toParts).value) == toParts
  {
    var c := Common(fromParts, toParts);
    CommonPrefix(fromParts, toParts);
    var up := |fromParts| - c - 1;
    var body := Dots(up) + toParts[c..];
    var dir := fromParts[..|fromParts| - 1];
    assert Resolve(dir, Lead(body)) == Resolve(dir, body) by {
      if body == [] || body[0] != ".." {
        assert (["."] + body)[1..] == body;
      }
    }
    ResolveDots(dir, up, toParts[c..]);
    assert dir[..|dir| - up] == toParts[..c];
    assert Plain(toParts[c..]) by {
      forall k | 0 <= k < |toParts[c..]| ensures toParts[c..][k] != "." && toParts[c..][k] != ".." {
        assert toParts[c..][k] == toParts[c + k];
      }
    }
    ResolvePlain(toParts[..c], toParts[c..]);
    assert toParts[..c] + toParts[c..] == toParts;
  }

  /** The relative path adds no separator to the target's segments. */
  lemma RelativePartsNoSeparator(fromParts: seq<string>, toParts: seq<string>)
    requires |toParts| >= 1
    requires forall k :: 0 <= k < |toParts| ==> '/' !in toParts[k]
    requires RelativeParts(fromParts, toParts).Some?
    ensures var parts := RelativeParts(fromParts, toParts).value;
      forall k :: 0 <= k < |parts| ==> '/' !in parts[k]
  {
    var c := Common(fromParts, toParts);
    var up := |fromParts| - c - 1;
    var body := Dots(up) + toParts[c..];
    forall k | 0 <= k < |body| ensures '/' !in body[k] {
      if k >= up {
        assert body[k] == toParts[c + k - up];
      }
    }
    var parts := Lead(body);
    forall k | 0 <= k < |parts| ensures '/' !in parts[k] {
      if parts != body && k > 0 {
        assert parts[k] == body[k - 1];
      }
    }
  }

  /** The same round trip on the path strings themselves. */
  lemma RelativePathResolve(fromFile: string, toFile: string)
    requires Plain(Text.Split(toFile, '/'))
    requires RelativePath(fromFile, toFile).Some?
    ensures var fromParts := Text.Split(fromFile, '/');
      Resolve(fromParts[..|fromParts| - 1], Text.Split(RelativePath(fromFile, toFile).value, '/')) ==
      Text.Split(toFile, '/')
  {
    var fromParts := Text.Split(fromFile, '/');
    var toParts := Text.Split(toFile, '/');
    RelativePartsNoSeparator(fromParts, toParts);
    Text.SplitJoin(RelativeParts(fromParts, toParts).value, '/');
    RelativePartsResolve(fromParts, toParts);
  }

  /** A file relative to itself is `./` followed by its own name. */
  lemma SamePath(parts: seq<string>)
    requires |parts| >= 1 && parts[|parts| - 1] != ".."
    ensures RelativeParts(parts, parts) == Some([".", parts[|parts| - 1]])
  {
    var name := parts[|parts| - 1];
    assert FindDiff(parts, parts, 0) == -1;
    assert Common(parts, parts) == |parts| - 1;
    assert parts[|parts| - 1..] == [name];
    assert Dots(0) + [name] == [name];
    assert Lead([name]) == [".", name];
  }

  /** Two files in the same directory: `./` followed by the target's name. */
  lemma SameDirectory(dir: seq<string>, a: string, b: string)
    requires b != ".."
    ensures RelativeParts(dir + [a], dir + [b]) == Some([".", b])
  {
    var f := dir + [a];
    var t := dir + [b];
    assert f[..|dir|] == t[..|dir|];
    assert Common(f, t) == |dir|;
    assert t[|dir|..] == [b];
    assert Dots(0) + [b] == [b];
    assert Lead([b]) == [".", b];
  }

  /** Evaluates `getRelativePath` on two paths given by their segments. */
  lemma Example(fromParts: seq<string>, toParts: seq<string>, parts: seq<string>)
    requires |fromParts| >= 1 && |toParts| >= 1
    requires forall k :: 0 <= k < |fromParts| ==> '/' !in fromParts[k]
    requires forall k :: 0 <= k < |toParts| ==> '/' !in toParts[k]
    requires RelativeParts(fromParts, toParts) == Some(parts)
    ensures RelativePath(Text.Join(fromParts, "/"), Text.Join(toParts, "/")) == Some(Text.Join(parts, "/"))
  {
    Text.SplitJoin(fromParts, '/');
    Text.SplitJoin(toParts, '/');
  }

  /** `FindDiff` returns exactly the first index where the paths differ. */
  lemma FindDiffAt(fromParts: seq<string>, toParts: seq<string>, d: nat)
    requires d < |fromParts| && d <= |toParts|
    requires fromParts[..d] == toParts[..d]
    requires d == |toParts| || fromParts[d] != toParts[d]
    ensures FindDiff(fromParts, toParts, 0) == d
  {
    var r := FindDiff(fromParts, toParts, 0);
    assert r != -1 ==> fromParts[0..r] == toParts[0..r];
  }

  /** The examples of test/index.js, with each path written as its list of segments:
      `PartsN` computes the segments of the result, `ExampleN` states the path. */
  lemma Parts1()
    ensures RelativeParts(["", "foo.js"], ["", "foo.js"]) == Some([".", "foo.js"])
  {
    var f := ["", "foo.js"];
    var t := ["", "foo.js"];
    var e := [".", "foo.js"];
    assert FindDiff(f, t, 0) == -1;
    assert Common(f, t) == 1;
    assert Dots(0) == [];
    assert t[1..] == ["foo.js"];
    assert Dots(0) + t[1..] == ["foo.js"];
    assert Lead(["foo.js"]) == e;
  }

  /** `getRelativePath('/foo.js', '/foo.js')` is `'./foo.js'`. */
  lemma Example1()
    ensures RelativePath(Text.Join(["", "foo.js"], "/"), Text.Join(["", "foo.js"], "/")) ==
      Some(Text.Join([".", "foo.js"], "/"))
  {
    Parts1();
    Example(["", "foo.js"], ["", "foo.js"], [".", "foo.js"]);
  }

  lemma Parts2()
    ensures RelativeParts(["", "foo.js"], ["", "bar.js"]) == Some([".", "bar.js"])
  {
    var f := ["", "foo.js"];
    var t := ["", "bar.js"];
    var e := [".", "bar.js"];
    assert f[..1] == t[..1];
    FindDiffAt(f, t, 1);
    assert Common(f, t) == 1;
    assert Dots(0) == [];
    assert t[1..] == ["bar.js"];
    assert Dots(0) + t[1..] == ["bar.js"];
    assert Lead(["bar.js"]) == e;
  }

  /** `getRelativePath('/foo.js', '/bar.js')` is `'./bar.js'`. */
  lemma Example2()
    ensures RelativePath(Text.Join(["", "foo.js"], "/"), Text.Join(["", "bar.js"], "/")) ==
      Some(Text.Join([".", "bar.js"], "/"))
  {
    Parts2();
    Example(["", "foo.js"], ["", "bar.js"], [".", "bar.js"]);
  }

  lemma Parts3()
    ensures RelativeParts(["", "1", "foo.js"], ["", "1", "bar.js"]) == Some([".", "bar.js"])
  {
    var f := ["", "1", "foo.js"];
    var t := ["", "1", "bar.js"];
    var e := [".", "bar.js"];
    assert f[..2] == t[..2];
    FindDiffAt(f, t, 2);
    assert Common(f, t) == 2;
    assert Dots(0) == [];
    assert t[2..] == ["bar.js"];
    assert Dots(0) + t[2..] == ["bar.js"];
    assert Lead(["bar.js"]) == e;
  }

  /** `getRelativePath('/1/foo.js', '/1/bar.js')` is `'./bar.js'`. */
  lemma Example3()
    ensures RelativePath(Text.Join(["", "1", "foo.js"], "/"), Text.Join(["", "1", "bar.js"], "/")) ==
      Some(Text.Join([".", "bar.js"], "/"))
  {
    Parts3();
    Example(["", "1", "foo.js"], ["", "1", "bar.js"], [".", "bar.js"]);
  }

  lemma Parts4()
    ensures RelativeParts(["", "1", "2", "foo.js"], ["", "1", "2", "bar.js"]) == Some([".", "bar.js"])
  {
    var f := ["", "1", "2", "foo.js"];
    var t := ["", "1", "2", "bar.js"];
    var e := [".", "bar.js"];
    assert f[..3] == t[..3];
    FindDiffAt(f, t, 3);
    assert Common(f, t) == 3;
    assert Dots(0) == [];
    assert t[3..] == ["bar.js"];
    assert Dots(0) + t[3..] == ["bar.js"];
    assert Lead(["bar.js"]) == e;
  }

  /** `getRelativePath('/1/2/foo.js', '/1/2/bar.js')` is `'./bar.js'`. */
  lemma Example4()
    ensures RelativePath(Text.Join(["", "1", "2", "foo.js"], "/"), Text.Join(["", "1", "2", "bar.js"], "/")) ==
      Some(Text.Join([".", "bar.js"], "/"))
  {
    Parts4();
    Example(["", "1", "2", "foo.js"], ["", "1", "2", "bar.js"], [".", "bar.js"]);
  }

  lemma Parts5()
    ensures RelativeParts(["", "1", "foo.js"], ["", "2", "bar.js"]) == Some(["..", "2", "bar.js"])
  {
    var f := ["", "1", "foo.js"];
    var t := ["", "2", "bar.js"];
    var e := ["..", "2", "bar.js"];
    assert f[..1] == t[..1];
    FindDiffAt(f, t, 1);
    assert Common(f, t) == 1;
    assert Dots(1) == [".."];
    assert t[1..] == ["2", "bar.js"];
    assert Dots(1) + t[1..] == ["..", "2", "bar.js"];
    assert Lead(["..", "2", "bar.js"]) == e;
  }

  /** `getRelativePath('/1/foo.js', '/2/bar.js')` is `'../2/bar.js'`. */
  lemma Example5()
    ensures RelativePath(Text.Join(["", "1", "foo.js"], "/"), Text.Join(["", "2", "bar.js"], "/")) ==
      Some(Text.Join(["..", "2", "bar.js"], "/"))
  {
    Parts5();
    Example(["", "1", "foo.js"], ["", "2", "bar.js"], ["..", "2", "bar.js"]);
  }

  lemma Parts6()
    ensures RelativeParts(["", "1", "a", "foo.js"], ["", "1", "bar.js"]) == Some(["..", "bar.js"])
  {
    var f := ["", "1", "a", "foo.js"];
    var t := ["", "1", "bar.js"];
    var e := ["..", "bar.js"];
    assert f[..2] == t[..2];
    FindDiffAt(f, t, 2);
    assert Common(f, t) == 2;
    assert Dots(1) == [".."];
    assert t[2..] == ["bar.js"];
    assert Dots(1) + t[2..] == ["..", "bar.js"];
    assert Lead(["..", "bar.js"]) == e;
  }

  /** `getRelativePath('/1/a/foo.js', '/1/bar.js')` is `'../bar.js'`. */
  lemma Example6()
    ensures RelativePath(Text.Join(["", "1", "a", "foo.js"], "/"), Text.Join(["", "1", "bar.js"], "/")) ==
      Some(Text.Join(["..", "bar.js"], "/"))
  {
    Parts6();
    Example(["", "1", "a", "foo.js"], ["", "1", "bar.js"], ["..", "bar.js"]);
  }

  lemma Parts7()
    ensures RelativeParts(["", "1", "foo.js"], ["", "1", "a", "bar.js"]) == Some([".", "a", "bar.js"])
  {
    var f := ["", "1", "foo.js"];
    var t := ["", "1", "a", "bar.js"];
    var e := [".", "a", "bar.js"];
    assert f[..2] == t[..2];
    FindDiffAt(f, t, 2);
    assert Common(f, t) == 2;
    assert Dots(0) == [];
    assert t[2..] == ["a", "bar.js"];
    assert Dots(0) + t[2..] == ["a", "bar.js"];
    assert Lead(["a", "bar.js"]) == e;
  }

  /** `getRelativePath('/1/foo.js', '/1/a/bar.js')` is `'./a/bar.js'`. */
  lemma Example7()
    ensures RelativePath(Text.Join(["", "1", "foo.js"], "/"), Text.Join(["", "1", "a", "bar.js"], "/")) ==
      Some(Text.Join([".", "a", "bar.js"], "/"))
  {
    Parts7();
    Example(["", "1", "foo.js"], ["", "1", "a", "bar.js"], [".", "a", "bar.js"]);
  }

  lemma Parts8()
    ensures RelativeParts(["", "1", "2", "3", "4", "foo.js"], ["", "1", "2", "a", "b", "c", "bar.js"]) == Some(["..", "..", "a", "b", "c", "bar.js"])
  {
    var f := ["", "1", "2", "3", "4", "foo.js"];
    var t := ["", "1", "2", "a", "b", "c", "bar.js"];
    var e := ["..", "..", "a", "b", "c", "bar.js"];
    assert f[..3] == t[..3];
    FindDiffAt(f, t, 3);
    assert Common(f, t) == 3;
    assert Dots(2) == ["..", ".."];
    assert t[3..] == ["a", "b", "c", "bar.js"];
    assert Dots(2) + t[3..] == ["..", "..", "a", "b", "c", "bar.js"];
    assert Lead(["..", "..", "a", "b", "c", "bar.js"]) == e;
  }

  /** `getRelativePath('/1/2/3/4/foo.js', '/1/2/a/b/c/bar.js')` is `'../../a/b/c/bar.js'`. */
  lemma Example8()
    ensures RelativePath(Text.Join(["", "1", "2", "3", "4", "foo.js"], "/"), Text.Join(["", "1", "2", "a", "b", "c", "bar.js"], "/")) ==
      Some(Text.Join(["..", "..", "a", "b", "c", "bar.js"], "/"))
  {
    Parts8();
    Example(["", "1", "2", "3", "4", "foo.js"], ["", "1", "2", "a", "b", "c", "bar.js"], ["..", "..", "a", "b", "c", "bar.js"]);
  }
}
