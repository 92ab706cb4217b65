/** Containment paths: getNodePath, with path.Clean of the Go standard library on rooted paths. */
module Paths {
  import opened Text

  // path.Clean without the leading slash: empty and "." elements go, ".." takes the element before it along.
  function Resolve(parts: seq<string>, kept: seq<string>): seq<string> {
    if parts == [] then kept
    else if parts[0] == "" || parts[0] == "." then Resolve(parts[1..], kept)
    else if parts[0] == ".." then Resolve(parts[1..], if kept == [] then [] else kept[..|kept| - 1])
    else Resolve(parts[1..], kept + [parts[0]])
  }

  // path.Clean("/" + s)
  function CleanRooted(s: string): string {
    "/" + Join(Resolve(Split(s, '/'), []), '/')
  }

  function NodePath(root: string, subpath: string): string {
    if subpath == "" then CleanRooted(root) else CleanRooted(root + "/" + subpath)
  }

  predicate Proper(part: string) {
    part != "" && part != "." && part != ".."
  }

  ghost predicate AllProper(parts: seq<string>) {
    forall i :: 0 <= i < |parts| ==> Proper(parts[i])
  }

  lemma {:induction false} ResolveKeepsProper(parts: seq<string>, kept: seq<string>)
    requires AllProper(parts)
    ensures Resolve(parts, kept) == kept + parts
  {
    if parts != [] {
      ResolveKeepsProper(parts[1..], kept + [parts[0]]);
      assert kept + parts == (kept + [parts[0]]) + parts[1..];
    }
  }

  lemma {:induction false} ResolveSize(parts: seq<string>, kept: seq<string>)
    ensures |Resolve(parts, kept)| <= |kept| + |parts|
    ensures !AllProper(parts) ==> |Resolve(parts, kept)| < |kept| + |parts|
  {
    if parts != [] {
      if Proper(parts[0]) {
        ResolveSize(parts[1..], kept + [parts[0]]);
        if AllProper(parts[1..]) {
          assert forall i :: 1 <= i < |parts| ==> parts[i] == parts[1..][i - 1];
        }
      } else {
        ResolveSize(parts[1..], if parts[0] == ".." && kept != [] then kept[..|kept| - 1] else kept);
      }
    }
  }

  lemma {:induction false} ResolveFree(parts: seq<string>, kept: seq<string>)
    requires Free(parts, '/') && Free(kept, '/')
    ensures Free(Resolve(parts, kept), '/')
  {
    if parts != [] {
      var next := if Proper(parts[0]) then kept + [parts[0]]
                  else if parts[0] == ".." && kept != [] then kept[..|kept| - 1] else kept;
      ResolveFree(parts[1..], next);
    }
  }

  lemma {:induction false} ResolvePlus(a: seq<string>, b: seq<string>, kept: seq<string>)
    ensures Resolve(a + b, kept) == Resolve(b, Resolve(a, kept))
  {
    if a == [] {
      assert a + b == b;
    } else {
      assert (a + b)[1..] == a[1..] + b;
      ResolvePlus(a[1..], b, if Proper(a[0]) then kept + [a[0]] else if a[0] == ".." && kept != [] then kept[..|kept| - 1] else kept);
    }
  }

  // An empty element or a dot may be left out, two dots take the element before them along, and at the root
  // they do nothing.
  lemma DotsCancel(a: seq<string>, dot: string, x: string, b: seq<string>)
    requires (dot == "" || dot == ".") && Proper(x)
    ensures Resolve(a + [dot] + b, []) == Resolve(a + b, [])
    ensures Resolve(a + [x, ".."] + b, []) == Resolve(a + b, [])
    ensures Resolve([".."] + b, []) == Resolve(b, [])
  {
    var kept := Resolve(a, []);
    ResolvePlus(a, b, []);
    ResolvePlus(a, [dot], []);
    ResolvePlus(a + [dot], b, []);
    ResolvePlus(a, [x, ".."], []);
    ResolvePlus(a + [x, ".."], b, []);
    assert [x, ".."][1..] == [".."] && (kept + [x])[..|kept|] == kept;
    assert Resolve([x, ".."], kept) == Resolve([".."], kept + [x]) == kept;
    assert ([".."] + b)[1..] == b;
  }

  // Cleaning changes nothing exactly when every element is proper.
  lemma CleanIdentityIff(s: string)
    requires s != ""
    ensures CleanRooted(s) == "/" + s <==> AllProper(Split(s, '/'))
  {
    var parts := Split(s, '/');
    JoinSplit(s, '/');
    if AllProper(parts) {
      ResolveKeepsProper(parts, []);
      assert [] + parts == parts;
    } else {
      var kept := Resolve(parts, []);
      ResolveSize(parts, []);
      SplitIsFree(s, '/');
      ResolveFree(parts, []);
      if kept != [] {
        SplitJoin(kept, '/');
      }
      assert Join(kept, '/') != s;
      assert CleanRooted(s)[1..] == Join(kept, '/') && ("/" + s)[1..] == s;
    }
  }

  // ----- paths of a tree of names -----

  predicate Plain(name: string) {
    Proper(name) && '/' !in name
  }

  ghost predicate AllPlain(names: seq<string>) {
    forall i :: 0 <= i < |names| ==> Plain(names[i])
  }

  lemma JoinedSplits(names: seq<string>)
    requires names != [] && AllPlain(names)
    ensures Join(names, '/') != "" && Split(Join(names, '/'), '/') == names
  {
    assert Free(names, '/');
    SplitJoin(names, '/');
  }

  // The path below a root is all names with slashes between them, and one slash in front.
  lemma PathIs(root: string, names: seq<string>)
    requires Plain(root) && AllPlain(names)
    ensures NodePath(root, Join(names, '/')) == "/" + Join([root] + names, '/')
  {
    var all := [root] + names;
    JoinedSplits(all);
    CleanIdentityIff(Join(all, '/'));
    if names != [] {
      JoinedSplits(names);
      assert all[1..] == names;
    }
  }

  lemma {:induction false} JoinSnoc(names: seq<string>, last: string)
    requires names != []
    ensures Join(names + [last], '/') == Join(names, '/') + "/" + last
  {
    if |names| == 1 {
      assert (names + [last])[1..] == [last];
    } else {
      JoinSnoc(names[1..], last);
      assert (names + [last])[1..] == names[1..] + [last];
    }
  }

  // A child's path is its parent's path, a slash and the child's name.
  lemma ChildPath(root: string, names: seq<string>, name: string)
    requires Plain(root) && AllPlain(names) && Plain(name)
    ensures NodePath(root, Join(names + [name], '/')) == NodePath(root, Join(names, '/')) + "/" + name
  {
    PathIs(root, names);
    PathIs(root, names + [name]);
    JoinSnoc([root] + names, name);
    assert [root] + (names + [name]) == ([root] + names) + [name];
  }

  // Different name lists give different paths.
  lemma PathsDiffer(root: string, a: seq<string>, b: seq<string>)
    requires Plain(root) && AllPlain(a) && AllPlain(b)
    ensures NodePath(root, Join(a, '/')) == NodePath(root, Join(b, '/')) <==> a == b
  {
    PathIs(root, a);
    PathIs(root, b);
    JoinedSplits([root] + a);
    JoinedSplits([root] + b);
    if NodePath(root, Join(a, '/')) == NodePath(root, Join(b, '/')) {
      assert ("/" + Join([root] + a, '/'))[1..] == ("/" + Join([root] + b, '/'))[1..];
      assert ([root] + a)[1..] == a && ([root] + b)[1..] == b;
    }
  }

  // A name with its index is plain when the name has no slash: it ends in a digit.
  lemma IndexedIsPlain(name: string, index: nat)
    requires '/' !in name
    ensures Plain(name + Decimal(index))
  {
    DecimalValue(index);
    var digits := Decimal(index);
    assert (name + digits)[|name + digits| - 1] == digits[|digits| - 1];
    forall i | 0 <= i < |digits| ensures digits[i] != '/' {
      assert IsDigit(digits[i]);
    }
  }
}
