/** path.Clean, path.Join and filepath.Dir: the shortest spelling of a path, component by component. */
module Paths {
  import opened Text

  /** One component after those of `stack`. */
  function Push(rooted: bool, stack: seq<string>, c: string): seq<string> {
    if c == "" || c == "." then stack
    else if c != ".." then stack + [c]
    else if stack != [] && stack[|stack| - 1] != ".." then stack[..|stack| - 1]
    else if rooted then stack
    else stack + [".."]
  }

  function Reduce(rooted: bool, stack: seq<string>, cs: seq<string>): seq<string> {
    if cs == [] then stack
    else Push(rooted, Reduce(rooted, stack, cs[..|cs| - 1]), cs[|cs| - 1])
  }

  predicate Rooted(p: string) {
    p != "" && p[0] == '/'
  }

  /** What is left of a path's components. */
  function Parts(p: string): seq<string> {
    Reduce(Rooted(p), [], Split(p, '/'))
  }

  function Render(rooted: bool, parts: seq<string>): string {
    if rooted then "/" + Join(parts, '/') else if parts == [] then "." else Join(parts, '/')
  }

  function Clean(p: string): string {
    Render(Rooted(p), Parts(p))
  }

  /** Where the last slash is, or -1. */
  function LastSlash(p: string): (i: int)
    ensures -1 <= i < |p|
    ensures i >= 0 ==> p[i] == '/'
    ensures forall k :: i < k < |p| ==> p[k] != '/'
  {
    if p == [] then -1
    else if p[|p| - 1] == '/' then |p| - 1
    else LastSlash(p[..|p| - 1])
  }

  function Dir(p: string): string {
    Clean(p[..LastSlash(p) + 1])
  }

  function Base(p: string): string {
    p[LastSlash(p) + 1..]
  }

  function Slash(a: string, b: string): string {
    a + "/" + b
  }

  /** path.Join of two elements: empty ones are ignored. */
  function JoinPath(dir: string, name: string): string {
    if dir != "" then Clean(Slash(dir, name)) else if name != "" then Clean(name) else ""
  }

  /** A path in its shortest spelling. */
  predicate Canonical(p: string) {
    Clean(p) == p
  }

  // ----- Components

  predicate Solid(cs: seq<string>) {
    forall k :: 0 <= k < |cs| ==> '/' !in cs[k]
  }

  /** Nothing to drop and nothing to pop. */
  predicate Normal(rooted: bool, parts: seq<string>) {
    && Solid(parts)
    && (forall k :: 0 <= k < |parts| ==> parts[k] != "" && parts[k] != ".")
    && (forall k :: 0 <= k < |parts| && parts[k] == ".." ==> !rooted && (k > 0 ==> parts[k - 1] == ".."))
  }

  lemma {:induction false} SplitSolid(p: string)
    ensures Solid(Split(p, '/'))
    decreases |p|
  {
    var i := IndexOf(p, '/');
    if i < |p| {
      SplitSolid(p[i + 1..]);
    }
  }

  lemma SplitFirst(a: string, b: string)
    requires '/' !in a
    ensures Split(Slash(a, b), '/') == [a] + Split(b, '/')
  {
    IndexOfFirst(a, '/', b);
    hide IndexOf;
    var p := a + "/" + b;
    assert p[..|a|] == a && p[|a| + 1..] == b;
  }

  lemma SlashSlash(a: string, b: string, c: string)
    ensures Slash(Slash(a, b), c) == Slash(a, Slash(b, c))
  {
  }

  lemma SplitNext(front: string, tail: string, b: string)
    requires '/' !in front && Split(Slash(tail, b), '/') == Split(tail, '/') + Split(b, '/')
    ensures Split(Slash(Slash(front, tail), b), '/') == Split(Slash(front, tail), '/') + Split(b, '/')
  {
    hide *;
    SplitFirst(front, tail);
    SplitFirst(front, Slash(tail, b));
    SlashSlash(front, tail, b);
  }

  lemma SplitNone(a: string)
    requires '/' !in a
    ensures Split(a, '/') == [a]
  {
  }

  lemma SlashAt(a: string, i: nat)
    requires i < |a| && a[i] == '/'
    ensures Slash(a[..i], a[i + 1..]) == a
  {
  }

  lemma {:induction false} SplitConcat(a: string, b: string)
    ensures Split(Slash(a, b), '/') == Split(a, '/') + Split(b, '/')
    decreases |a|
  {
    hide *;
    var i := IndexOf(a, '/');
    if i == |a| {
      SplitNone(a);
      SplitFirst(a, b);
    } else {
      SplitConcat(a[i + 1..], b);
      SplitNext(a[..i], a[i + 1..], b);
      SlashAt(a, i);
    }
  }

  lemma {:induction false} ReduceConcat(rooted: bool, stack: seq<string>, a: seq<string>, b: seq<string>)
    ensures Reduce(rooted, stack, a + b) == Reduce(rooted, Reduce(rooted, stack, a), b)
  {
    hide Push;
    if b == [] {
      assert a + b == a;
    } else {
      var n := |b| - 1;
      ReduceConcat(rooted, stack, a, b[..n]);
      assert (a + b)[..|a + b| - 1] == a + b[..n];
    }
  }

  lemma {:induction false} ReduceNormal(rooted: bool, stack: seq<string>, cs: seq<string>)
    requires Normal(rooted, stack) && Solid(cs)
    ensures Normal(rooted, Reduce(rooted, stack, cs))
  {
    if cs != [] {
      ReduceNormal(rooted, stack, cs[..|cs| - 1]);
    }
  }

  lemma {:induction false} NormalReduces(rooted: bool, parts: seq<string>)
    requires Normal(rooted, parts)
    ensures Reduce(rooted, [], parts) == parts
  {
    if parts != [] {
      var n := |parts| - 1;
      NormalReduces(rooted, parts[..n]);
      PushNormal(rooted, parts, n);
      hide Push, Normal;
      assert parts[..n] + [parts[n]] == parts;
    }
  }

  lemma PushNormal(rooted: bool, parts: seq<string>, n: nat)
    requires Normal(rooted, parts) && n < |parts|
    ensures Normal(rooted, parts[..n]) && Push(rooted, parts[..n], parts[n]) == parts[..n] + [parts[n]]
  {
  }

  // ----- Cleaning

  lemma RenderedBack(rooted: bool, parts: seq<string>)
    requires Normal(rooted, parts)
    ensures Rooted(Render(rooted, parts)) == rooted && Parts(Render(rooted, parts)) == parts
  {
    NormalReduces(rooted, parts);
    var p := Render(rooted, parts);
    if parts != [] {
      SplitJoin(parts, '/');
      if rooted {
        SplitFirst("", Join(parts, '/'));
        assert Slash("", Join(parts, '/')) == p;
        ReduceConcat(true, [], [""], parts);
      }
    } else if rooted {
      SplitFirst("", "");
      assert Slash("", "") == p && Split(p, '/') == [""] + [""];
      ReduceConcat(true, [], [""], [""]);
    } else {
      assert IndexOf(".", '/') == 1;
    }
  }

  lemma PartsNormal(p: string)
    ensures Normal(Rooted(p), Parts(p))
  {
    SplitSolid(p);
    ReduceNormal(Rooted(p), [], Split(p, '/'));
  }

  lemma CleanSame(p: string)
    ensures Rooted(Clean(p)) == Rooted(p) && Parts(Clean(p)) == Parts(p) && Canonical(Clean(p))
  {
    PartsNormal(p);
    RenderedBack(Rooted(p), Parts(p));
  }

  /** Cleaning the front first changes nothing. */
  lemma CleanFront(a: string, b: string)
    requires a != ""
    ensures Clean(Slash(Clean(a), b)) == Clean(Slash(a, b))
  {
    hide Split, Push, Render;
    CleanSame(a);
    SplitConcat(a, b);
    SplitConcat(Clean(a), b);
    ReduceConcat(Rooted(a), [], Split(a, '/'), Split(b, '/'));
    ReduceConcat(Rooted(a), [], Split(Clean(a), '/'), Split(b, '/'));
    CleanSome(a);
  }

  lemma CleanSome(p: string)
    ensures Clean(p) != ""
  {
    PartsNormal(p);
  }

  /** A slash at the end changes nothing, nor does a dot in front of a path without a slash. */
  lemma CleanEdges(p: string)
    ensures p != "" ==> Clean(Slash(p, "")) == Clean(p)
    ensures !Rooted(p) ==> Clean(Slash(".", p)) == Clean(p)
  {
    hide Split, Render;
    SplitConcat(p, "");
    SplitConcat(".", p);
    SplitNone("");
    SplitNone(".");
    ReduceConcat(Rooted(p), [], Split(p, '/'), [""]);
    ReduceConcat(false, [], ["."], Split(p, '/'));
  }

  lemma SlashInside(a: string, b: string)
    requires a != ""
    ensures Clean(Slash(Slash(a, ""), b)) == Clean(Slash(a, b))
  {
    CleanEdges(a);
    CleanFront(Slash(a, ""), b);
    CleanFront(a, b);
  }

  lemma CleanNothing()
    ensures Clean("") == "." && Clean("/") == "/"
  {
    SplitNone("");
    SplitFirst("", "");
    assert Slash("", "") == "/" && Split("/", '/') == [""] + [""];
    ReduceConcat(true, [], [""], [""]);
  }

  lemma RootTwice(b: string)
    ensures Clean(Slash("/", b)) == Clean(Slash("", b))
  {
    hide Split, Render;
    SplitConcat("", b);
    SplitConcat("/", b);
    SplitConcat("", "");
    SplitNone("");
    assert Slash("", "") == "/";
    ReduceConcat(true, [], [""], Split(b, '/'));
    ReduceConcat(true, [], [""] + [""], Split(b, '/'));
    ReduceConcat(true, [], [""], [""]);
  }

  /** A directory and a name in it make the path they came from. */
  lemma JoinDirBase(p: string)
    ensures JoinPath(Dir(p), Base(p)) == Clean(p)
  {
    hide Clean, Split;
    var i := LastSlash(p);
    CleanSome(p[..i + 1]);
    if i < 0 {
      CleanEdges(p);
      CleanNothing();
    } else {
      CleanFront(p[..i + 1], p[i + 1..]);
      SlashAt(p, i);
      if i > 0 {
        assert p[..i + 1] == Slash(p[..i], "");
        SlashInside(p[..i], p[i + 1..]);
      } else {
        assert p[..1] == "/" && p[..0] == "";
        RootTwice(p[1..]);
      }
    }
  }

  // ----- The last component

  lemma LastSlashAt(a: string, b: string)
    requires '/' !in b
    ensures LastSlash(Slash(a, b)) == |a|
  {
    var p := Slash(a, b);
    assert p[|a|] == '/';
    assert forall k :: |a| < k < |p| ==> p[k] == b[k - |a| - 1];
  }

  lemma {:induction false} JoinSnoc(parts: seq<string>, c: string)
    requires parts != []
    ensures Join(parts + [c], '/') == Slash(Join(parts, '/'), c)
  {
    assert (parts + [c])[1..] == parts[1..] + [c];
    if |parts| > 1 {
      JoinSnoc(parts[1..], c);
      SlashSlash(parts[0], Join(parts[1..], '/'), c);
    }
  }

  /** The last component names a file or directory of its own. */
  predicate Plain(b: string) {
    '/' !in b && b != "" && b != "." && b != ".."
  }

  lemma PartsPlain(d: string, b: string)
    requires d != "" && Plain(b)
    ensures Parts(Slash(d, b)) == Parts(d) + [b] && Rooted(Slash(d, b)) == Rooted(d)
  {
    hide Split;
    SplitConcat(d, b);
    SplitNone(b);
    ReduceConcat(Rooted(d), [], Split(d, '/'), [b]);
  }

  /** Cleaning leaves a plain last component and its directory as they are. */
  lemma CleanPlain(p: string)
    requires Plain(Base(p))
    ensures Base(Clean(p)) == Base(p) && Dir(Clean(p)) == Dir(p)
    ensures |Clean(p)| <= |Dir(p)| + 1 + |Base(p)|
  {
    hide Split, Push, Parts;
    var d, b := Dir(p), Base(p);
    CleanSame(p[..LastSlash(p) + 1]);
    CleanSome(p[..LastSlash(p) + 1]);
    JoinDirBase(p);
    PartsPlain(d, b);
    CleanNothing();
    var ps := Parts(d);
    if ps != [] {
      JoinSnoc(ps, b);
      assert Clean(p) == Slash(d, b);
      LastSlashAt(d, b);
      CleanEdges(d);
      assert Slash(d, b)[..|d| + 1] == Slash(d, "");
    } else if Rooted(d) {
      assert Clean(p) == Slash("", b);
      LastSlashAt("", b);
      assert Slash("", b)[..1] == "/";
    } else {
      assert Clean(p) == b;
      assert LastSlash(b) == -1;
    }
  }

  /** A second slash makes another spelling of the same path. */
  lemma TwoSlashes(p: string)
    requires Canonical(p) && Plain(Base(p))
    ensures var k := Dir(p) + "//" + Base(p); k != p && Clean(k) == p && Base(k) == Base(p)
  {
    hide Split, Push, Parts, Join;
    var d, b := Dir(p), Base(p);
    CleanSome(p[..LastSlash(p) + 1]);
    CleanPlain(p);
    JoinDirBase(p);
    SlashInside(d, b);
    LastSlashAt(Slash(d, ""), b);
    hide Clean, LastSlash;
    var k := d + "//" + b;
    assert k == Slash(Slash(d, ""), b);
    assert |k| == |d| + 2 + |b|;
  }

  /** The last component of a joined path is the one that was joined. */
  lemma JoinedBase(dir: string, name: string)
    requires Plain(name)
    ensures Base(JoinPath(dir, name)) == name
  {
    if dir != "" {
      LastSlashAt(dir, name);
      assert Base(Slash(dir, name)) == name;
      CleanPlain(Slash(dir, name));
    } else {
      assert LastSlash(name) == -1;
      CleanPlain(name);
    }
  }
}
