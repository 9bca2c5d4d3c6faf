/** Which paths of a record stay inside the repository. */
module MutantPaths {

  /** The components of a path. */
  function Components(path: string): seq<string> {
    if path == "" then [""]
    else
      var rest := Components(path[1..]);
      if path[0] == '/' || rest == [] then [""] + rest else [[path[0]] + rest[0]] + rest[1..]
  }

  predicate Inside(path: string) {
    !("/" <= path) && ".." !in Components(path)
  }

  // ------------------------------------------------------------------
  // What the check lets through
  // ------------------------------------------------------------------

  /** c stands in the path between slashes or its ends, behind a and in front of b. */
  predicate StandsIn(path: string, a: string, c: string, b: string) {
    && path == a + c + b
    && (a == "" || a[|a| - 1] == '/') && (b == "" || b[0] == '/')
  }

  /** The path starts at the root, or goes up somewhere. */
  ghost predicate LeavesRepository(path: string) {
    "/" <= path || exists a, b :: StandsIn(path, a, "..", b)
  }

  lemma {:induction false} ComponentsJoin(a: string, b: string)
    ensures Components(a + "/" + b) == Components(a) + Components(b)
  {
    if a == "" {
      assert a + "/" + b == "/" + b;
      assert ("/" + b)[1..] == b;
    } else {
      assert (a + "/" + b)[1..] == a[1..] + "/" + b;
      ComponentsJoin(a[1..], b);
    }
  }

  lemma {:induction false} OneComponent(a: string)
    requires '/' !in a
    ensures Components(a) == [a]
  {
    if a != "" {
      assert a[0] in a;
      OneComponent(a[1..]);
      assert [a[0]] + a[1..] == a;
    }
  }

  function FirstSlash(path: string): (n: nat)
    ensures n <= |path| && (forall i :: 0 <= i < n ==> path[i] != '/') && (n < |path| ==> path[n] == '/')
  {
    if path == "" || path[0] == '/' then 0 else 1 + FirstSlash(path[1..])
  }

  lemma StandsFurther(path: string, a: string, b: string, x: string, c: string, y: string)
    requires path == a + "/" + b && StandsIn(b, x, c, y)
    ensures StandsIn(path, a + "/" + x, c, y)
  {
    assert path == a + "/" + (x + c + y);
    assert path == (a + "/" + x) + c + y;
  }

  lemma StandsFirst(path: string, c: string, b: string)
    requires path == c + "/" + b
    ensures StandsIn(path, "", c, "/" + b)
  {
    assert path == "" + c + ("/" + b);
  }

  /** Every component stands in the path. */
  lemma {:induction false} ComponentStands(path: string, c: string)
    requires c in Components(path)
    ensures exists a, b :: StandsIn(path, a, c, b)
    decreases |path|
  {
    hide Components, StandsIn, FirstSlash;
    var n := FirstSlash(path);
    var a := path[..n];
    OneComponent(a);
    if n == |path| {
      assert a == path;
      WholeStands(path);
    } else {
      var b := path[n + 1..];
      assert path == a + "/" + b;
      ComponentsJoin(a, b);
      if c == a {
        StandsFirst(path, c, b);
      } else {
        ComponentStands(b, c);
        var x, y :| StandsIn(b, x, c, y);
        StandsFurther(path, a, b, x, c, y);
      }
    }
  }

  lemma WholeStands(path: string)
    ensures StandsIn(path, "", path, "")
  {
    assert path == "" + path + "";
  }

  lemma StartsWith(c: string, b: string)
    requires '/' !in c && (b == "" || b[0] == '/')
    ensures c in Components(c + b)
  {
    hide Components;
    OneComponent(c);
    if b == "" {
      assert c + b == c;
    } else {
      assert c + b == c + "/" + b[1..];
      ComponentsJoin(c, b[1..]);
    }
  }

  /** What stands in the path is a component. */
  lemma StandingIsComponent(path: string, a: string, c: string, b: string)
    requires '/' !in c && StandsIn(path, a, c, b)
    ensures c in Components(path)
  {
    hide Components;
    StartsWith(c, b);
    assert path == a + (c + b);
    if a != "" {
      var front := a[..|a| - 1];
      assert a == front + "/";
      assert path == front + "/" + (c + b);
      ComponentsJoin(front, c + b);
    } else {
      assert path == c + b;
    }
  }

  /** The path check lets through exactly the paths that do not leave the repository. */
  lemma InsideIff(path: string)
    ensures Inside(path) <==> !LeavesRepository(path)
  {
    hide Components, StandsIn;
    if ".." in Components(path) {
      ComponentStands(path, "..");
    }
    if a, b :| StandsIn(path, a, "..", b) {
      StandingIsComponent(path, a, "..", b);
    }
  }
}
