/** What the naming callbacks of `ytt.config.ts` guarantee about the names and
    paths they produce, and what they silently give up. */
module ApiNamingProperties {
  import opened Outcomes
  import opened JsString
  import opened ApiNaming

  /** A path with no `/` at all keeps nothing; `"".split('/')` is `[""]`. */
  lemma NameOfEmptyPath()
    ensures Name("") == []
  {
    assert Split("", '/') == [""];
  }

  /** A short path keeps fewer than two components, with no padding. */
  lemma NameOfShortPath()
    ensures Name("/a") == ["a"]
  {
    JoinCons("", ["a"], "/");
    SplitJoin(["", "a"], '/');
  }

  /** Index 0 is dropped even when it is not empty. */
  lemma NameDropsNonEmptyFirstComponent()
    ensures Name("a/b/c") == ["b", "c"]
  {
    JoinCons("b", ["c"], "/");
    JoinCons("a", ["b", "c"], "/");
    assert Join(["a", "b", "c"], "/") == "a/b/c";
    SplitJoin(["a", "b", "c"], '/');
  }

  /** Empty inner components are kept. */
  lemma NameKeepsEmptyComponents()
    ensures Name("//x") == ["", "x"]
  {
    JoinCons("", ["x"], "/");
    JoinCons("", ["", "x"], "/");
    assert Join(["", "", "x"], "/") == "//x";
    SplitJoin(["", "", "x"], '/');
  }

  /** Components past index 2 are ignored. */
  lemma NameOfLongPath()
    ensures Name("/a/b/c/d") == ["a", "b"]
  {
    NameOfRootedPath("a", "b", "c/d");
    assert "/" + "a" + "/" + "b" + "/" + "c/d" == "/a/b/c/d";
  }

  /** Once a path has three components, whatever follows them never reaches
      a generated name. */
  lemma NameIgnoresTrailingSegments(path: string, rest: string)
    requires Occurrences(path, '/') >= 2
    ensures Name(path + "/" + rest) == Name(path)
  {
    SplitAppend(path, rest, '/');
    var sp := Split(path, '/');
    var whole := Split(path + "/" + rest, '/');
    assert whole == sp + Split(rest, '/');
    assert whole[1..3] == sp[1..3];
  }

  /** The kept components are a function of the components at split
      indices 0 to 2 alone. */
  lemma NameDeterminedByLeadingComponents(p: string, q: string)
    requires LeadingComponents(p) == LeadingComponents(q)
    ensures Name(p) == Name(q)
  {
    var lp := LeadingComponents(p);
    assert |Name(p)| == |lp| - 1;
    assert |Name(q)| == |lp| - 1;
    forall i | 0 <= i < |Name(p)|
      ensures Name(p)[i] == Name(q)[i]
    {
      assert Name(p)[i] == lp[i + 1];
      assert Name(q)[i] == lp[i + 1];
    }
  }

  /** Two interfaces whose raw paths agree on the first three components get
      the same filter verdict and the same output file: the second silently
      overwrites the first. */
  lemma SameLeadingComponentsSameOutput(serviceName: string, a: Interface, b: Interface, cc: ChangeCase)
    requires LeadingComponents(a.path) == LeadingComponents(b.path)
    ensures OutputFilePath(serviceName, a, cc) == OutputFilePath(serviceName, b, cc)
    ensures PreprocessInterface(a).Err? == PreprocessInterface(b).Err?
    ensures PreprocessInterface(a) == Ok(Skip) <==> PreprocessInterface(b) == Ok(Skip)
  {
    NameDeterminedByLeadingComponents(a.path, b.path);
    assert Occurrences(a.path, '/') == |Name(a.path)| || |Name(a.path)| == 2;
  }

  /** Two interfaces whose `dir/name` paths agree on the first three
      components get the same request and response type names. */
  lemma SameLeadingComponentsSameTypeNames(a: Interface, b: Interface, cc: ChangeCase)
    requires LeadingComponents(FullPath(a)) == LeadingComponents(FullPath(b))
    ensures RequestDataTypeName(a, cc) == RequestDataTypeName(b, cc)
    ensures ResponseDataTypeName(a, cc) == ResponseDataTypeName(b, cc)
  {
    NameDeterminedByLeadingComponents(FullPath(a), FullPath(b));
  }

  /** The first component of `a + tail` is `a` when `a` has no separator
      and `tail` is empty or starts with one. */
  lemma SplitHead(a: string, tail: string)
    requires '/' !in a
    requires tail == "" || tail[0] == '/'
    ensures Split(a + tail, '/')[0] == a
  {
    SplitNoSeparator(a, '/');
    if tail == "" {
      assert a + tail == a;
    } else {
      assert a + tail == a + "/" + tail[1..];
      SplitAppend(a, tail[1..], '/');
    }
  }

  /** The first kept component of a rooted path is the text between the
      first two separators (or after the only one). */
  lemma FirstKeptComponent(a: string, tail: string)
    requires '/' !in a
    requires tail == "" || tail[0] == '/'
    ensures |Name("/" + a + tail)| >= 1 && Name("/" + a + tail)[0] == a
  {
    var path := "/" + a + tail;
    assert path == "" + "/" + (a + tail);
    SplitAppend("", a + tail, '/');
    SplitHead(a, tail);
    var parts := Split(path, '/');
    assert parts == Split("", '/') + Split(a + tail, '/');
    assert parts[1] == a;
    assert '/' in path by {
      assert path[0] == '/';
    }
  }

  /** A rooted path with two components keeps both, and anything after a
      third separator is ignored. */
  lemma NameOfRootedPath(a: string, b: string, rest: string)
    requires '/' !in a && '/' !in b
    ensures Name("/" + a + "/" + b) == [a, b]
    ensures Name("/" + a + "/" + b + "/" + rest) == [a, b]
  {
    var path := "/" + a + "/" + b;
    assert path == "" + "/" + (a + "/" + b);
    SplitAppend("", a + "/" + b, '/');
    SplitAppend(a, b, '/');
    SplitNoSeparator(a, '/');
    SplitNoSeparator(b, '/');
    assert Split(path, '/') == [""] + ([a] + [b]);
    NameIgnoresTrailingSegments(path, rest);
  }

  /** Interfaces with the same kept components share a file and type names. */
  lemma SameNameSameArtifacts(serviceName: string, a: Interface, b: Interface, cc: ChangeCase)
    requires Name(a.path) == Name(b.path)
    requires Name(FullPath(a)) == Name(FullPath(b))
    ensures OutputFilePath(serviceName, a, cc) == OutputFilePath(serviceName, b, cc)
    ensures RequestDataTypeName(a, cc) == RequestDataTypeName(b, cc)
    ensures ResponseDataTypeName(a, cc) == ResponseDataTypeName(b, cc)
  {
  }

  /** Sibling endpoints of one controller, `/a/b/x` and `/a/b/y`, are
      different interfaces that share one output file and one pair of type
      names, whatever the case converters do. */
  lemma SiblingEndpointsCollide(serviceName: string, a: string, b: string, x: string, y: string,
                                cc: ChangeCase)
    requires '/' !in a && '/' !in b
    requires x != y
    ensures var ix := Interface("/" + a + "/" + b + "/" + x, "GET", ParsedPath("/" + a + "/" + b, x));
            var iy := Interface("/" + a + "/" + b + "/" + y, "GET", ParsedPath("/" + a + "/" + b, y));
            ix != iy
            && OutputFilePath(serviceName, ix, cc) == OutputFilePath(serviceName, iy, cc)
            && RequestDataTypeName(ix, cc) == RequestDataTypeName(iy, cc)
            && ResponseDataTypeName(ix, cc) == ResponseDataTypeName(iy, cc)
  {
    NameOfRootedPath(a, b, x);
    NameOfRootedPath(a, b, y);
    var ix := Interface("/" + a + "/" + b + "/" + x, "GET", ParsedPath("/" + a + "/" + b, x));
    var iy := Interface("/" + a + "/" + b + "/" + y, "GET", ParsedPath("/" + a + "/" + b, y));
    assert FullPath(ix) == ix.path && FullPath(iy) == iy.path;
    SameNameSameArtifacts(serviceName, ix, iy, cc);
  }

  /** The kept components sit right after the first component in the path:
      the path starts with component 0, a `/`, and the kept components
      joined by `/`. */
  lemma NameReassembles(path: string)
    requires '/' in path
    ensures StartsWith(path, Split(path, '/')[0] + "/" + Join(Name(path), "/"))
  {
    var xs := Split(path, '/');
    JoinSplit(path, '/');
    if |xs| == 2 {
      ReassembleTwo(xs);
    } else {
      ReassembleMore(xs);
    }
  }

  /** `NameReassembles` for a path with exactly one separator. */
  lemma ReassembleTwo(xs: seq<string>)
    requires |xs| == 2
    ensures Join(xs, "/") == xs[0] + "/" + Join(Slice(xs, 1, 3), "/")
  {
    assert Slice(xs, 1, 3) == [xs[1]];
    assert xs == [xs[0]] + [xs[1]];
    JoinCons(xs[0], [xs[1]], "/");
  }

  /** `NameReassembles` for a path with two separators or more. */
  lemma ReassembleMore(xs: seq<string>)
    requires |xs| >= 3
    ensures StartsWith(Join(xs, "/"), xs[0] + "/" + Join(Slice(xs, 1, 3), "/"))
  {
    var p := xs[0] + "/" + Join(xs[1..3], "/");
    assert Slice(xs, 1, 3) == xs[1..3];
    JoinFirstThree(xs);
    if |xs| > 3 {
      JoinSplitAt(xs, 3);
      PrefixOfConcat(p, "/" + Join(xs[3..], "/"));
    } else {
      assert xs[..3] == xs;
      PrefixOfConcat(p, "");
    }
  }

  /** Joining the first three components. */
  lemma JoinFirstThree(xs: seq<string>)
    requires |xs| >= 3
    ensures Join(xs[..3], "/") == xs[0] + "/" + Join(xs[1..3], "/")
  {
    assert xs[..3] == [xs[0]] + xs[1..3];
    JoinCons(xs[0], xs[1..3], "/");
  }

  /** Joining a list cut in two non-empty parts. */
  lemma JoinSplitAt(xs: seq<string>, k: nat)
    requires 1 <= k < |xs|
    ensures Join(xs, "/") == Join(xs[..k], "/") + "/" + Join(xs[k..], "/")
  {
    assert xs == xs[..k] + xs[k..];
    JoinAppend(xs[..k], xs[k..], "/");
  }

  /** A string starts with each of its prefixes. */
  lemma PrefixOfConcat(p: string, q: string)
    ensures StartsWith(p + q, p)
  {
    assert (p + q)[..|p|] == p;
  }

  /** `mini-` services are dropped. */
  lemma FilterDropsMiniServices()
    ensures PreprocessInterface(Interface("/mini-app/foo/bar", "GET",
                                          ParsedPath("/mini-app/foo", "bar"))) == Ok(Skip)
  {
    FirstKeptComponent("mini-app", "/foo/bar");
    assert "/" + "mini-app" + "/foo/bar" == "/mini-app/foo/bar";
    assert StartsWith("mini-app", "mini-");
  }

  /** `app-` services are dropped. */
  lemma FilterDropsAppServices()
    ensures PreprocessInterface(Interface("/app-x/foo", "GET", ParsedPath("/app-x", "foo"))) == Ok(Skip)
  {
    FirstKeptComponent("app-x", "/foo");
    assert "/" + "app-x" + "/foo" == "/app-x/foo";
    assert StartsWith("app-x", "app-");
  }

  /** The test is a prefix test, so `feignClient` is dropped too. */
  lemma FilterDropsFeignPrefix()
    ensures PreprocessInterface(Interface("/feignClient/foo", "GET",
                                          ParsedPath("/feignClient", "foo"))) == Ok(Skip)
  {
    FirstKeptComponent("feignClient", "/foo");
    assert "/" + "feignClient" + "/foo" == "/feignClient/foo";
    assert StartsWith("feignClient", "feign");
  }

  /** `app-` needs its hyphen: `appx` is kept. */
  lemma FilterKeepsAppWithoutHyphen()
    ensures var i := Interface("/appx/foo", "GET", ParsedPath("/appx", "foo"));
            PreprocessInterface(i) == Ok(Keep(i))
  {
    FirstKeptComponent("appx", "/foo");
    assert "/" + "appx" + "/foo" == "/appx/foo";
    assert !StartsWith("appx", "mini-") && !StartsWith("appx", "feign");
    assert !StartsWith("appx", "app-") by {
      assert "appx"[3] != "app-"[3];
    }
  }

  /** An ordinary controller is kept, and the record is passed through. */
  lemma FilterKeepsOrdinaryPath()
    ensures var i := Interface("/process/list", "GET", ParsedPath("/process", "list"));
            PreprocessInterface(i) == Ok(Keep(i))
  {
    FirstKeptComponent("process", "/list");
    assert "/" + "process" + "/list" == "/process/list";
    var w := "process";
    assert w[0] != "mini-"[0] && w[0] != "app-"[0] && w[0] != "feign"[0];
    assert !StartsWith(w, "mini-") && !StartsWith(w, "app-") && !StartsWith(w, "feign");
  }

  /** A path without `/` makes the filter throw, the empty path included. */
  lemma FilterThrowsWithoutSeparator()
    ensures PreprocessInterface(Interface("", "GET", ParsedPath("", ""))) == Err(FirstPartUndefined)
    ensures PreprocessInterface(Interface("health", "GET", ParsedPath("", "health"))) == Err(FirstPartUndefined)
  {
    assert '/' !in "health";
  }

  /** The middle of the output path gives back, when split on `/`, exactly
      the param-cased kept components of the raw path, in order, provided
      the converter put no `/` into them. */
  lemma OutputFilePathComponents(serviceName: string, info: Interface, cc: ChangeCase)
    requires |Name(info.path)| >= 1
    requires forall i :: 0 <= i < |Name(info.path)| ==> '/' !in cc.paramCase(Name(info.path)[i])
    ensures var r := OutputFilePath(serviceName, info, cc);
            var lo := |ServiceDir(serviceName)|;
            lo <= |r| - 3
            && Split(r[lo..|r| - 3], '/') == MapSeq(cc.paramCase, Name(info.path))
  {
    var parts := MapSeq(cc.paramCase, Name(info.path));
    var middle := Join(parts, "/");
    var r := OutputFilePath(serviceName, info, cc);
    var dir := ServiceDir(serviceName);
    assert r == dir + middle + ".ts";
    assert r[|dir|..|r| - 3] == middle;
    SplitJoin(parts, '/');
  }

  /** The output file of a rooted path is named after its first two
      components, param-cased; deeper components are ignored. */
  lemma OutputFilePathOfRootedPath(serviceName: string, a: string, b: string, rest: string,
                                   cc: ChangeCase)
    requires '/' !in a && '/' !in b
    ensures var expected := ServiceDir(serviceName) + cc.paramCase(a) + "/" + cc.paramCase(b) + ".ts";
            OutputFilePath(serviceName, Interface("/" + a + "/" + b, "GET", ParsedPath("/" + a, b)), cc)
              == expected
            && OutputFilePath(serviceName, Interface("/" + a + "/" + b + "/" + rest, "GET",
                                                     ParsedPath("/" + a + "/" + b, rest)), cc)
              == expected
  {
    NameOfRootedPath(a, b, rest);
    assert MapSeq(cc.paramCase, [a, b]) == [cc.paramCase(a), cc.paramCase(b)];
    JoinCons(cc.paramCase(a), [cc.paramCase(b)], "/");
  }

  /** The type names of a rooted path are its first two components,
      pascal-cased and run together, plus the suffix; deeper components are
      ignored. */
  lemma TypeNamesOfRootedPath(a: string, b: string, rest: string, cc: ChangeCase)
    requires '/' !in a && '/' !in b
    ensures var base := cc.pascalCase(a) + cc.pascalCase(b);
            var short := Interface("/" + a + "/" + b, "GET", ParsedPath("/" + a, b));
            var long := Interface("/" + a + "/" + b + "/" + rest, "GET", ParsedPath("/" + a + "/" + b, rest));
            ApiInterfaceName(short, cc) == base && ApiInterfaceName(long, cc) == base
            && RequestDataTypeName(short, cc) == base + "Req"
            && ResponseDataTypeName(long, cc) == base + "Res"
  {
    NameOfRootedPath(a, b, rest);
    var short := Interface("/" + a + "/" + b, "GET", ParsedPath("/" + a, b));
    var long := Interface("/" + a + "/" + b + "/" + rest, "GET", ParsedPath("/" + a + "/" + b, rest));
    assert FullPath(short) == "/" + a + "/" + b;
    assert FullPath(long) == "/" + a + "/" + b + "/" + rest;
  }

  /** Request and response type names share the interface name as a base
      and differ only in their last letter, so they never clash. */
  lemma RequestResponseNamesDiffer(info: Interface, cc: ChangeCase)
    ensures var req := RequestDataTypeName(info, cc);
            var res := ResponseDataTypeName(info, cc);
            var base := ApiInterfaceName(info, cc);
            req != res
            && |req| == |res| == |base| + 3
            && req[..|base|] == res[..|base|] == base
            && req[..|req| - 1] == res[..|res| - 1]
  {
    var req := RequestDataTypeName(info, cc);
    var res := ResponseDataTypeName(info, cc);
    assert req[|req| - 1] == 'q' && res[|res| - 1] == 's';
  }

  /** The type names come from the components of `dir` followed by those of
      the base name, so a directory of three or more components decides them
      alone. */
  lemma TypeNameComponents(info: Interface)
    ensures Name(FullPath(info))
         == Slice(Split(info.parsedPath.dir, '/') + Split(info.parsedPath.name, '/'), 1, 3)
    ensures Occurrences(info.parsedPath.dir, '/') >= 2 ==>
            Name(FullPath(info)) == Name(info.parsedPath.dir)
  {
    SplitAppend(info.parsedPath.dir, info.parsedPath.name, '/');
    if Occurrences(info.parsedPath.dir, '/') >= 2 {
      NameIgnoresTrailingSegments(info.parsedPath.dir, info.parsedPath.name);
    }
  }
}
