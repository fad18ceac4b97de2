/** Sarver resolves the paths of a build step that it receives, and prepares the directories of its outputs
    (Sarver/plan.go). */
module PlanSteps {
  import opened Prelude
  import opened Paths
  import opened RemotePaths

  /** unicode.IsSpace */
  predicate IsSpace(c: char) {
    var n := c as int;
    n == 0x20 || 0x09 <= n <= 0x0D || n == 0x85 || n == 0xA0 || n == 0x1680 || 0x2000 <= n <= 0x200A
    || n == 0x2028 || n == 0x2029 || n == 0x202F || n == 0x205F || n == 0x3000
  }

  /** strings.TrimSpace */
  function TrimSpace(s: string): (t: string)
    ensures |t| <= |s| && (|t| == |s| ==> t == s)
    ensures t == s <==> s == "" || (!IsSpace(s[0]) && !IsSpace(s[|s| - 1]))
  {
    if s == "" then s
    else if IsSpace(s[0]) then TrimSpace(s[1..])
    else if IsSpace(s[|s| - 1]) then TrimSpace(s[..|s| - 1])
    else s
  }

  /** White space as Unicode lists it. */
  predicate WhiteSpace(c: char) {
    || c == '\t' || c == '\n' || c as int == 0x0B || c as int == 0x0C || c == '\r' || c == ' '
    || c as int in {0x85, 0xA0, 0x1680, 0x2028, 0x2029, 0x202F, 0x205F, 0x3000}
    || c as int in {0x2000, 0x2001, 0x2002, 0x2003, 0x2004, 0x2005, 0x2006, 0x2007, 0x2008, 0x2009, 0x200A}
  }

  predicate AllWhite(s: string) {
    forall i :: 0 <= i < |s| ==> WhiteSpace(s[i])
  }

  /** Trimming takes exactly the white space around a text away. */
  lemma {:induction false} TrimSpaceIs(s: string) returns (before: string, after: string)
    ensures s == before + TrimSpace(s) + after && AllWhite(before) && AllWhite(after)
    ensures var t := TrimSpace(s); t == "" || (!WhiteSpace(t[0]) && !WhiteSpace(t[|t| - 1]))
    decreases |s|
  {
    hide IsSpace, WhiteSpace, TrimSpace;
    before, after := "", "";
    TrimUnfold(s);
    if s != "" {
      SpaceIsWhite(s[0]);
      SpaceIsWhite(s[|s| - 1]);
      if IsSpace(s[0]) {
        before, after := TrimSpaceIs(s[1..]);
        TakeFront(s, before, TrimSpace(s[1..]), after);
        before := [s[0]] + before;
      } else if IsSpace(s[|s| - 1]) {
        before, after := TrimSpaceIs(s[..|s| - 1]);
        TakeBack(s, before, TrimSpace(s[..|s| - 1]), after);
        after := after + [s[|s| - 1]];
      } else {
        assert s == "" + s + "";
      }
    }
  }

  lemma TrimUnfold(s: string)
    ensures TrimSpace(s) == if s == "" then s
                            else if IsSpace(s[0]) then TrimSpace(s[1..])
                            else if IsSpace(s[|s| - 1]) then TrimSpace(s[..|s| - 1])
                            else s
  {
  }

  lemma TakeFront(s: string, a: string, b: string, c: string)
    requires s != "" && s[1..] == a + b + c
    ensures s == [s[0]] + a + b + c
  {
    assert s == [s[0]] + s[1..];
  }

  lemma TakeBack(s: string, a: string, b: string, c: string)
    requires s != "" && s[..|s| - 1] == a + b + c
    ensures s == a + b + (c + [s[|s| - 1]])
  {
    assert s == s[..|s| - 1] + [s[|s| - 1]];
  }

  lemma SpaceIsWhite(c: char)
    ensures IsSpace(c) <==> WhiteSpace(c)
  {
  }

  /** resolveWorkspacePath */
  function ResolveWorkspacePath(src: Comps, raw: string): Result<Comps> {
    var t := TrimSpace(raw);
    var c := Clean(false, CompsOf(t));
    if IsAbs(t) then Err
    else if c == [] then Ok(src)
    else if ".." <= c[0] then Err
    else
      var abs := CleanOnto(true, src, c);
      if IsWithinBase(src, abs) then Ok(abs) else Err
  }

  /** resolvePlanStepPath */
  function ResolvePlanStepPath(src: Comps, wd: Comps, raw: string): Result<Comps> {
    var t := TrimSpace(raw);
    var c := Clean(false, CompsOf(t));
    if IsAbs(t) || c == [] then Err
    else
      var abs := CleanOnto(true, wd, c);
      if IsWithinBase(src, abs) then Ok(abs) else Err
  }

  /** The directory buildPlanStepCommand runs a step in. */
  function StepDirectory(src: Comps, raw: string): Result<Comps> {
    if TrimSpace(raw) != "" then ResolveWorkspacePath(src, raw) else Ok(src)
  }

  /** How long a path is when it is written out, one slash after every component. */
  function Length(cs: Comps): nat {
    if cs == [] then 0 else |cs[0]| + 1 + Length(cs[1..])
  }

  lemma {:induction false} LengthConcat(a: Comps, b: Comps)
    ensures Length(a + b) == Length(a) + Length(b)
  {
    if a == [] {
      assert a + b == b;
    } else {
      assert (a + b)[1..] == a[1..] + b;
      LengthConcat(a[1..], b);
    }
  }

  lemma {:induction false} LengthJoin(cs: Comps)
    requires cs != []
    ensures Length(cs) == |Join(cs, '/')| + 1
  {
    if |cs| > 1 { LengthJoin(cs[1..]); }
  }

  /** Clean never makes a path longer. */
  lemma {:induction false} CleanShortens(rooted: bool, stack: Comps, cs: Comps)
    ensures Length(CleanOnto(rooted, stack, cs)) <= Length(stack) + Length(cs)
    decreases cs
  {
    if cs != [] {
      var next := Push(rooted, stack, cs[0]);
      if stack != [] {
        LengthConcat(stack[..|stack| - 1], [stack[|stack| - 1]]);
        assert stack == stack[..|stack| - 1] + [stack[|stack| - 1]];
      }
      LengthConcat(stack, [cs[0]]);
      CleanShortens(rooted, next, cs[1..]);
    }
  }

  lemma {:induction false} CleanRelative(up: nat, s: Comps, cs: Comps)
    requires Names(s) && forall p <- cs :: Free(p, '/')
    ensures var (k, n) := Walk(up, s, cs); CleanOnto(false, Dots(up) + s, cs) == Dots(k) + n
    decreases cs
  {
    hide CleanOnto;
    CleanStep(false, Dots(up) + s, cs);
    if cs != [] {
      var stack, p, rest := Dots(up) + s, cs[0], cs[1..];
      assert p in cs && forall q <- rest :: q in cs;
      DotsAre(up);
      if p == "" || p == "." {
        CleanRelative(up, s, rest);
      } else if p == ".." {
        if s != [] {
          assert stack[|stack| - 1] == s[|s| - 1] && s[|s| - 1] in s;
          assert stack[..|stack| - 1] == Dots(up) + s[..|s| - 1];
          assert forall q <- s[..|s| - 1] :: q in s;
          CleanRelative(up, s[..|s| - 1], rest);
        } else {
          DotsAre(up + 1);
          assert stack + [".."] == Dots(up + 1) + [];
          CleanRelative(up + 1, [], rest);
        }
      } else {
        assert stack + [p] == Dots(up) + (s + [p]);
        CleanRelative(up, s + [p], rest);
      }
    }
  }

  /** A path of the workspace, written out, that has no white space around it and does not start with two dots,
      even as part of a name. */
  predicate PlainPath(rel: Comps) {
    rel == [] || (TrimSpace(Render(rel)) == Render(rel) && !(".." <= rel[0]))
  }

  /** The worker runs a step in the directory it was meant for exactly when that is a plain path, */
  lemma StepDirectoryIs(src: Comps, rel: Comps)
    requires Names(src) && Names(rel)
    ensures StepDirectory(src, RemoteDirectory(rel)) == Ok(src + rel) <==> PlainPath(rel)
  {
    ArtifactFound(src, rel);
    assert rel == [] ==> src + rel == src;
    if rel != [] {
      RenderComps(false, [], rel);
      if TrimSpace(Render(rel)) == "" { assert |src + rel| > |src|; }
    }
    hide ResolveWorkspacePath;
  }

  /** and so it is with the artifact that the client asks for. */
  lemma ArtifactFound(src: Comps, rel: Comps)
    requires Names(src) && Names(rel)
    ensures ResolveWorkspacePath(src, Render(rel)) == Ok(src + rel) <==> PlainPath(rel)
  {
    if rel == [] {
      assert src + rel == src;
      RenderComps(false, [], rel);
    } else {
      var raw := Render(rel);
      var t := TrimSpace(raw);
      RenderComps(false, [], rel);
      LengthJoin(rel);
      assert src + rel != src by { assert |src + rel| > |src|; }
      if t == raw {
        CleanOntoNames(false, [], rel);
        assert [] + rel == rel;
        CleanOntoNames(true, src, rel);
        assert forall p <- src + rel :: p in src || p in rel;
        WithinIsPrefix(src, src + rel);
      } else if !IsAbs(t) && Clean(false, CompsOf(t)) != [] && !(".." <= Clean(false, CompsOf(t))[0]) {
        TrimmedDirectory(src, t, rel);
      }
    }
  }

  /** A shorter spelling cannot resolve to the same directory. */
  lemma TrimmedDirectory(src: Comps, t: string, rel: Comps)
    requires Names(src) && Names(rel) && |t| + 1 < Length(rel)
    requires !IsAbs(t) && var c := Clean(false, CompsOf(t)); c != [] && !(".." <= c[0])
    ensures CleanOnto(true, src, Clean(false, CompsOf(t))) != src + rel
  {
    var cs := CompsOf(t);
    CleanRelative(0, [], cs);
    WalkOnlyClimbs(0, [], cs);
    var (k, n) := Walk(0, [], cs);
    DotsAre(k);
    CleanOntoNames(true, src, n);
    CleanShortens(false, [], cs);
    LengthJoin(cs);
    JoinSplit(t, '/');
    assert Dots(0) + n == n && Dots(0) + [] == [];
    SameTail(src, n, rel);
  }

  lemma SameTail(a: Comps, b: Comps, c: Comps)
    ensures a + b == a + c ==> b == c
  {
    assert (a + b)[|a|..] == b && (a + c)[|a|..] == c;
  }

  lemma {:induction false} CleanAllDots(stack: Comps, n: nat)
    requires Names(stack)
    ensures CleanOnto(true, stack, Dots(n)) == stack[..Max(|stack| - n, 0)]
    decreases n
  {
    hide CleanOnto;
    CleanStep(true, stack, Dots(n));
    if n > 0 {
      assert Dots(n)[1..] == Dots(n - 1);
      if stack == [] {
        CleanAllDots([], n - 1);
      } else {
        var s1 := stack[..|stack| - 1];
        assert stack[|stack| - 1] in stack && forall p <- s1 :: p in stack;
        CleanAllDots(s1, n - 1);
        assert s1[..Max(|s1| - (n - 1), 0)] == stack[..Max(|stack| - n, 0)];
      }
    }
  }

  lemma {:induction false} LengthDots(n: nat)
    ensures Length(Dots(n)) == 3 * n
  {
    if n > 0 {
      assert Dots(n)[1..] == Dots(n - 1);
      LengthDots(n - 1);
    }
  }

  lemma DotsThenNames(dir: Comps, target: Comps, k: nat, n: Comps)
    requires Names(dir) && Names(n) && CleanOnto(true, dir, Dots(k) + n) == target
    ensures Length(Rel(dir, target)) <= Length(Dots(k) + n)
  {
    hide CleanOnto, CommonPrefix, Name, Length, Dots;
    var m := Max(|dir| - k, 0);
    CleanOntoConcat(true, dir, Dots(k), n);
    CleanAllDots(dir, k);
    CleanOntoNames(true, dir[..m], n);
    assert target == dir[..m] + n;
    CommonPrefixIs(dir, target);
    var c := CommonPrefix(dir, target);
    CommonPrefixMax(dir, target, m);
    assert n == target[m..] == target[m..c] + target[c..];
    LengthConcat(target[m..c], target[c..]);
    LengthConcat(Dots(k), n);
    LengthConcat(Dots(|dir| - c), target[c..]);
    LengthDots(k);
    LengthDots(|dir| - c);
  }

  /** No relative path, however it is spelled, that leads from dir to target is shorter than the one sent. */
  lemma RelShortest(dir: Comps, target: Comps, raw: string)
    requires Names(dir) && raw != "" && !IsAbs(raw) && Resolve(dir, raw) == target
    ensures |Render(Rel(dir, target))| <= |raw|
  {
    hide CleanOnto, Rel, Length, Dots, Name;
    var cs := CompsOf(raw);
    CleanRelative(0, [], cs);
    WalkOnlyClimbs(0, [], cs);
    var (k, n) := Walk(0, [], cs);
    CleanTwice(dir, [], cs);
    CleanStep(true, dir, []);
    DotsAre(0);
    assert Dots(0) + [] == [];
    DotsThenNames(dir, target, k, n);
    CleanShortens(false, [], cs);
    LengthJoin(cs);
    JoinSplit(raw, '/');
    LengthNone();
    if Rel(dir, target) != [] { LengthJoin(Rel(dir, target)); }
  }

  lemma LengthNone()
    ensures Length([]) == 0
  {
  }

  /** The spelling of a rewritten output, and what it resolves to. */
  lemma OutputSpelling(src: Comps, a: Comps, b: Comps)
    requires Names(src) && Names(a) && Names(b)
    ensures var rel := Rel(src + a, src + b);
            && Names(src + a) && Names(src + b) && IsWithinBase(src, src + b) && !IsAbs(Render(rel))
            && CleanOnto(true, src + a, rel) == src + b && Clean(false, CompsOf(Render(rel))) == rel
            && (rel == [] <==> a == b)
  {
    hide CleanOnto, Name, IsWithinBase, Rel, Render, CompsOf;
    var wd, target := src + a, src + b;
    NamesConcat(src, a);
    NamesConcat(src, b);
    RelParts(wd, target);
    RenderComps(false, [], Rel(wd, target));
    RelShift(src, a, b);
    RelResolves(wd, target);
    WithinIsPrefix(src, target);
    RelCleans(a, b);
    NothingCleans(wd);
    SameTail(src, a, b);
    RelToItself(a, b);
  }

  lemma NamesConcat(a: Comps, b: Comps)
    requires Names(a) && Names(b)
    ensures Names(a + b)
  {
    hide Name;
    assert forall p <- a + b :: p in a || p in b;
  }

  lemma NothingCleans(wd: Comps)
    ensures CleanOnto(true, wd, []) == wd
  {
  }

  lemma RelCleans(a: Comps, b: Comps)
    requires Names(a) && Names(b)
    ensures Clean(false, Rel(a, b)) == Rel(a, b)
  {
    hide CleanOnto, Dots, Name, CommonPrefix;
    CommonPrefixIs(a, b);
    var k := CommonPrefix(a, b);
    assert forall p <- b[k..] :: p in b;
    RelIsClean(|a| - k, b[k..]);
  }

  lemma RelToItself(a: Comps, b: Comps)
    ensures a == b ==> Rel(a, b) == []
  {
    if a == b {
      CommonPrefixMax(a, b, |a|);
      CommonPrefixIs(a, b);
    }
  }

  /** The worker accepts a rewritten output, as the same file of the tree, exactly when it is not the working
      directory itself and its spelling has no white space around it. */
  lemma OutputAccepted(src: Comps, a: Comps, b: Comps)
    requires Names(src) && Names(a) && Names(b)
    ensures var raw := Render(Rel(src + a, src + b));
            ResolvePlanStepPath(src, src + a, raw) == Ok(src + b) <==> a != b && TrimSpace(raw) == raw
  {
    hide CleanOnto, Rel, IsWithinBase, Name, CompsOf;
    OutputSpelling(src, a, b);
    var raw := Render(Rel(src + a, src + b));
    if a != b && TrimSpace(raw) != raw { TrimmedOutput(src + a, src + b, TrimSpace(raw)); }
  }

  /** Paths that are not accepted exist: a directory or artifact whose name starts with two dots is refused, and so
      is an output that is the working directory; */
  lemma TwoDotsRefused(src: Comps, dir: Comps, name: string)
    requires Names(src) && Names(dir) && Name(name) && ".." <= name && TrimSpace(name) == name
    ensures StepDirectory(src, RemoteDirectory([name])) == Err && ResolveWorkspacePath(src, Render([name])) == Err
    ensures ResolvePlanStepPath(src, src + dir, Render(Rel(src + dir, src + dir))) == Err
  {
    hide CleanOnto, Rel, IsWithinBase;
    SplitFree(name, '/');
    CleanOne(false, [], name);
    OutputSpelling(src, dir, dir);
    assert TrimSpace(".") == ".";
  }

  /** a name that starts with a space leads somewhere else. */
  lemma SpaceLeadsElsewhere(src: Comps, dir: Comps, name: string)
    requires Names(src) && Names(dir) && Name(name) && !(".." <= name) && TrimSpace(name) == name
    ensures StepDirectory(src, RemoteDirectory([" " + name])) == Ok(src + [name])
    ensures ResolvePlanStepPath(src, src + dir, " " + name) == Ok(src + dir + [name])
  {
    hide CleanOnto, Rel, IsWithinBase, Name;
    var raw := " " + name;
    assert raw[1..] == name && IsSpace(raw[0]) && TrimSpace(raw) == name;
    OneName(src, [], name);
    OneName(src, dir, name);
    assert src + [] == src;
    hide TrimSpace;
  }

  lemma OneName(src: Comps, dir: Comps, name: string)
    requires Names(src) && Names(dir) && Name(name)
    ensures CompsOf(name) == [name] && Clean(false, [name]) == [name] && !IsAbs(name) && name != ""
    ensures CleanOnto(true, src + dir, [name]) == src + dir + [name] && IsWithinBase(src, src + dir + [name])
  {
    hide CleanOnto, IsWithinBase;
    SplitFree(name, '/');
    CleanOne(false, [], name);
    CleanOne(true, src + dir, name);
    assert name[0] in name;
    forall p <- src + dir + [name]
      ensures Name(p)
    {
      assert p in src || p in dir || p == name;
    }
    WithinIsPrefix(src, src + dir + [name]);
  }

  lemma RelIsClean(k: nat, n: Comps)
    requires Names(n)
    ensures Clean(false, Dots(k) + n) == Dots(k) + n
  {
    CleanOntoConcat(false, [], Dots(k), n);
    DotsClean(0, k);
    CleanOntoNames(false, Dots(k), n);
  }

  lemma {:induction false} DotsClean(j: nat, k: nat)
    ensures CleanOnto(false, Dots(j), Dots(k)) == Dots(j + k)
    decreases k
  {
    hide CleanOnto;
    CleanStep(false, Dots(j), Dots(k));
    if k > 0 {
      DotsAre(j);
      DotsAre(j + 1);
      assert Dots(j) + [".."] == Dots(j + 1);
      assert Dots(k)[1..] == Dots(k - 1);
      DotsClean(j + 1, k - 1);
    }
  }

  lemma TrimmedOutput(wd: Comps, target: Comps, t: string)
    requires Names(wd) && Names(target) && Rel(wd, target) != [] && |t| < |Render(Rel(wd, target))|
    ensures CleanOnto(true, wd, Clean(false, CompsOf(t))) != target
  {
    var cs := CompsOf(t);
    CleanRelative(0, [], cs);
    WalkOnlyClimbs(0, [], cs);
    var (k, n) := Walk(0, [], cs);
    CleanShortens(false, [], cs);
    LengthJoin(cs);
    JoinSplit(t, '/');
    LengthJoin(Rel(wd, target));
    assert Dots(0) + [] == [];
    if CleanOnto(true, wd, Dots(k) + n) == target { DotsThenNames(wd, target, k, n); }
  }

  // ---------------------------------------------------------------- the files a step writes

  /** The loop of collectLinkerOutputPaths; awaits says that the previous option takes this part as its path. */
  function CollectLinkerOutputPaths(parts: seq<string>, awaits: bool): seq<string>
    decreases |parts|
  {
    if parts == [] then []
    else
      CollectPart(parts[0], awaits)
      + CollectLinkerOutputPaths(parts[1..], !awaits && Cut(parts[0]).None? && LinkerOptionWritesFile(parts[0]))
  }

  function CollectPart(part: string, awaits: bool): seq<string> {
    var cut := Cut(part);
    if awaits then [part]
    else if cut.Some? && LinkerOptionWritesFile(cut.value.0) && TrimSpace(cut.value.1) != "" then [cut.value.1]
    else []
  }

  /** collectLinkerOutputPaths */
  method CollectLinkerOutputs(arg: string) returns (paths: seq<string>)
    ensures paths == CollectLinkerOutputPaths(Split(arg, ',')[1..], false)
  {
    hide CollectLinkerOutputPaths, Cut, Split, TrimSpace, LinkerOptionWritesFile;
    var parts := Split(arg, ',');
    var expectPath, i := false, 1;
    paths := [];
    CollectNone();
    while i < |parts|
      invariant 1 <= i <= |parts|
      invariant paths + CollectLinkerOutputPaths(parts[i..], expectPath) == CollectLinkerOutputPaths(parts[1..], false)
    {
      var part, cut := parts[i], Cut(parts[i]);
      CollectStep(parts[i..], expectPath);
      assert parts[i..][1..] == parts[i + 1..];
      Regroup(paths, CollectPart(part, expectPath),
              CollectLinkerOutputPaths(parts[i + 1..], !expectPath && cut.None? && LinkerOptionWritesFile(part)));
      ghost var before, awaited := paths, expectPath;
      if expectPath {
        paths, expectPath := paths + [part], false;
      } else if cut.Some? {
        if LinkerOptionWritesFile(cut.value.0) && TrimSpace(cut.value.1) != "" {
          paths := paths + [cut.value.1];
        }
      } else if LinkerOptionWritesFile(part) {
        expectPath := true;
      }
      assert paths == before + CollectPart(part, awaited);
      i := i + 1;
    }
    assert parts[i..] == [] && paths + [] == paths;
  }

  lemma CollectNone()
    ensures forall awaits :: CollectLinkerOutputPaths([], awaits) == []
    ensures forall s: seq<string> :: [] + s == s
  {
  }

  lemma CollectStep(parts: seq<string>, awaits: bool)
    ensures CollectLinkerOutputPaths(parts, awaits)
            == if parts == [] then []
               else CollectPart(parts[0], awaits)
                    + CollectLinkerOutputPaths(parts[1..], !awaits && Cut(parts[0]).None? && LinkerOptionWritesFile(parts[0]))
  {
  }

  /** What collectPlanOutputPaths finds at the head of args. */
  function CollectHead(args: seq<string>): (r: (seq<string>, nat))
    requires args != []
    ensures 1 <= r.1 <= |args|
  {
    var arg := args[0];
    if arg == "-o" || arg == "-MF" then
      if |args| > 1 then ([args[1]], 2) else ([], 1)
    else if "-o" < arg then ([arg[2..]], 1)
    else if "-MF" < arg then ([arg[3..]], 1)
    else if "-Wl," <= arg then (CollectLinkerOutputPaths(Split(arg, ',')[1..], false), 1)
    else ([], 1)
  }

  function Collect(args: seq<string>): seq<string>
    decreases |args|
  {
    if args == [] then []
    else
      var (paths, used) := CollectHead(args);
      paths + Collect(args[used..])
  }

  /** collectPlanOutputPaths */
  method CollectPlanOutputPaths(args: seq<string>) returns (paths: seq<string>)
    ensures paths == Collect(args)
  {
    hide CollectHead;
    paths := [];
    var i := 0;
    while i < |args|
      invariant 0 <= i <= |args|
      invariant paths + Collect(args[i..]) == Collect(args)
    {
      var (found, used) := CollectHead(args[i..]);
      assert args[i..][used..] == args[i + used..];
      paths, i := paths + found, i + used;
    }
  }

  function WrittenPart(part: LinkPart): seq<Ref> {
    match part
    case PathAfter(option, f) => if LinkerOptionNamesOutput(option) then [f] else []
    case OptionPath(option, f) => if LinkerOptionNamesOutput(option) && f != NoPath then [f] else []
    case Plain(_) => []
  }

  function WrittenParts(parts: seq<LinkPart>): seq<Ref> {
    if parts == [] then [] else WrittenPart(parts[0]) + WrittenParts(parts[1..])
  }

  function Written(t: Token): seq<Ref> {
    match t
    case FlagValue(flag, f) => if flag == "-o" || flag == "-MF" then [f] else []
    case AttachedPath(flag, f) => if flag == "-o" || flag == "-MF" then [f] else []
    case Linker(parts) => WrittenParts(parts)
    case _ => []
  }

  /** The files a command writes, as far as its options say. */
  function FilesWritten(ts: seq<Token>): seq<Ref> {
    if ts == [] then [] else Written(ts[0]) + FilesWritten(ts[1..])
  }

  function RefsOf(root: Comps, wd: Comps, raws: seq<string>): seq<Ref> {
    if raws == [] then [] else [RefOf(root, wd, raws[0])] + RefsOf(root, wd, raws[1..])
  }

  lemma {:induction false} RefsOfConcat(root: Comps, wd: Comps, a: seq<string>, b: seq<string>)
    ensures RefsOf(root, wd, a + b) == RefsOf(root, wd, a) + RefsOf(root, wd, b)
  {
    if a == [] {
      assert a + b == b;
    } else {
      assert (a + b)[1..] == a[1..] + b;
      RefsOfConcat(root, wd, a[1..], b);
    }
  }

  /** The worker takes a part that it was not told to expect for an output, or for an option that names one. */
  predicate PartRead(part: string) {
    var cut := Cut(part);
    if cut.Some? then LinkerOptionWritesFile(cut.value.0) && TrimSpace(cut.value.1) != "" else LinkerOptionWritesFile(part)
  }

  /** The worker reads a linker part as the linker does: a path that it does not expect does not look like an
      option to it, and no output is named by white space alone. */
  predicate OrdinaryPart(part: string, after: Option<string>) {
    var cut := Cut(part);
    if after.Some? then WorkerAwaits(after) || !PartRead(part)
    else cut.Some? && LinkerOptionWritesFile(cut.value.0) && TrimSpace(cut.value.1) == "" ==> cut.value.1 == ""
  }

  predicate OrdinaryParts(parts: seq<string>, after: Option<string>)
    decreases |parts|
  {
    parts == [] || (OrdinaryPart(parts[0], after) && OrdinaryParts(parts[1..], NextAfter(parts[0], after)))
  }

  /** The worker takes an argument for one that names an output, or that makes the next one an output. */
  predicate WorkerReads(arg: string) {
    "-o" <= arg || "-MF" <= arg || ("-Wl," <= arg && CollectLinkerOutputPaths(Split(arg, ',')[1..], false) != [])
  }

  /** The flags whose value the worker does not know to be one. */
  predicate HidesValue(flag: string) {
    ConsumesPathValue(flag) && !OutputFlag(flag)
  }

  /** The worker reads the head of args as the driver does. */
  predicate OrdinaryHead(args: seq<string>)
    requires args != []
  {
    if HidesValue(args[0]) then |args| > 1 ==> !WorkerReads(args[1])
    else "-Wl," <= args[0] ==> OrdinaryParts(Split(args[0], ',')[1..], None)
  }

  predicate Ordinary(root: Comps, wd: Comps, args: seq<string>)
    decreases |args|
  {
    args == [] || (OrdinaryHead(args) && Ordinary(root, wd, args[HeadToken(root, wd, args).1..]))
  }

  /** One turn of the worker's loop keeps in step with the linker exactly on ordinary parts. */
  lemma PartCollected(root: Comps, wd: Comps, part: string, after: Option<string>)
    ensures OrdinaryPart(part, after) <==>
            && RefsOf(root, wd, CollectPart(part, WorkerAwaits(after))) == WrittenPart(LinkPartOf(root, wd, part, after))
            && (!WorkerAwaits(after) && Cut(part).None? && LinkerOptionWritesFile(part) <==> WorkerAwaits(NextAfter(part, after)))
  {
    CutIs(part);
    RefIsPath(root, wd, if Cut(part).Some? then Cut(part).value.1 else "");
    hide RefOf;
  }

  lemma {:induction false} PartsCollected(root: Comps, wd: Comps, parts: seq<string>, after: Option<string>)
    requires OrdinaryParts(parts, after)
    ensures RefsOf(root, wd, CollectLinkerOutputPaths(parts, WorkerAwaits(after)))
            == WrittenParts(LinkParts(root, wd, parts, after))
    decreases |parts|
  {
    if parts != [] {
      var part, next := parts[0], NextAfter(parts[0], after);
      var awaits := WorkerAwaits(after);
      PartsCollected(root, wd, parts[1..], next);
      PartCollected(root, wd, part, after);
      RefsOfConcat(root, wd, CollectPart(part, awaits),
                   CollectLinkerOutputPaths(parts[1..], WorkerAwaits(next)));
      assert LinkParts(root, wd, parts, after)[1..] == LinkParts(root, wd, parts[1..], next);
      hide CollectPart, NextAfter, LinkPartOf, WrittenPart, LinkerOptionWritesFile, OrdinaryPart, Cut;
    }
  }

  /** The flags that name outputs, as the worker and the driver recognise them. */
  predicate OutputFlag(flag: string) {
    flag == "-o" || flag == "-MF"
  }

  lemma ConsumedFlag(arg: string)
    requires ConsumesPathValue(arg)
    ensures OutputFlag(arg) || (!("-o" <= arg) && !("-MF" <= arg))
    ensures !("-o" < arg) && !("-MF" < arg) && !("-Wl," <= arg)
  {
    assert arg[1] != 'W';
    if arg[1] == 'M' || arg[1] == 'o' { assert OutputFlag(arg); }
  }

  lemma AttachedFlag(arg: string)
    requires !ConsumesPathValue(arg)
    ensures var prefix := SplitAttachedPathFlag(arg);
            ("-o" < arg <==> prefix == Some("-o")) && ("-MF" < arg <==> prefix == Some("-MF"))
            && ("-Wl," <= arg ==> prefix == None)
  {
    hide ATTACHED, FirstPrefix, ConsumesPathValue;
    OutputFlagsAttach();
    if "-o" < arg { FirstPrefixFinds(ATTACHED, "-o", arg); }
    if "-MF" < arg { FirstPrefixFinds(ATTACHED, "-MF", arg); }
    if "-Wl," <= arg { NotAFlag(arg); }
  }

  lemma OutputFlagsAttach()
    ensures "-o" in ATTACHED && "-MF" in ATTACHED
  {
  }

  lemma HeadCollected(root: Comps, wd: Comps, args: seq<string>)
    requires args != [] && OrdinaryHead(args)
    ensures var (paths, used) := CollectHead(args);
            var (t, taken) := HeadToken(root, wd, args);
            RefsOf(root, wd, paths) == Written(t) && (used == taken || (used == 1 && taken == 2 && !WorkerReads(args[1])))
  {
    hide RefOf, CollectHead, HeadToken, Written, OrdinaryHead, ConsumesPathValue, WorkerReads;
    if ConsumesPathValue(args[0]) { ValueCollected(root, wd, args); } else { ArgumentCollected(root, wd, args); }
  }

  lemma ValueCollected(root: Comps, wd: Comps, args: seq<string>)
    requires args != [] && OrdinaryHead(args) && ConsumesPathValue(args[0])
    ensures var (paths, used) := CollectHead(args);
            var (t, taken) := HeadToken(root, wd, args);
            RefsOf(root, wd, paths) == Written(t) && (used == taken || (used == 1 && taken == 2 && !WorkerReads(args[1])))
  {
    hide RefOf, CollectLinkerOutputPaths, ConsumesPathValue, SplitAttachedPathFlag, OrdinaryParts, WorkerReads, HeadToken;
    HeadTokenIs(root, wd, args);
    ConsumedFlag(args[0]);
  }

  lemma ArgumentCollected(root: Comps, wd: Comps, args: seq<string>)
    requires args != [] && OrdinaryHead(args) && !ConsumesPathValue(args[0])
    ensures var (paths, used) := CollectHead(args);
            var (t, taken) := HeadToken(root, wd, args);
            RefsOf(root, wd, paths) == Written(t) && used == taken == 1
  {
    hide RefOf, CollectLinkerOutputPaths, LinkParts, WrittenParts, OrdinaryParts, ConsumesPathValue, SplitAttachedPathFlag, OutputFlag,
      HeadToken;
    var arg := args[0];
    HeadTokenIs(root, wd, args);
    AttachedFlag(arg);
    OutputFlagIs(arg);
    OutputFlagsConsume(arg);
    if "-Wl," <= arg { PartsCollected(root, wd, Split(arg, ',')[1..], None); }
  }

  lemma OutputFlagsConsume(arg: string)
    ensures OutputFlag(arg) ==> ConsumesPathValue(arg)
  {
  }

  /** The worker prepares exactly the files that the command line it was sent writes. */
  lemma {:induction false} CollectsWritten(root: Comps, wd: Comps, args: seq<string>)
    requires Ordinary(root, wd, args)
    ensures RefsOf(root, wd, Collect(args)) == FilesWritten(Interpret(root, wd, args))
    decreases |args|
  {
    if args != [] {
      var (paths, used) := CollectHead(args);
      var (t, taken) := HeadToken(root, wd, args);
      HeadCollected(root, wd, args);
      CollectsWritten(root, wd, args[taken..]);
      if used < taken { SkipsValue(args); }
      RefsOfConcat(root, wd, paths, Collect(args[taken..]));
      assert ([t] + Interpret(root, wd, args[taken..]))[1..] == Interpret(root, wd, args[taken..]);
      hide CollectHead, HeadToken, Written, OrdinaryHead;
    }
  }

  lemma SkipsValue(args: seq<string>)
    requires |args| > 1 && !WorkerReads(args[1])
    ensures Collect(args[1..]) == Collect(args[2..])
  {
    assert args[1..][1..] == args[2..];
  }

  // ---------------------------------------------------------------- the outputs of the original command

  /** Whether a part of the original reaches the worker as an ordinary one. Where the client has lost track of what
      the linker expects, that depends on what it writes. */
  predicate SourcePart(root: Comps, wd: Comps, part: string, after: Option<string>, awaits: bool) {
    var cut := Cut(part);
    if awaits != ClientAwaits(after) then
      var written := RewritePart(root, wd, part, awaits);
      written.Ok? ==> OrdinaryPart(written.value, after)
    else if after.Some? then WorkerAwaits(after) || !(BelowName(wd, part).Some? && PartRead(BelowName(wd, part).value))
    else if cut.None? || !LinkerOptionWritesFile(cut.value.0) then true
    else
      var file := cut.value.1;
      if LinkerOptionTakesPath(cut.value.0) then BelowName(wd, file).Some? ==> TrimSpace(BelowName(wd, file).value) != ""
      else TrimSpace(file) == "" ==> file == ""
  }

  predicate SourceParts(root: Comps, wd: Comps, parts: seq<string>, after: Option<string>, awaits: bool)
    decreases |parts|
  {
    parts == []
    || (SourcePart(root, wd, parts[0], after, awaits)
        && SourceParts(root, wd, parts[1..], NextAfter(parts[0], after), StillAwaits(parts[0], awaits)))
  }

  /** A value must not name a file below the working directory by a path that the worker reads as an output. */
  predicate SourceHead(root: Comps, wd: Comps, args: seq<string>)
    requires args != []
  {
    if HidesValue(args[0]) then
      |args| > 1 ==> !(BelowName(wd, args[1]).Some? && WorkerReads(BelowName(wd, args[1]).value))
    else "-Wl," <= args[0] ==> SourceParts(root, wd, Split(args[0], ',')[1..], None, false)
  }

  predicate SourceOrdinary(root: Comps, wd: Comps, args: seq<string>)
    decreases |args|
  {
    args == [] || (SourceHead(root, wd, args) && SourceOrdinary(root, wd, args[HeadToken(root, wd, args).1..]))
  }

  /** What starts with a dot is not read as an option. */
  lemma DotNotRead(v: string)
    requires v == "" || v[0] == '.'
    ensures !PartRead(v) && !WorkerReads(v) && (v != "" ==> TrimSpace(v) != "")
  {
    hide TrimSpace, CollectLinkerOutputPaths, Cut;
    CutIs(v);
    DotOption(v);
    if v != "" { TrimKeepsFirst(v); }
  }

  lemma DotOption(v: string)
    requires v == "" || v[0] == '.'
    ensures !LinkerOptionWritesFile(v) && (Cut(v).Some? ==> !LinkerOptionWritesFile(Cut(v).value.0))
  {
    hide Cut;
    CutIs(v);
  }

  lemma PartSent(root: Comps, wd: Comps, part: string, after: Option<string>, awaits: bool)
    requires Names(wd) && RewritePart(root, wd, part, awaits).Ok?
    requires after.Some? ==> LinkerOptionNamesPath(after.value)
    ensures OrdinaryPart(RewritePart(root, wd, part, awaits).value, after) <==> SourcePart(root, wd, part, after, awaits)
  {
    hide RewriteCommandPath, PartRead, WorkerReads, TrimSpace, Cut, BelowName;
    var cut := Cut(part);
    CutIs(part);
    if awaits != ClientAwaits(after) {
    } else if awaits {
      SentForm(root, wd, part);
      var v := RewriteCommandPath(root, wd, part).value.0;
      assert "" + v == v;
      if BelowName(wd, part).None? { DotNotRead(v); }
    } else if after.None? && cut.Some? && LinkerOptionTakesPath(cut.value.0) {
      var (option, raw) := cut.value;
      SentForm(root, wd, raw);
      var v := RewriteCommandPath(root, wd, raw).value.0;
      CutAgain(option, v);
      if BelowName(wd, raw).None? { DotNotRead(v); }
      BelowIsName(wd, raw);
    }
  }

  lemma BelowIsName(wd: Comps, raw: string)
    requires Names(wd)
    ensures BelowName(wd, raw).Some? ==> BelowName(wd, raw).value != ""
  {
    ResolveNames(wd, raw);
    var t := Resolve(wd, raw);
    hide Resolve;
    if wd < t {
      assert t[|wd|] in t;
      StartOfJoin(t[|wd|..]);
    }
  }

  lemma {:induction false} PartsSent(root: Comps, wd: Comps, parts: seq<string>, after: Option<string>, awaits: bool)
    requires Names(root) && Names(wd) && root <= wd && RewriteParts(root, wd, parts, awaits).Ok?
    requires PartsTame(root, wd, parts, after, awaits) && (after.Some? ==> LinkerOptionNamesPath(after.value))
    ensures OrdinaryParts(RewriteParts(root, wd, parts, awaits).value, after) <==> SourceParts(root, wd, parts, after, awaits)
    decreases |parts|
  {
    hide RewritePart, PartTame, LinkPartOf, NextAfter, Cut, LinkerOptionTakesPath, LinkerOptionNamesPath, OrdinaryPart, SourcePart,
      Moved;
    if parts != [] {
      var part, next, then_ := parts[0], NextAfter(parts[0], after), StillAwaits(parts[0], awaits);
      InsideItself(root, wd);
      var out := RewriteParts(root, wd, parts, awaits).value;
      PartKeepsMeaning(root, wd, root, wd, part, after, awaits);
      ReadAlike(root, wd, root, wd, part, out[0], after);
      PartSent(root, wd, part, after, awaits);
      NextNamesPath(part, after);
      PartsSent(root, wd, parts[1..], next, then_);
      assert out[1..] == RewriteParts(root, wd, parts[1..], then_).value;
    }
  }

  lemma NextNamesPath(part: string, after: Option<string>)
    ensures NextAfter(part, after).Some? ==> LinkerOptionNamesPath(NextAfter(part, after).value)
  {
  }

  lemma HeadSent(root: Comps, wd: Comps, args: seq<string>, more: seq<string>)
    requires Names(root) && Names(wd) && root <= wd && args != [] && RewriteHead(root, wd, args).Ok?
    requires HeadTame(root, wd, args[0])
    ensures var emitted := RewriteHead(root, wd, args).value.emitted;
            emitted != [] && (OrdinaryHead(emitted + more) <==> SourceHead(root, wd, args))
  {
    hide RewriteCommandPath, SplitAttachedPathFlag, ConsumesPathValue, RewriteLinkerArgument, Tame, PartsTame, BelowName,
      WorkerReads, OrdinaryParts, SourceParts;
    var arg, prefix := args[0], SplitAttachedPathFlag(args[0]);
    var out := RewriteHead(root, wd, args).value.emitted;
    assert (out + more)[0] == out[0];
    InsideItself(root, wd);
    if ConsumesPathValue(arg) {
      ConsumedFlag(arg);
      SentForm(root, wd, args[1]);
      assert (out + more)[1] == out[1];
      if BelowName(wd, args[1]).None? { DotNotRead(out[1]); }
    } else if prefix.Some? {
      AttachedFlag(arg);
      RewriteKeepsRef(root, wd, root, wd, arg[|prefix.value|..]);
      AttachedAgain(prefix.value, RewriteCommandPath(root, wd, arg[|prefix.value|..]).value.0);
      AttachedFlag(out[0]);
    } else if "-Wl," <= arg {
      LinkerForm(root, wd, arg);
      NotAFlag(out[0]);
      PartsSent(root, wd, Split(arg, ',')[1..], None, false);
    } else {
      PositionalKeepsMeaning(root, wd, root, wd, arg, out[0]);
    }
  }

  /** The sent command is read in step by the worker exactly when the original is free of such values. */
  lemma {:induction false} OrdinarySent(root: Comps, wd: Comps, root2: Comps, wd2: Comps, args: seq<string>)
    requires Moved(root, wd, root2, wd2) && RewriteAll(root, wd, args).Ok? && AllTame(root, wd, args)
    ensures Ordinary(root2, wd2, RewriteAll(root, wd, args).value.0) <==> SourceOrdinary(root, wd, args)
    decreases |args|
  {
    if args != [] {
      var step := RewriteHead(root, wd, args).value;
      var rest := args[step.used..];
      var out := RewriteAll(root, wd, rest).value.0;
      MovedNames(root, wd, root2, wd2);
      HeadKeepsMeaning(root, wd, root2, wd2, args, out);
      HeadSent(root, wd, args, out);
      OrdinarySent(root, wd, root2, wd2, rest);
      assert (step.emitted + out)[|step.emitted|..] == out;
      hide HeadToken, RewriteHead, HeadTame, OrdinaryHead, SourceHead, Moved;
    }
  }

  /** The files the worker prepares for what it was sent are those that the original command writes in the
      source tree. */
  lemma WorkerPreparesOutputs(root: Comps, wd: Comps, root2: Comps, wd2: Comps, args: seq<string>)
    requires Moved(root, wd, root2, wd2) && RewriteAll(root, wd, args).Ok? && AllTame(root, wd, args)
    requires SourceOrdinary(root, wd, args)
    ensures RefsOf(root2, wd2, Collect(RewriteAll(root, wd, args).value.0)) == FilesWritten(Interpret(root, wd, args))
  {
    RewriteKeepsMeaning(root, wd, root2, wd2, args);
    OrdinarySent(root, wd, root2, wd2, args);
    CollectsWritten(root2, wd2, RewriteAll(root, wd, args).value.0);
  }

  // ---------------------------------------------------------------- exactly the values that are misread

  /** The condition on values is exact: a value that hides from the worker leaves every command after it well
      read, exactly when the worker does not take it for an option that names an output. */
  lemma ValueMisread(root: Comps, wd: Comps, flag: string, v: string)
    requires HidesValue(flag)
    ensures (forall rest | RefsOf(root, wd, Collect(rest)) == FilesWritten(Interpret(root, wd, rest)) ::
               RefsOf(root, wd, Collect([flag, v] + rest)) == FilesWritten(Interpret(root, wd, [flag, v] + rest)))
            <==> !WorkerReads(v)
  {
    hide RefOf, Interpret, Collect, FilesWritten, RefsOf, WorkerReads;
    forall rest
      ensures FilesWritten(Interpret(root, wd, [flag, v] + rest)) == FilesWritten(Interpret(root, wd, rest))
      ensures Collect([flag, v] + rest) == Collect([v] + rest)
    {
      HiddenValue(root, wd, flag, v, rest);
    }
    if WorkerReads(v) {
      var rest := if v == "-o" || v == "-MF" then ["x"] else [];
      CleanLine(root, wd);
      ReadSomething(v, rest);
      RefsOfSome(root, wd, Collect([v] + rest));
    } else {
      forall rest
        ensures Collect([v] + rest) == Collect(rest)
      {
        SkipsValue([flag, v] + rest);
        assert ([flag, v] + rest)[1..] == [v] + rest && ([flag, v] + rest)[2..] == rest;
      }
    }
  }

  lemma HiddenValue(root: Comps, wd: Comps, flag: string, v: string, rest: seq<string>)
    requires HidesValue(flag)
    ensures FilesWritten(Interpret(root, wd, [flag, v] + rest)) == FilesWritten(Interpret(root, wd, rest))
    ensures Collect([flag, v] + rest) == Collect([v] + rest)
  {
    var args := [flag, v] + rest;
    assert args[2..] == rest && args[1..] == [v] + rest && args[1] == v;
    hide RefOf, OutputFlag, ConsumesPathValue, SplitAttachedPathFlag, HeadToken;
    HeadTokenIs(root, wd, args);
    ConsumedFlag(flag);
    OutputFlagIs(flag);
    var t := HeadToken(root, wd, args).0;
    assert ([t] + Interpret(root, wd, rest))[1..] == Interpret(root, wd, rest);
    assert [] + FilesWritten(Interpret(root, wd, rest)) == FilesWritten(Interpret(root, wd, rest));
    assert [] + Collect([v] + rest) == Collect([v] + rest);
  }

  lemma OutputFlagIs(flag: string)
    ensures OutputFlag(flag) <==> flag == "-o" || flag == "-MF"
  {
  }

  /** No command line, and one that names an input only. */
  lemma CleanLine(root: Comps, wd: Comps)
    ensures Collect([]) == [] && FilesWritten(Interpret(root, wd, [])) == [] && RefsOf(root, wd, []) == []
    ensures Collect(["x"]) == [] && FilesWritten(Interpret(root, wd, ["x"])) == []
  {
    InputOnly(root, wd, "x");
  }

  lemma InputOnly(root: Comps, wd: Comps, name: string)
    requires name != "" && name[0] != '-' && name[0] != '@'
    ensures Collect([name]) == [] && FilesWritten(Interpret(root, wd, [name])) == []
  {
    hide RefOf, ConsumesPathValue, SplitAttachedPathFlag, HeadToken;
    HeadTokenIs(root, wd, [name]);
    NotAFlag(name);
    assert [name][1..] == [];
    var t := HeadToken(root, wd, [name]).0;
    assert t.Input? && ([t] + [])[1..] == [];
  }

  lemma ReadSomething(v: string, rest: seq<string>)
    requires WorkerReads(v) && (v == "-o" || v == "-MF" ==> rest != [])
    ensures Collect([v] + rest) != []
  {
    hide CollectLinkerOutputPaths;
    var args := [v] + rest;
    if "-Wl," <= v { assert v[1] == 'W'; }
    assert CollectHead(args).0 != [];
  }

  lemma RefsOfSome(root: Comps, wd: Comps, raws: seq<string>)
    ensures |RefsOf(root, wd, raws)| == |raws|
  {
  }

  /** Such commands exist, and the client passes them on as they are: it reads a name that starts with -o as the
      value of the flag before it, and the worker reads it as an output. */
  lemma HiddenOutput(root: Comps, flag: string, name: string)
    requires Names(root) && HidesValue(flag) && Name("-o" + name) && name != ""
    ensures var args := [flag, "-o" + name];
            && RewriteAll(root, root, args).Ok? && RewriteAll(root, root, args).value.0 == args
            && Collect(args) == [name] && FilesWritten(Interpret(root, root, args)) == []
  {
    hide RefOf, RewriteCommandPath, Collect, FilesWritten, Interpret, Name;
    var v := "-o" + name;
    var args := [flag, v];
    HiddenValue(root, root, flag, v, []);
    assert args + [] == args && args[2..] == [] && [v] + [] == [v];
    CleanLine(root, root);
    CollectAttached(name);
    NamedBelow(root, root, v);
    OutputFlagIs(flag);
    hide ConsumesPathValue, OutputFlag;
    RewriteNothing(root, root);
  }

  lemma RewriteNothing(root: Comps, wd: Comps)
    ensures var r := RewriteAll(root, wd, []); r.Ok? && r.value.0 == [] && r.value.1 == None
  {
  }

  lemma CollectAttached(name: string)
    requires name != ""
    ensures Collect(["-o" + name]) == [name]
  {
    var arg: string := "-o" + name;
    assert arg[1] == 'o' && |arg| > 2 && arg[2..] == name && [arg][1..] == [];
    assert CollectHead([arg]) == ([name], 1);
    assert [name] + [] == [name];
  }

  /** A bare name is sent as it is. */
  lemma NamedBelow(root: Comps, wd: Comps, name: string)
    requires Names(wd) && root <= wd && Name(name)
    ensures RewriteCommandPath(root, wd, name) == Ok((name, Some(wd + [name])))
  {
    SplitFree(name, '/');
    CleanOntoNames(true, wd, [name]);
    RelShift(wd, [], [name]);
    assert wd + [] == wd && Rel([], [name]) == Dots(0) + [name] == [name];
    assert Names(wd + [name]);
    WithinIsPrefix(root, wd + [name]);
  }

  lemma {:induction false} TrimKeepsFirst(s: string)
    requires s != "" && !IsSpace(s[0])
    ensures TrimSpace(s) != "" && TrimSpace(s)[0] == s[0]
  {
    if |s| > 1 && IsSpace(s[|s| - 1]) { TrimKeepsFirst(s[..|s| - 1]); }
  }

  /** What is left of a spelling without surrounding white space names file f relative to directory dir, without
      leaving the root on its way, and is not empty. */
  predicate Arrives(dir: Comps, raw: string, f: Comps) {
    var t := TrimSpace(raw);
    !IsAbs(t) && Clean(false, CompsOf(t)) != [] && Walk(0, dir, CompsOf(t)) == (0, f)
  }

  /** The worker prepares file f for an output spelled raw, wherever the tree was unpacked, exactly when the
      spelling arrives. So it is for --pdb, which Cliant passes on as it is in both its forms. */
  lemma PdbPrepared(root: Comps, wd: Comps, file: string, f: Comps)
    requires Names(root) && Names(wd) && root <= wd
    ensures (forall src, wd2 | Moved(root, wd, src, wd2) :: ResolvePlanStepPath(src, wd2, file) == Ok(src + f))
            <==> Arrives(Below(root, wd), file, f)
  {
    hide CleanOnto, Moved, Walk, IsWithinBase, ResolvePlanStepPath, Below;
    var t, cs := TrimSpace(file), CompsOf(TrimSpace(file));
    var (k, n) := Walk(0, Below(root, wd), cs);
    InsideItself(root, wd);
    if !IsAbs(t) && Clean(false, cs) != [] && (k, n) == (0, f) {
      forall src, wd2 | Moved(root, wd, src, wd2)
        ensures ResolvePlanStepPath(src, wd2, file) == Ok(src + f)
      {
        PreparedFile(root, wd, src, wd2, file);
      }
    } else if (forall src, wd2 | Moved(root, wd, src, wd2) :: ResolvePlanStepPath(src, wd2, file) == Ok(src + f)) {
      assert ResolvePlanStepPath(root, wd, file) == Ok(root + f);
      PreparedForm(root, wd, file);
      if k > 0 {
        var src, wd2 := ClimbedOut(root, wd, t);
        MovedNames(root, wd, src, wd2);
        PreparedForm(src, wd2, file);
      } else {
        PreparedFile(root, wd, root, wd, file);
        SameTail(root, n, f);
      }
    }
  }

  lemma PreparedForm(src: Comps, wd2: Comps, file: string)
    requires Names(wd2)
    ensures var t := TrimSpace(file);
            ResolvePlanStepPath(src, wd2, file)
            == if IsAbs(t) || Clean(false, CompsOf(t)) == [] || !(src <= Resolve(wd2, t)) then Err else Ok(Resolve(wd2, t))
    ensures TrimSpace(file) == "" ==> Clean(false, CompsOf(TrimSpace(file))) == []
  {
    hide CleanOnto, Name;
    var cs := CompsOf(TrimSpace(file));
    CleanTwice(wd2, [], cs);
    CleanStep(true, wd2, []);
    CleanRootedNames(wd2, cs);
    WithinIsPrefix(src, CleanOnto(true, wd2, cs));
    CleanOne(false, [], "");
  }

  lemma PreparedFile(root: Comps, wd: Comps, src: Comps, wd2: Comps, file: string)
    requires Moved(root, wd, src, wd2)
    requires PassedOn(root, wd, TrimSpace(file)) && Clean(false, CompsOf(TrimSpace(file))) != []
    ensures ResolvePlanStepPath(src, wd2, file) == Ok(src + Walk(0, Below(root, wd), CompsOf(TrimSpace(file))).1)
  {
    hide CleanOnto, Walk, Name;
    var t := TrimSpace(file);
    MovedNames(root, wd, src, wd2);
    PreparedForm(src, wd2, file);
    StaysInside(root, wd, src, wd2, t);
    var n := Walk(0, Below(root, wd), CompsOf(t)).1;
    assert src + Resolve(wd2, t)[|src|..] == Resolve(wd2, t);
  }

  const PDB := "--pdb"

  lemma PdbIsOption()
    ensures Free(PDB, '=') && Cut(PDB) == None && LinkerOptionWritesFile(PDB) && !LinkerOptionTakesPath(PDB)
  {
    CutIs(PDB);
  }

  /** Both forms reach the worker as they are, unless the second part of the longer one looks like an option
      that the client knows; */
  lemma PdbPassedOn(root: Comps, wd: Comps, file: string)
    ensures RewriteParts(root, wd, [PDB + "=" + file], false) == Ok([PDB + "=" + file])
    ensures !(Cut(file).Some? && LinkerOptionTakesPath(Cut(file).value.0)) ==>
              RewriteParts(root, wd, [PDB, file], false) == Ok([PDB, file])
  {
    hide Cut, RewriteCommandPath, LinkerOptionTakesPath, Free, PDB;
    PdbIsOption();
    CutAgain(PDB, file);
    var part := PDB + "=" + file;
    assert [part][1..] == [] && [PDB, file][1..] == [file] && [file][1..] == [];
    assert [PDB] + [file] == [PDB, file] && [file] + [] == [file] && [part] + [] == [part];
    NoPartsLeft(root, wd);
    assert !(Cut(file).Some? && LinkerOptionTakesPath(Cut(file).value.0)) ==> RewriteParts(root, wd, [file], false) == Ok([file]);
  }

  /** and the worker takes their value for an output. */
  lemma PdbCollected(file: string)
    ensures CollectLinkerOutputPaths([PDB + "=" + file], false) == if TrimSpace(file) == "" then [] else [file]
    ensures CollectLinkerOutputPaths([PDB, file], false) == [file]
  {
    hide Cut, TrimSpace, LinkerOptionWritesFile, CollectLinkerOutputPaths, Free, PDB;
    PdbIsOption();
    CutAgain(PDB, file);
    var part := PDB + "=" + file;
    assert [part][1..] == [] && [PDB, file][1..] == [file] && [file][1..] == [];
    CollectStep([part], false);
    CollectStep([PDB, file], false);
    CollectStep([file], true);
    CollectStep([], false);
  }

  /** So an absolute file, which the linker could write, is refused wherever the tree was unpacked. */
  lemma PdbRefused(src: Comps, wd2: Comps, file: string)
    requires IsAbs(file)
    ensures ResolvePlanStepPath(src, wd2, file) == Err
  {
    TrimKeepsFirst(file);
  }

  // ---------------------------------------------------------------- a step, from the client to the worker

  function ResolveAll(src: Comps, wd: Comps, raws: seq<string>): Result<seq<Comps>> {
    if raws == [] then Ok([])
    else
      var head, rest := ResolvePlanStepPath(src, wd, raws[0]), ResolveAll(src, wd, raws[1..]);
      if head.Ok? && rest.Ok? then Ok([head.value] + rest.value) else Err
  }

  /** The directory a step runs in, and the outputs prepared for it. */
  function PrepareSpec(src: Comps, step: BuildStep): Result<(Comps, seq<Comps>)> {
    if step.args == [] then Err
    else
      var wd := StepDirectory(src, step.workingDirectory);
      if wd.Err? then Err
      else
        var files := ResolveAll(src, wd.value, Collect(step.args[1..]));
        if files.Ok? then Ok((wd.value, files.value)) else Err
  }

  /** buildPlanStepCommand up to preparePlanStepFilesystem, which makes the directories of the outputs one by one. */
  method PreparePlanStep(src: Comps, step: BuildStep) returns (r: Result<(Comps, seq<Comps>)>)
    ensures r == PrepareSpec(src, step)
  {
    if |step.args| == 0 {
      return Err;
    }
    var wd := StepDirectory(src, step.workingDirectory);
    if wd.Err? {
      return Err;
    }
    hide StepDirectory, ResolvePlanStepPath, Collect, ResolveAll, Prefixed;
    var raws := CollectPlanOutputPaths(step.args[1..]);
    var files: seq<Comps> := [];
    NothingPrefixed(src, wd.value, raws, []);
    for i := 0 to |raws|
      invariant Prefixed(files, ResolveAll(src, wd.value, raws[i..])) == ResolveAll(src, wd.value, raws)
    {
      ResolveStep(src, wd.value, raws[i..], files);
      assert raws[i..][1..] == raws[i + 1..];
      var file := ResolvePlanStepPath(src, wd.value, raws[i]);
      if file.Err? {
        return Err;
      }
      files := files + [file.value];
    }
    NothingPrefixed(src, wd.value, [], files);
    assert raws[|raws|..] == [];
    return Ok((wd.value, files));
  }

  function Prefixed(done: seq<Comps>, rest: Result<seq<Comps>>): Result<seq<Comps>> {
    if rest.Ok? then Ok(done + rest.value) else Err
  }

  lemma NothingPrefixed(src: Comps, wd: Comps, raws: seq<string>, done: seq<Comps>)
    ensures raws[0..] == raws && Prefixed([], ResolveAll(src, wd, raws)) == ResolveAll(src, wd, raws)
    ensures Prefixed(done, ResolveAll(src, wd, [])) == Ok(done)
  {
    hide ResolvePlanStepPath;
    var all := ResolveAll(src, wd, raws);
    assert all.Ok? ==> [] + all.value == all.value;
    assert ResolveAll(src, wd, []) == Ok([]) && done + [] == done;
  }

  lemma ResolveStep(src: Comps, wd: Comps, raws: seq<string>, done: seq<Comps>)
    requires raws != []
    ensures var head := ResolvePlanStepPath(src, wd, raws[0]);
            Prefixed(done, ResolveAll(src, wd, raws))
            == if head.Err? then Err else Prefixed(done + [head.value], ResolveAll(src, wd, raws[1..]))
  {
    hide ResolvePlanStepPath;
    forall h: Comps, rest: seq<Comps>
      ensures done + ([h] + rest) == done + [h] + rest
    {
    }
  }

  lemma {:induction false} ResolveAllIs(src: Comps, wd: Comps, raws: seq<string>)
    ensures ResolveAll(src, wd, raws).Ok? <==> forall raw <- raws :: ResolvePlanStepPath(src, wd, raw).Ok?
    ensures var r := ResolveAll(src, wd, raws);
            r.Ok? ==> |r.value| == |raws| && forall i :: 0 <= i < |raws| ==> ResolvePlanStepPath(src, wd, raws[i]) == Ok(r.value[i])
  {
    hide ResolvePlanStepPath;
    if raws != [] {
      ResolveAllIs(src, wd, raws[1..]);
      assert raws == [raws[0]] + raws[1..];
    }
  }

  /** For a rewritten output: it is not the directory itself, and has no white space around it. */
  lemma RewrittenArrives(dir: Comps, f: Comps)
    requires Names(dir) && Names(f)
    ensures var raw := Render(Rel(dir, f));
            Arrives(dir, raw, f) <==> dir != f && TrimSpace(raw) == raw
  {
    hide CleanOnto, Rel, Name, ResolvePlanStepPath, Arrives;
    var raw := Render(Rel(dir, f));
    EmptyRoot(dir);
    PdbPrepared([], dir, raw, f);
    forall src, wd2 | Moved([], dir, src, wd2)
      ensures ResolvePlanStepPath(src, wd2, raw) == Ok(src + f) <==> dir != f && TrimSpace(raw) == raw
    {
      RelShift(src, dir, f);
      OutputAccepted(src, dir, f);
      assert wd2 == src + dir;
    }
  }

  lemma EmptyRoot(dir: Comps)
    requires Names(dir)
    ensures Moved([], dir, [], dir) && Below([], dir) == dir
  {
    assert [] + dir == dir;
  }

  // ---------------------------------------------------------------- the outputs of the original, one by one

  /** A file that the original writes, and its spelling if the client passes that on as it is. */
  datatype Output = Output(file: Ref, spelling: Option<string>)

  predicate OutputArrives(dir: Comps, o: Output) {
    o.file.Inside? &&
    match o.spelling
    case None => dir != o.file.rel && TrimSpace(Render(Rel(dir, o.file.rel))) == Render(Rel(dir, o.file.rel))
    case Some(raw) => Arrives(dir, raw, o.file.rel)
  }

  function PartOutputs(root: Comps, wd: Comps, part: string, after: Option<string>, awaits: bool): seq<Output> {
    var cut, written := Cut(part), RewritePart(root, wd, part, awaits);
    var sent := if written.Ok? then written.value else part;
    if after.Some? then
      if WorkerAwaits(after) then [Output(RefOf(root, wd, part), if awaits then None else Some(sent))] else []
    else if cut.Some? && LinkerOptionWritesFile(cut.value.0) && cut.value.1 != "" then
      var passedOn := awaits || !LinkerOptionTakesPath(cut.value.0);
      [Output(RefOf(root, wd, cut.value.1), if passedOn && Cut(sent).Some? then Some(Cut(sent).value.1) else None)]
    else []
  }

  function PartsOutputs(root: Comps, wd: Comps, parts: seq<string>, after: Option<string>, awaits: bool): seq<Output>
    decreases |parts|
  {
    if parts == [] then []
    else
      PartOutputs(root, wd, parts[0], after, awaits)
      + PartsOutputs(root, wd, parts[1..], NextAfter(parts[0], after), StillAwaits(parts[0], awaits))
  }

  function HeadOutputs(root: Comps, wd: Comps, args: seq<string>): seq<Output>
    requires args != []
  {
    var arg, prefix := args[0], SplitAttachedPathFlag(args[0]);
    if ConsumesPathValue(arg) then
      if OutputFlag(arg) && |args| > 1 then [Output(RefOf(root, wd, args[1]), None)] else []
    else if prefix.Some? then
      if OutputFlag(prefix.value) then [Output(RefOf(root, wd, arg[|prefix.value|..]), None)] else []
    else if "-Wl," <= arg then PartsOutputs(root, wd, Split(arg, ',')[1..], None, false)
    else []
  }

  /** The files that the original command writes. */
  function Outputs(root: Comps, wd: Comps, args: seq<string>): seq<Output>
    decreases |args|
  {
    if args == [] then []
    else HeadOutputs(root, wd, args) + Outputs(root, wd, args[HeadToken(root, wd, args).1..])
  }

  /** What is collected for some outputs, and what is written, arrives as they do. */
  predicate Matches(dir: Comps, raws: seq<string>, files: seq<Ref>, os: seq<Output>) {
    && |raws| == |files| == |os|
    && forall i :: 0 <= i < |os| ==>
      os[i].file == files[i] && (OutputArrives(dir, os[i]) <==> files[i].Inside? && Arrives(dir, raws[i], files[i].rel))
  }

  lemma MatchesConcat(dir: Comps, a: seq<string>, b: seq<Ref>, c: seq<Output>, a2: seq<string>, b2: seq<Ref>, c2: seq<Output>)
    requires Matches(dir, a, b, c) && Matches(dir, a2, b2, c2)
    ensures Matches(dir, a + a2, b + b2, c + c2)
  {
    hide OutputArrives, Arrives;
  }

  lemma NothingMatches(dir: Comps)
    ensures Matches(dir, [], [], [])
  {
  }

  lemma OneMatches(dir: Comps, raw: string, file: Ref, o: Output)
    requires o.file == file && (OutputArrives(dir, o) <==> file.Inside? && Arrives(dir, raw, file.rel))
    ensures Matches(dir, [raw], [file], [o])
  {
    hide OutputArrives, Arrives;
  }

  /** A path that is rewritten. */
  lemma RewrittenMatches(root: Comps, wd: Comps, raw: string)
    requires Names(root) && Names(wd) && root <= wd && RewriteCommandPath(root, wd, raw).Ok?
    ensures var v, file := RewriteCommandPath(root, wd, raw).value.0, RefOf(root, wd, raw);
            Matches(Below(root, wd), [v], [file], [Output(file, None)])
  {
    hide Arrives, Rel, Resolve, IsWithinBase, Name, Matches;
    var v, file, dir := RewriteCommandPath(root, wd, raw).value.0, RefOf(root, wd, raw), Below(root, wd);
    if raw != "" {
      var abs := Resolve(wd, raw);
      ResolveNames(wd, raw);
      WithinIsPrefix(root, abs);
      var f := abs[|root|..];
      assert wd == root + dir && abs == root + f;
      assert (forall p <- f :: p in abs) && forall p <- dir :: p in wd;
      RelShift(root, dir, f);
      RewrittenArrives(dir, f);
    }
    OneMatches(dir, v, file, Output(file, None));
  }

  lemma PassedOnMatches(dir: Comps, raw: string, file: Ref)
    ensures Matches(dir, [raw], [file], [Output(file, Some(raw))])
  {
    hide Arrives;
  }

  lemma PartMatches(root: Comps, wd: Comps, part: string, after: Option<string>, awaits: bool)
    requires Names(root) && Names(wd) && root <= wd && RewritePart(root, wd, part, awaits).Ok?
    requires PartTame(root, wd, part, after, awaits) && OrdinaryPart(RewritePart(root, wd, part, awaits).value, after)
    ensures var out := RewritePart(root, wd, part, awaits).value;
            Matches(Below(root, wd), CollectPart(out, WorkerAwaits(after)), WrittenPart(LinkPartOf(root, wd, part, after)),
                    PartOutputs(root, wd, part, after, awaits))
  {
    hide RefOf, RewriteCommandPath, Matches, TrimSpace, Cut, PassedOn, Below;
    var dir, cut, out := Below(root, wd), Cut(part), RewritePart(root, wd, part, awaits).value;
    CutIs(part);
    NothingMatches(dir);
    if after.Some? {
      if awaits {
        RewrittenMatches(root, wd, part);
        assert "" + RewriteCommandPath(root, wd, part).value.0 == RewriteCommandPath(root, wd, part).value.0;
      }
      PassedOnMatches(dir, out, RefOf(root, wd, part));
    } else if cut.Some? && LinkerOptionWritesFile(cut.value.0) {
      var (option, raw) := cut.value;
      RefIsPath(root, wd, raw);
      TrimNothing();
      if LinkerOptionTakesPath(option) && !awaits {
        RewrittenMatches(root, wd, raw);
        CutAgain(option, RewriteCommandPath(root, wd, raw).value.0);
        RewrittenIsPath(root, wd, raw);
      } else {
        var sent := Cut(out).value.1;
        RefIsPath(root, wd, sent);
        PassedOnMatches(dir, sent, RefOf(root, wd, raw));
      }
    } else if cut.Some? && LinkerOptionTakesPath(cut.value.0) && !awaits {
      CutAgain(cut.value.0, RewriteCommandPath(root, wd, cut.value.1).value.0);
    }
  }

  lemma TrimNothing()
    ensures TrimSpace("") == ""
  {
  }

  lemma RewrittenIsPath(root: Comps, wd: Comps, raw: string)
    requires Names(wd) && RewriteCommandPath(root, wd, raw).Ok?
    ensures RewriteCommandPath(root, wd, raw).value.0 == "" <==> raw == ""
  {
    SentForm(root, wd, raw);
  }

  lemma {:induction false} PartsMatch(root: Comps, wd: Comps, parts: seq<string>, after: Option<string>, awaits: bool)
    requires Names(root) && Names(wd) && root <= wd && RewriteParts(root, wd, parts, awaits).Ok?
    requires PartsTame(root, wd, parts, after, awaits) && OrdinaryParts(RewriteParts(root, wd, parts, awaits).value, after)
    ensures var out := RewriteParts(root, wd, parts, awaits).value;
            Matches(Below(root, wd), CollectLinkerOutputPaths(out, WorkerAwaits(after)),
                    WrittenParts(LinkParts(root, wd, parts, after)), PartsOutputs(root, wd, parts, after, awaits))
    decreases |parts|
  {
    hide RewritePart, PartTame, LinkPartOf, NextAfter, Cut, LinkerOptionTakesPath, LinkerOptionWritesFile, OrdinaryPart, Moved,
      Matches, CollectPart, WrittenPart, PartOutputs, Below;
    if parts == [] {
      NothingMatches(Below(root, wd));
    } else {
      var part, next, then_ := parts[0], NextAfter(parts[0], after), StillAwaits(parts[0], awaits);
      var out := RewriteParts(root, wd, parts, awaits).value;
      InsideItself(root, wd);
      PartKeepsMeaning(root, wd, root, wd, part, after, awaits);
      ReadAlike(root, wd, root, wd, part, out[0], after);
      assert out[1..] == RewriteParts(root, wd, parts[1..], then_).value;
      PartMatches(root, wd, part, after, awaits);
      PartsMatch(root, wd, parts[1..], next, then_);
      PartCollected(root, wd, out[0], after);
      assert LinkParts(root, wd, parts, after)[1..] == LinkParts(root, wd, parts[1..], next);
      MatchesConcat(Below(root, wd), CollectPart(out[0], WorkerAwaits(after)), WrittenPart(LinkPartOf(root, wd, part, after)),
                    PartOutputs(root, wd, part, after, awaits),
                    CollectLinkerOutputPaths(out[1..], WorkerAwaits(next)), WrittenParts(LinkParts(root, wd, parts[1..], next)),
                    PartsOutputs(root, wd, parts[1..], next, then_));
    }
  }

  lemma HeadMatches(root: Comps, wd: Comps, args: seq<string>, more: seq<string>)
    requires Names(root) && Names(wd) && root <= wd && args != [] && RewriteHead(root, wd, args).Ok?
    requires HeadTame(root, wd, args[0]) && RewriteHead(root, wd, args).value.emitted != []
    requires OrdinaryHead(RewriteHead(root, wd, args).value.emitted + more)
    ensures var sent := RewriteHead(root, wd, args).value.emitted + more;
            Matches(Below(root, wd), CollectHead(sent).0, Written(HeadToken(root, wd, args).0), HeadOutputs(root, wd, args))
  {
    hide RefOf, RewriteCommandPath, SplitAttachedPathFlag, ConsumesPathValue, RewriteLinkerArgument, Tame, PartsTame, WorkerReads,
      OrdinaryParts, Matches, LinkParts, WrittenParts, PartsOutputs, CollectLinkerOutputPaths, Below, HeadToken;
    HeadTokenIs(root, wd, args);
    var arg, prefix := args[0], SplitAttachedPathFlag(args[0]);
    var out := RewriteHead(root, wd, args).value.emitted;
    var sent := out + more;
    assert sent[0] == out[0];
    NothingMatches(Below(root, wd));
    if ConsumesPathValue(arg) {
      ConsumedFlag(arg);
      assert sent[1] == out[1];
      RewrittenMatches(root, wd, args[1]);
    } else if prefix.Some? {
      AttachedMatches(root, wd, args, more);
    } else if "-Wl," <= arg {
      LinkerForm(root, wd, arg);
      AttachedFlag(out[0]);
      PartsMatch(root, wd, Split(arg, ',')[1..], None, false);
    } else {
      InsideItself(root, wd);
      PositionalKeepsMeaning(root, wd, root, wd, arg, out[0]);
      AttachedFlag(out[0]);
      OutputFlagsConsume(out[0]);
    }
  }

  lemma AttachedMatches(root: Comps, wd: Comps, args: seq<string>, more: seq<string>)
    requires Names(root) && Names(wd) && root <= wd && args != [] && RewriteHead(root, wd, args).Ok?
    requires !ConsumesPathValue(args[0]) && SplitAttachedPathFlag(args[0]).Some?
    ensures var sent := RewriteHead(root, wd, args).value.emitted + more;
            sent != [] &&
            Matches(Below(root, wd), CollectHead(sent).0, Written(HeadToken(root, wd, args).0), HeadOutputs(root, wd, args))
  {
    hide RefOf, RewriteCommandPath, SplitAttachedPathFlag, ConsumesPathValue, Matches, CollectLinkerOutputPaths, Below, HeadToken;
    HeadTokenIs(root, wd, args);
    var arg, p := args[0], SplitAttachedPathFlag(args[0]).value;
    var raw := arg[|p|..];
    var v := RewriteCommandPath(root, wd, raw).value.0;
    var sent := RewriteHead(root, wd, args).value.emitted + more;
    assert sent[0] == p + v;
    NothingMatches(Below(root, wd));
    RewrittenIsPath(root, wd, raw);
    AttachedAgain(p, v);
    AttachedFlag(p + v);
    OutputFlagsConsume(p + v);
    RewrittenMatches(root, wd, raw);
  }

  /** What the worker collects, what the original writes, and its outputs go together. */
  lemma {:induction false} OutputsMatch(root: Comps, wd: Comps, args: seq<string>)
    requires Names(root) && Names(wd) && root <= wd && RewriteAll(root, wd, args).Ok? && AllTame(root, wd, args)
    requires Ordinary(root, wd, RewriteAll(root, wd, args).value.0)
    ensures Matches(Below(root, wd), Collect(RewriteAll(root, wd, args).value.0), FilesWritten(Interpret(root, wd, args)),
                    Outputs(root, wd, args))
    decreases |args|
  {
    hide HeadToken, RewriteHead, HeadTame, OrdinaryHead, Moved, Matches, CollectHead, Written, HeadOutputs, Below;
    NothingMatches(Below(root, wd));
    if args != [] {
      var step := RewriteHead(root, wd, args).value;
      var rest := args[step.used..];
      var out := RewriteAll(root, wd, rest).value.0;
      var sent := step.emitted + out;
      InsideItself(root, wd);
      HeadKeepsMeaning(root, wd, root, wd, args, out);
      assert sent[|step.emitted|..] == out;
      OutputsMatch(root, wd, rest);
      HeadMatches(root, wd, args, out);
      HeadCollected(root, wd, sent);
      var (paths, used) := CollectHead(sent);
      var taken := HeadToken(root, wd, sent).1;
      if used < taken { SkipsValue(sent); }
      var t := HeadToken(root, wd, args).0;
      assert ([t] + Interpret(root, wd, rest))[1..] == Interpret(root, wd, rest);
      MatchesConcat(Below(root, wd), paths, Written(t), HeadOutputs(root, wd, args),
                    Collect(out), FilesWritten(Interpret(root, wd, rest)), Outputs(root, wd, rest));
    }
  }

  /** The worker runs the step in the directory it was moved to, and prepares the files that the original writes. */
  predicate PreparedFor(src: Comps, step: BuildStep, dir: Comps, files: seq<Ref>) {
    var r := PrepareSpec(src, step);
    && r.Ok? && r.value.0 == src + dir && |r.value.1| == |files|
    && forall i :: 0 <= i < |files| ==> files[i].Inside? && r.value.1[i] == src + files[i].rel
  }

  /** Both halves together. An accepted step reaches the worker as the step it was, wherever the tree was
      unpacked: it runs in the same directory, and exactly the files it writes are prepared, exactly when the
      directory is a plain path and every output of the original arrives. The artifact asked for is the last output. */
  lemma StepArrives(root: Comps, rawDirectory: string, argv: seq<string>)
    requires Names(root) && argv != [] && RewriteSpec(root, rawDirectory, argv).Ok?
    requires var wd := Resolve(root, rawDirectory);
             AllTame(root, wd, argv[1..]) && SourceOrdinary(root, wd, argv[1..])
    ensures var (step, output) := RewriteSpec(root, rawDirectory, argv).value;
            var wd := Resolve(root, rawDirectory);
            var dir, tokens := Below(root, wd), Interpret(root, wd, argv[1..]);
            var files, outputs := FilesWritten(tokens), Outputs(root, wd, argv[1..]);
            && |outputs| == |files| && (forall i :: 0 <= i < |files| ==> outputs[i].file == files[i])
            && step.args != [] && step.args[0] == Base(argv[0]) && output == LastOut(tokens)
            && ((forall src | Names(src) :: PreparedFor(src, step, dir, files)) <==>
                PlainPath(dir) && forall o <- outputs :: OutputArrives(dir, o))
  {
    DirectoryIs(root, rawDirectory);
    hide RewriteSpec, WorkingDirectory, Resolve, AllTame, SourceOrdinary, Interpret, FilesWritten, Collect, PreparedFor, PlainPath, Arrives,
      Name, Outputs, OutputArrives, Matches;
    StepForm(root, rawDirectory, argv);
    var (step, output) := RewriteSpec(root, rawDirectory, argv).value;
    var wd := WorkingDirectory(root, rawDirectory);
    var dir, files := Below(root, wd), FilesWritten(Interpret(root, wd, argv[1..]));
    var raws := Collect(step.args[1..]);
    StepOutputs(root, wd, argv[1..]);
    PreparedBelow(root, wd, step, raws, files);
    MatchesAll(dir, raws, files, Outputs(root, wd, argv[1..]));
  }

  lemma MatchesAll(dir: Comps, raws: seq<string>, files: seq<Ref>, os: seq<Output>)
    requires Matches(dir, raws, files, os)
    ensures |raws| == |files| == |os| && forall i :: 0 <= i < |files| ==> os[i].file == files[i]
    ensures (forall i :: 0 <= i < |files| ==> files[i].Inside? && Arrives(dir, raws[i], files[i].rel))
            <==> forall o <- os :: OutputArrives(dir, o)
  {
    hide Arrives, OutputArrives;
    if forall o <- os :: OutputArrives(dir, o) {
      forall i | 0 <= i < |files|
        ensures files[i].Inside? && Arrives(dir, raws[i], files[i].rel)
      {
        assert os[i] in os;
      }
    }
  }

  lemma StepForm(root: Comps, rawDirectory: string, argv: seq<string>)
    requires Names(root) && argv != [] && RewriteSpec(root, rawDirectory, argv).Ok?
    ensures var (step, output) := RewriteSpec(root, rawDirectory, argv).value;
            var wd := WorkingDirectory(root, rawDirectory);
            && Names(wd) && root <= wd && RewriteAll(root, wd, argv[1..]).Ok?
            && step.args != [] && step.args[0] == Base(argv[0]) && RewriteAll(root, wd, argv[1..]).value == (step.args[1..], output)
            && step.workingDirectory == RemoteDirectory(Below(root, wd))
  {
    hide RewriteAll, RemoteDirectory, Rel, IsWithinBase, CleanOnto;
    var wd := WorkingDirectory(root, rawDirectory);
    DirectoryNames(root, rawDirectory);
    WithinIsPrefix(root, wd);
    RelBelow(root, Below(root, wd));
    assert root + wd[|root|..] == wd;
    var sent := RewriteAll(root, wd, argv[1..]).value.0;
    assert ([Base(argv[0])] + sent)[1..] == sent;
  }

  /** Cleaning the working directory before it is joined to the root makes no difference: it is the directory that
      the command names. */
  lemma DirectoryIs(root: Comps, raw: string)
    requires Names(root)
    ensures WorkingDirectory(root, raw) == Resolve(root, raw)
  {
    CleanTwice(root, [], CompsOf(raw));
    CleanStep(true, root, []);
  }

  /** A step is refused exactly if its directory is outside the tree, or one of its arguments is refused. */
  lemma StepRefused(root: Comps, rawDirectory: string, argv: seq<string>)
    requires Names(root) && argv != []
    ensures var wd := Resolve(root, rawDirectory);
            RewriteSpec(root, rawDirectory, argv).Err? <==> !(root <= wd) || SomeRefused(root, wd, argv[1..])
  {
    DirectoryIs(root, rawDirectory);
    DirectoryNames(root, rawDirectory);
    WithinIsPrefix(root, WorkingDirectory(root, rawDirectory));
    RefusedExactly(root, WorkingDirectory(root, rawDirectory), argv[1..]);
    hide WorkingDirectory, Resolve, IsWithinBase, RewriteAll, SomeRefused, Rel, Base, RemoteDirectory;
  }

  /** The name of the program is what follows its last slash, but for slashes at the end. */
  lemma {:induction false} BaseIs(path: string, name: string, slashes: nat)
    requires name != "" && Free(name, '/')
    ensures Base(name) == name && Base(path + "/" + name + Slashes(slashes)) == name
    ensures Base("") == "." && Base("/" + Slashes(slashes)) == "/"
  {
    SplitFree(name, '/');
    var cs := Split(path, '/') + [name];
    SplitConcat(path, name, '/');
    SplitSlashes(path + "/" + name, slashes);
    LastOfSlashes(cs, slashes);
    SplitSlashes("", slashes + 1);
    LastOfSlashes([], slashes + 2);
    assert "" + Slashes(slashes + 1) == "/" + Slashes(slashes);
    assert [""] + Empties(slashes + 1) == Empties(slashes + 2) && [] + Empties(slashes + 2) == Empties(slashes + 2);
  }

  function Slashes(n: nat): string {
    if n == 0 then "" else "/" + Slashes(n - 1)
  }

  function Empties(n: nat): Comps {
    if n == 0 then [] else [""] + Empties(n - 1)
  }

  lemma {:induction false} SplitConcat(a: string, b: string, c: char)
    ensures Split(a + [c] + b, c) == Split(a, c) + Split(b, c)
  {
    hide Split;
    var s := a + [c] + b;
    SplitUnfold(s, c);
    SplitUnfold(a, c);
    if a == "" {
      assert s[1..] == b;
    } else {
      SplitConcat(a[1..], b, c);
      assert s[1..] == a[1..] + [c] + b && s[0] == a[0];
      GrowHead(a[0], Split(a[1..], c), Split(b, c));
    }
  }

  lemma SplitUnfold(s: string, c: char)
    ensures Split(s, c) == if s == "" then [""]
                           else if s[0] == c then [""] + Split(s[1..], c)
                           else GrownHead(s[0], Split(s[1..], c))
  {
  }

  function GrownHead(c: char, parts: Comps): Comps
    requires parts != []
  {
    [[c] + parts[0]] + parts[1..]
  }

  lemma GrowHead(c: char, a: Comps, b: Comps)
    requires a != []
    ensures GrownHead(c, a + b) == GrownHead(c, a) + b && [""] + (a + b) == [""] + a + b
  {
    assert (a + b)[1..] == a[1..] + b;
  }

  lemma {:induction false} SplitSlashes(s: string, n: nat)
    ensures Split(s + Slashes(n), '/') == Split(s, '/') + Empties(n)
    decreases n
  {
    hide Split;
    SplitUnfold("", '/');
    if n == 0 {
      assert s + "" == s;
    } else {
      SplitConcat(s, Slashes(n - 1), '/');
      SplitSlashes("", n - 1);
      assert "" + Slashes(n - 1) == Slashes(n - 1) && s + Slashes(n) == s + "/" + Slashes(n - 1);
    }
  }

  lemma {:induction false} LastOfSlashes(cs: Comps, n: nat)
    ensures LastName(cs + Empties(n)) == LastName(cs)
    decreases n
  {
    if n == 0 {
      assert cs + [] == cs;
    } else {
      EmptiesSnoc(n - 1);
      assert cs + Empties(n) == cs + Empties(n - 1) + [""];
      assert (cs + Empties(n - 1) + [""])[..|cs + Empties(n - 1)|] == cs + Empties(n - 1);
      LastOfSlashes(cs, n - 1);
    }
  }

  lemma {:induction false} EmptiesSnoc(n: nat)
    ensures Empties(n + 1) == Empties(n) + [""]
  {
    if n > 0 { EmptiesSnoc(n - 1); }
  }

  lemma DirectoryNames(root: Comps, raw: string)
    requires Names(root)
    ensures Names(WorkingDirectory(root, raw))
  {
    var cs := CompsOf(raw);
    CleanRootedNames([], cs);
    CleanTwice(root, [], cs);
    CleanStep(true, root, []);
    CleanRootedNames(root, cs);
  }

  lemma StepOutputs(root: Comps, wd: Comps, args: seq<string>)
    requires Names(root) && Names(wd) && root <= wd && RewriteAll(root, wd, args).Ok?
    requires AllTame(root, wd, args) && SourceOrdinary(root, wd, args)
    ensures |Collect(RewriteAll(root, wd, args).value.0)| == |FilesWritten(Interpret(root, wd, args))|
    ensures Matches(Below(root, wd), Collect(RewriteAll(root, wd, args).value.0), FilesWritten(Interpret(root, wd, args)),
                    Outputs(root, wd, args))
    ensures RewriteAll(root, wd, args).value.1 == LastOut(Interpret(root, wd, args))
  {
    InsideItself(root, wd);
    WorkerPreparesOutputs(root, wd, root, wd, args);
    RefsOfSome(root, wd, Collect(RewriteAll(root, wd, args).value.0));
    OutputIsLast(root, wd, args);
    OrdinarySent(root, wd, root, wd, args);
    OutputsMatch(root, wd, args);
  }

  lemma PreparedBelow(root: Comps, wd: Comps, step: BuildStep, raws: seq<string>, files: seq<Ref>)
    requires Names(root) && Names(wd) && root <= wd && step.args != [] && raws == Collect(step.args[1..])
    requires |raws| == |files| && step.workingDirectory == RemoteDirectory(Below(root, wd))
    ensures var dir := Below(root, wd);
            (forall src | Names(src) :: PreparedFor(src, step, dir, files)) <==>
            PlainPath(dir) && forall i :: 0 <= i < |files| ==> files[i].Inside? && Arrives(dir, raws[i], files[i].rel)
  {
    hide ResolvePlanStepPath, StepDirectory, PlainPath, Arrives, RemoteDirectory, Name, Collect, PreparedFor, Below;
    var dir := Below(root, wd);
    InsideItself(root, wd);
    MovedNames(root, wd, root, wd);
    if forall src | Names(src) :: PreparedFor(src, step, dir, files) {
      PreparedMeans(root, step, dir, raws, files);
      forall i | 0 <= i < |files|
        ensures files[i].Inside? && Arrives(dir, raws[i], files[i].rel)
      {
        forall src, wd2 | Moved(root, wd, src, wd2)
          ensures ResolvePlanStepPath(src, wd2, raws[i]) == Ok(src + files[i].rel)
        {
          PreparedMeans(src, step, dir, raws, files);
          MovedTo(root, wd, src, wd2);
        }
        PdbPrepared(root, wd, raws[i], files[i].rel);
      }
    } else if PlainPath(dir) && forall i :: 0 <= i < |files| ==> files[i].Inside? && Arrives(dir, raws[i], files[i].rel) {
      forall src | Names(src)
        ensures PreparedFor(src, step, dir, files)
      {
        MovedTo(root, wd, src, src + dir);
        forall i | 0 <= i < |files|
          ensures files[i].Inside? && ResolvePlanStepPath(src, src + dir, raws[i]) == Ok(src + files[i].rel)
        {
          PdbPrepared(root, wd, raws[i], files[i].rel);
        }
        PreparedMeans(src, step, dir, raws, files);
      }
    }
  }

  lemma MovedTo(root: Comps, wd: Comps, src: Comps, wd2: Comps)
    requires Names(root) && Names(wd) && root <= wd
    ensures Moved(root, wd, src, wd2) <==> Names(src) && wd2 == src + Below(root, wd)
  {
  }

  lemma PreparedMeans(src: Comps, step: BuildStep, dir: Comps, raws: seq<string>, files: seq<Ref>)
    requires Names(src) && Names(dir) && step.args != [] && raws == Collect(step.args[1..])
    requires |raws| == |files| && step.workingDirectory == RemoteDirectory(dir)
    ensures PreparedFor(src, step, dir, files) <==>
            && PlainPath(dir)
            && forall i :: 0 <= i < |files| ==> files[i].Inside? && ResolvePlanStepPath(src, src + dir, raws[i]) == Ok(src + files[i].rel)
  {
    hide ResolvePlanStepPath, StepDirectory, PlainPath, RemoteDirectory, Name, Collect, ResolveAll;
    StepDirectoryIs(src, dir);
    ResolveAllIs(src, src + dir, raws);
  }
}
