/** Cliant rewrites every path of a compiler or linker command for the remote workspace
    (Cliant/cmake.go). */
module RemotePaths {
  import opened Prelude
  import opened Paths

  datatype Result<+T> = Ok(value: T) | Err

  // ---------------------------------------------------------------- Cliant: one path

  /** rewriteCommandPath: the path relative to the working directory, and its absolute form (none for ""). */
  function RewriteCommandPath(root: Comps, wd: Comps, raw: string): Result<(string, Option<Comps>)> {
    if raw == "" then Ok(("", None))
    else
      var abs := Resolve(wd, raw);
      if IsWithinBase(root, abs) then Ok((Render(Rel(wd, abs)), Some(abs))) else Err
  }

  /** relativeToRoot */
  function RelativeToRoot(root: Comps, abs: Option<Comps>): Result<Comps> {
    if abs.Some? && IsWithinBase(root, abs.value) then Ok(Rel(root, abs.value)) else Err
  }

  // ---------------------------------------------------------------- Cliant: one argument

  predicate ConsumesPathValue(arg: string) {
    arg in ["-o", "-MF", "-I", "-L", "-include", "-imacros", "-idirafter", "-iframework", "-iquote", "-isystem", "-isysroot", "-syslibroot"]
  }

  const ATTACHED: seq<string> :=
    ["-I", "-L", "-o", "-MF", "-include", "-imacros", "-idirafter", "-iframework", "-iquote", "-isystem", "-isysroot", "-syslibroot"]

  function FirstPrefix(prefixes: seq<string>, arg: string): (r: Option<string>)
    ensures r.Some? ==> r.value in prefixes && r.value < arg
  {
    if prefixes == [] then None
    else if prefixes[0] < arg then Some(prefixes[0])
    else FirstPrefix(prefixes[1..], arg)
  }

  function SplitAttachedPathFlag(arg: string): (r: Option<string>)
    ensures r.Some? ==> r.value in ATTACHED && r.value < arg
  {
    FirstPrefix(ATTACHED, arg)
  }

  predicate LinkerOptionTakesPath(option: string) {
    option in ["--out-implib", "--output-def", "-Map", "-T"]
  }

  /** The options that the worker takes to name outputs. */
  predicate LinkerOptionWritesFile(option: string) {
    option in ["--out-implib", "--output-def", "--pdb"]
  }

  /** strings.Cut(s, "=") */
  function Cut(s: string): Option<(string, string)> {
    if s == "" then None
    else if s[0] == '=' then Some(("", s[1..]))
    else
      match Cut(s[1..])
      case None => None
      case Some((a, b)) => Some(([s[0]] + a, b))
  }

  /** What the loop of rewriteLinkerArgument writes in place of one part. */
  function RewritePart(root: Comps, wd: Comps, part: string, awaits: bool): Result<string> {
    var cut := Cut(part);
    if awaits then FirstOf(RewriteCommandPath(root, wd, part), "")
    else if cut.Some? && LinkerOptionTakesPath(cut.value.0) then
      FirstOf(RewriteCommandPath(root, wd, cut.value.1), cut.value.0 + "=")
    else Ok(part)
  }

  /** The loop of rewriteLinkerArgument; awaits says that the previous option takes this part as its path. */
  function RewriteParts(root: Comps, wd: Comps, parts: seq<string>, awaits: bool): Result<seq<string>>
    decreases |parts|
  {
    if parts == [] then Ok([])
    else
      var head := RewritePart(root, wd, parts[0], awaits);
      var rest := RewriteParts(root, wd, parts[1..], !awaits && Cut(parts[0]).None? && LinkerOptionTakesPath(parts[0]));
      if head.Ok? && rest.Ok? then Ok([head.value] + rest.value) else Err
  }

  function FirstOf(r: Result<(string, Option<Comps>)>, prefix: string): Result<string> {
    if r.Ok? then Ok(prefix + r.value.0) else Err
  }

  function RewriteLinkerArgument(root: Comps, wd: Comps, arg: string): Result<string> {
    var parts := Split(arg, ',');
    var rest := RewriteParts(root, wd, parts[1..], false);
    if rest.Ok? then Ok(Join([parts[0]] + rest.value, ',')) else Err
  }

  /** rewriteLinkerArgument, which rewrites its parts where they are. */
  method RewriteLinkerParts(root: Comps, wd: Comps, arg: string) returns (r: Result<string>)
    ensures r == RewriteLinkerArgument(root, wd, arg)
  {
    hide RewriteCommandPath, RewriteParts, Cut, Split, Join, LinkerOptionTakesPath, FirstOf;
    var parts := Split(arg, ',');
    ghost var given := parts;
    var expectPath, i := false, 1;
    NoPartsLeft(root, wd);
    assert parts[..1] == [given[0]];
    while i < |parts|
      invariant 1 <= i <= |parts| == |given| && parts[i..] == given[i..]
      invariant Prepend(parts[..i], RewriteParts(root, wd, parts[i..], expectPath))
                == Prepend([given[0]], RewriteParts(root, wd, given[1..], false))
    {
      var part := parts[i];
      PrependHead(root, wd, parts[..i], parts[i..], expectPath);
      ghost var done, rest := parts[..i], parts[i + 1..];
      assert parts[i..][1..] == rest;
      var cut := Cut(part);
      var rewritten := Ok(part);
      if expectPath {
        rewritten, expectPath := FirstOf(RewriteCommandPath(root, wd, part), ""), false;
      } else if cut.Some? {
        if LinkerOptionTakesPath(cut.value.0) {
          rewritten := FirstOf(RewriteCommandPath(root, wd, cut.value.1), cut.value.0 + "=");
        }
      } else if LinkerOptionTakesPath(part) {
        expectPath := true;
      }
      if rewritten.Err? {
        return Err;
      }
      parts := parts[i := rewritten.value];
      assert parts[..i + 1] == done + [rewritten.value] && parts[i + 1..] == rest == given[i + 1..];
      i := i + 1;
    }
    assert parts[i..] == [] && parts[..i] == parts && parts + [] == parts;
    return Ok(Join(parts, ','));
  }

  lemma NoPartsLeft(root: Comps, wd: Comps)
    ensures forall awaits :: RewriteParts(root, wd, [], awaits) == Ok([])
  {
  }

  function Prepend(done: seq<string>, rest: Result<seq<string>>): Result<seq<string>> {
    if rest.Ok? then Ok(done + rest.value) else Err
  }

  lemma PrependHead(root: Comps, wd: Comps, done: seq<string>, parts: seq<string>, awaits: bool)
    requires parts != []
    ensures var head := RewritePart(root, wd, parts[0], awaits);
            Prepend(done, RewriteParts(root, wd, parts, awaits))
            == if head.Err? then Err
               else Prepend(done + [head.value],
                            RewriteParts(root, wd, parts[1..], !awaits && Cut(parts[0]).None? && LinkerOptionTakesPath(parts[0])))
  {
    hide RewritePart, Cut, LinkerOptionTakesPath;
    var rest := RewriteParts(root, wd, parts[1..], !awaits && Cut(parts[0]).None? && LinkerOptionTakesPath(parts[0]));
    forall h: string | rest.Ok?
      ensures done + ([h] + rest.value) == done + [h] + rest.value
    {
    }
  }

  function RewritePositionalArgument(root: Comps, wd: Comps, arg: string): Result<string> {
    if "-" <= arg then Ok(arg)
    else if "@" <= arg then FirstOf(RewriteCommandPath(root, wd, arg[1..]), "@")
    else if !IsAbs(arg) then Ok(arg)
    else FirstOf(RewriteCommandPath(root, wd, arg), "")
  }

  // ---------------------------------------------------------------- Cliant: one build step

  /** What the loop of rewriteBuildStepForRemote does at the head of args. */
  datatype Step = Step(emitted: seq<string>, used: nat, output: Option<Comps>)

  function RewriteHead(root: Comps, wd: Comps, args: seq<string>): (r: Result<Step>)
    requires args != []
    ensures r.Ok? ==> 1 <= r.value.used <= |args|
  {
    var arg := args[0];
    var prefix := SplitAttachedPathFlag(arg);
    if ConsumesPathValue(arg) then
      if |args| == 1 then Err
      else WithOutput(root, RewriteCommandPath(root, wd, args[1]), v => [arg, v], 2, arg == "-o")
    else if prefix.Some? then
      WithOutput(root, RewriteCommandPath(root, wd, arg[|prefix.value|..]), v => [prefix.value + v], 1, prefix.value == "-o")
    else
      var r := if "-Wl," <= arg then RewriteLinkerArgument(root, wd, arg) else RewritePositionalArgument(root, wd, arg);
      if r.Ok? then Ok(Step([r.value], 1, None)) else Err
  }

  function WithOutput(root: Comps, r: Result<(string, Option<Comps>)>, emit: string -> seq<string>, used: nat, isOutput: bool): (s: Result<Step>)
    ensures s.Ok? ==> s.value.used == used
  {
    if r.Err? then Err
    else if !isOutput then Ok(Step(emit(r.value.0), used, None))
    else
      match RelativeToRoot(root, r.value.1)
      case Ok(rel) => Ok(Step(emit(r.value.0), used, Some(rel)))
      case Err => Err
  }

  /** The rewritten arguments, and the last output named, if any. */
  function RewriteAll(root: Comps, wd: Comps, args: seq<string>): Result<(seq<string>, Option<Comps>)>
    decreases |args|
  {
    if args == [] then Ok(([], None))
    else
      var head := RewriteHead(root, wd, args);
      if head.Err? then Err
      else
        var rest := RewriteAll(root, wd, args[head.value.used..]);
        if rest.Err? then Err
        else Ok((head.value.emitted + rest.value.0, if rest.value.1.Some? then rest.value.1 else head.value.output))
  }

  datatype BuildStep = BuildStep(args: seq<string>, workingDirectory: string)

  /** filepath.Base */
  function Base(arg: string): string {
    if arg == "" then "." else LastName(CompsOf(arg))
  }

  function LastName(cs: Comps): string {
    if cs == [] then "/" else if cs[|cs| - 1] != "" then cs[|cs| - 1] else LastName(cs[..|cs| - 1])
  }

  /** The cleaned working directory, joined to the root if it was relative. */
  function WorkingDirectory(root: Comps, raw: string): Comps {
    if IsAbs(raw) then Clean(true, CompsOf(raw)) else CleanOnto(true, root, Clean(false, CompsOf(raw)))
  }

  function RemoteDirectory(rel: Comps): string {
    if rel == [] then "" else Render(rel)
  }

  /** What is rewritten so far, followed by the rest. */
  function Extend(args: seq<string>, output: Option<Comps>, rest: Result<(seq<string>, Option<Comps>)>): Result<(seq<string>, Option<Comps>)> {
    if rest.Err? then Err else Ok((args + rest.value.0, if rest.value.1.Some? then rest.value.1 else output))
  }

  lemma ExtendNothing(root: Comps, wd: Comps, args: seq<string>, output: Option<Comps>)
    ensures Extend(args, output, RewriteAll(root, wd, [])) == Ok((args, output))
  {
    assert args + [] == args;
  }

  lemma ExtendHead(root: Comps, wd: Comps, rest: seq<string>, args: seq<string>, output: Option<Comps>)
    requires rest != []
    ensures var head := RewriteHead(root, wd, rest);
            Extend(args, output, RewriteAll(root, wd, rest)) ==
            if head.Err? then Err
            else Extend(args + head.value.emitted, if head.value.output.Some? then head.value.output else output,
                        RewriteAll(root, wd, rest[head.value.used..]))
  {
    hide RewriteHead;
    var head := RewriteHead(root, wd, rest);
    if head.Ok? && RewriteAll(root, wd, rest[head.value.used..]).Ok? {
      Regroup(args, head.value.emitted, RewriteAll(root, wd, rest[head.value.used..]).value.0);
    }
  }

  lemma Regroup(a: seq<string>, b: seq<string>, c: seq<string>)
    ensures a + (b + c) == a + b + c
  {
  }

  function RewriteSpec(root: Comps, rawDirectory: string, argv: seq<string>): Result<(BuildStep, Option<Comps>)>
    requires argv != []
  {
    var wd := WorkingDirectory(root, rawDirectory);
    if !IsWithinBase(root, wd) then Err
    else
      match Extend([Base(argv[0])], None, RewriteAll(root, wd, argv[1..]))
      case Err => Err
      case Ok((args, output)) => Ok((BuildStep(args, RemoteDirectory(Rel(root, wd))), output))
  }

  /** rewriteBuildStepForRemote */
  method RewriteBuildStepForRemote(root: Comps, rawDirectory: string, argv: seq<string>)
    returns (r: Result<(BuildStep, Option<Comps>)>)
    requires argv != []
    ensures r == RewriteSpec(root, rawDirectory, argv)
  {
    hide RewriteHead, Rel, RemoteDirectory, Base, WorkingDirectory, IsWithinBase, RewriteAll, Extend;
    var wd := WorkingDirectory(root, rawDirectory);
    if !IsWithinBase(root, wd) {
      return Err;
    }
    var stepArgs := [Base(argv[0])];
    var output: Option<Comps> := None;
    var i := 1;
    while i < |argv|
      invariant 1 <= i <= |argv|
      invariant Extend(stepArgs, output, RewriteAll(root, wd, argv[i..])) == Extend([Base(argv[0])], None, RewriteAll(root, wd, argv[1..]))
    {
      var step := RewriteHead(root, wd, argv[i..]);
      ExtendHead(root, wd, argv[i..], stepArgs, output);
      if step.Err? {
        return Err;
      }
      assert argv[i..][step.value.used..] == argv[i + step.value.used..];
      stepArgs := stepArgs + step.value.emitted;
      if step.value.output.Some? {
        output := step.value.output;
      }
      i := i + step.value.used;
    }
    assert argv[i..] == [];
    ExtendNothing(root, wd, stepArgs, output);
    return Ok((BuildStep(stepArgs, RemoteDirectory(Rel(root, wd))), output));
  }

  // ---------------------------------------------------------------- what a command names

  /** The file a path names, as seen from the root of the source tree. */
  datatype Ref = NoPath | Inside(rel: Comps) | Outside

  function RefOf(root: Comps, wd: Comps, raw: string): Ref {
    if raw == "" then NoPath
    else
      var abs := Resolve(wd, raw);
      if root <= abs then Inside(abs[|root|..]) else Outside
  }

  lemma RefIsPath(root: Comps, wd: Comps, raw: string)
    ensures RefOf(root, wd, raw) == NoPath <==> raw == ""
  {
  }

  datatype LinkPart = Plain(text: string) | PathAfter(option: string, file: Ref) | OptionPath(option: string, file: Ref)

  datatype Token =
    | FlagValue(flag: string, file: Ref)
    | AttachedPath(flag: string, file: Ref)
    | Linker(parts: seq<LinkPart>)
    | Flag(text: string)
    | ResponseFile(file: Ref)
    | Input(file: Ref)

  /** How the linker reads its comma-separated parts; after is the option that takes the next part as its path. */
  function LinkParts(root: Comps, wd: Comps, parts: seq<string>, after: Option<string>): seq<LinkPart>
    decreases |parts|
  {
    if parts == [] then []
    else
      [LinkPartOf(root, wd, parts[0], after)] + LinkParts(root, wd, parts[1..], NextAfter(parts[0], after))
  }

  /** The linker's options that name a file. */
  predicate LinkerOptionNamesPath(option: string) {
    option == "-T" || option == "-Map" || LinkerOptionNamesOutput(option)
  }

  /** Those among them that make the linker write a file which later steps or the caller may ask for. */
  predicate LinkerOptionNamesOutput(option: string) {
    option == "--out-implib" || option == "--output-def" || option == "--pdb"
  }

  function LinkPartOf(root: Comps, wd: Comps, part: string, after: Option<string>): LinkPart {
    var cut := Cut(part);
    if after.Some? then PathAfter(after.value, RefOf(root, wd, part))
    else if cut.Some? && LinkerOptionNamesPath(cut.value.0) then OptionPath(cut.value.0, RefOf(root, wd, cut.value.1))
    else Plain(part)
  }

  function NextAfter(part: string, after: Option<string>): Option<string> {
    if after == None && Cut(part) == None && LinkerOptionNamesPath(part) then Some(part) else None
  }

  /** Whether the client takes the next part for a path, and whether the worker does. */
  predicate ClientAwaits(after: Option<string>) {
    after.Some? && LinkerOptionTakesPath(after.value)
  }

  predicate WorkerAwaits(after: Option<string>) {
    after.Some? && LinkerOptionWritesFile(after.value)
  }

  /** The driver's options that take a path: as the next argument, or attached to the option. */
  predicate PathOption(s: string) {
    || s == "-o" || s == "-I" || s == "-L" || s == "-MF"
    || s == "-include" || s == "-imacros"
    || s == "-idirafter" || s == "-iquote" || s == "-isystem" || s == "-iframework"
    || s == "-isysroot" || s == "-syslibroot"
  }

  /** The path option that arg starts with, if its first k characters do not contain one. */
  function PathOptionOf(arg: string, k: nat): (r: Option<string>)
    ensures r.Some? ==> PathOption(r.value) && r.value <= arg
    decreases |arg| - k
  {
    if k > |arg| then None
    else if PathOption(arg[..k]) then Some(arg[..k])
    else PathOptionOf(arg, k + 1)
  }

  /** How the driver reads the head of args in directory wd, and how many arguments that takes. */
  function HeadToken(root: Comps, wd: Comps, args: seq<string>): (t: (Token, nat))
    requires args != []
    ensures 1 <= t.1 <= |args|
  {
    var arg := args[0];
    match PathOptionOf(arg, 0)
    case Some(option) =>
      if option != arg then (AttachedPath(option, RefOf(root, wd, arg[|option|..])), 1)
      else if |args| == 1 then (Flag(arg), 1)
      else (FlagValue(arg, RefOf(root, wd, args[1])), 2)
    case None =>
      if "-Wl," <= arg then (Linker(LinkParts(root, wd, Split(arg, ',')[1..], None)), 1)
      else if "-" <= arg then (Flag(arg), 1)
      else if "@" <= arg then (ResponseFile(RefOf(root, wd, arg[1..])), 1)
      else (Input(RefOf(root, wd, arg)), 1)
  }

  /** The meaning of a command line: its options, and the files it names. */
  function Interpret(root: Comps, wd: Comps, args: seq<string>): seq<Token>
    decreases |args|
  {
    if args == [] then []
    else
      var (t, used) := HeadToken(root, wd, args);
      [t] + Interpret(root, wd, args[used..])
  }

  /** The local working directory, seen from the root. */
  function Below(root: Comps, wd: Comps): Comps {
    if root <= wd then wd[|root|..] else []
  }

  /** The same place under another root. */
  ghost predicate Moved(root: Comps, wd: Comps, root2: Comps, wd2: Comps) {
    Names(root) && Names(wd) && Names(root2) && root <= wd && wd2 == root2 + wd[|root|..]
  }

  lemma MovedNames(root: Comps, wd: Comps, root2: Comps, wd2: Comps)
    requires Moved(root, wd, root2, wd2)
    ensures Names(wd2) && wd == root + Below(root, wd) && Names(Below(root, wd)) && root2 <= wd2
  {
    assert forall p <- wd[|root|..] :: p in wd;
  }

  /** A rewritten path names, under any other root, the file that the original names here. */
  lemma RewriteKeepsRef(root: Comps, wd: Comps, root2: Comps, wd2: Comps, raw: string)
    requires Moved(root, wd, root2, wd2) && RewriteCommandPath(root, wd, raw).Ok?
    ensures var v := RewriteCommandPath(root, wd, raw).value.0;
            RefOf(root2, wd2, v) == RefOf(root, wd, raw) != Outside && !IsAbs(v) && (v == "" <==> raw == "")
  {
    if raw != "" {
      MovedNames(root, wd, root2, wd2);
      var abs := Resolve(wd, raw);
      ResolveNames(wd, raw);
      WithinIsPrefix(root, abs);
      var a, b := Below(root, wd), abs[|root|..];
      assert abs == root + b && forall p <- b :: p in abs;
      RelShift(root, a, b);
      RelShift(root2, a, b);
      RelParts(wd, abs);
      RenderComps(true, wd2, Rel(wd, abs));
      RelResolves(wd2, root2 + b);
      assert (root2 + b)[|root2|..] == b;
    }
  }

  /** A path is spelled without commas if it was given without. */
  lemma RewriteKeepsFree(root: Comps, wd: Comps, raw: string)
    requires Names(wd) && RewriteCommandPath(root, wd, raw).Ok? && Free(raw, ',')
    ensures Free(RewriteCommandPath(root, wd, raw).value.0, ',')
  {
    if raw != "" {
      RelUsesRaw(wd, raw);
      SplitKeepsFree(raw, '/', ',');
      JoinFree(Rel(wd, Resolve(wd, raw)), '/', ',');
    }
  }

  lemma {:induction false} SplitKeepsFree(s: string, c: char, d: char)
    requires Free(s, d)
    ensures forall p <- Split(s, c) :: Free(p, d)
  {
    if s != "" {
      assert s[0] in s && forall x <- s[1..] :: x in s;
      SplitKeepsFree(s[1..], c, d);
      assert Split(s[1..], c)[0] in Split(s[1..], c);
    }
  }

  lemma {:induction false} JoinFree(parts: seq<string>, c: char, d: char)
    requires c != d && forall p <- parts :: Free(p, d)
    ensures Free(Join(parts, c), d)
  {
    if |parts| == 1 {
      assert parts[0] in parts;
    } else if parts != [] {
      assert parts[0] in parts && forall p <- parts[1..] :: p in parts;
      JoinFree(parts[1..], c, d);
    }
  }

  // ---------------------------------------------------------------- rewriting keeps the meaning

  /** No path flag starts with another one. */
  lemma FlagsApart(p: string, q: string)
    requires p in ATTACHED && q in ATTACHED && p <= q
    ensures p == q
  {
    assert p[1] == q[1];
    if |p| > 2 && |q| > 2 { assert p[2] == q[2]; }
    if |p| > 5 && |q| > 5 { assert p[4] == q[4] && p[5] == q[5]; }
  }

  lemma {:induction false} FirstPrefixFinds(prefixes: seq<string>, p: string, arg: string)
    requires p in prefixes && p < arg && forall q <- prefixes :: q in ATTACHED
    ensures FirstPrefix(prefixes, arg) == Some(p)
  {
    assert prefixes[0] in prefixes && forall q <- prefixes[1..] :: q in prefixes;
    var q := prefixes[0];
    if q < arg {
      if |q| <= |p| { assert q == arg[..|q|] == p[..|q|]; FlagsApart(q, p); }
      else { assert p == arg[..|p|] == q[..|p|]; FlagsApart(p, q); }
    } else {
      FirstPrefixFinds(prefixes[1..], p, arg);
    }
  }

  lemma AttachedAgain(p: string, v: string)
    requires p in ATTACHED && v != ""
    ensures SplitAttachedPathFlag(p + v) == Some(p) && (p + v)[|p|..] == v && !ConsumesPathValue(p + v)
  {
    FirstPrefixFinds(ATTACHED, p, p + v);
    if ConsumesPathValue(p + v) {
      assert p + v in ATTACHED;
      FlagsApart(p, p + v);
    }
  }

  /** The client's two tables of path flags are the driver's path options, and what it takes for a flag and its
      attached path is what the driver takes for them. */
  lemma TablesAgree(arg: string)
    ensures ConsumesPathValue(arg) <==> PathOption(arg)
    ensures arg in ATTACHED <==> PathOption(arg)
    ensures PathOptionOf(arg, 0) == if ConsumesPathValue(arg) then Some(arg) else SplitAttachedPathFlag(arg)
  {
    hide ConsumesPathValue, PathOption, PathOptionOf, ATTACHED;
    SameOptions(arg);
    if arg in ATTACHED {
      PathOptionFound(arg, arg, 0);
    } else {
      var p := SplitAttachedPathFlag(arg);
      if p.Some? { PathOptionFound(p.value, arg, 0); }
      var q := PathOptionOf(arg, 0);
      if q.Some? {
        SameOptions(q.value);
        assert q.value != arg;
        FirstPrefixFinds(ATTACHED, q.value, arg);
      }
    }
  }

  lemma SameOptions(s: string)
    ensures ConsumesPathValue(s) <==> PathOption(s)
    ensures s in ATTACHED <==> PathOption(s)
  {
  }

  lemma {:induction false} PathOptionFound(p: string, arg: string, k: nat)
    requires p in ATTACHED && p <= arg && k <= |p|
    ensures PathOptionOf(arg, k) == Some(p)
    decreases |p| - k
  {
    hide PathOption, ATTACHED;
    SameOptions(arg[..k]);
    SameOptions(p);
    if PathOption(arg[..k]) {
      assert arg[..k] == p[..k] <= p;
      FlagsApart(arg[..k], p);
    } else {
      assert p == arg[..|p|];
      PathOptionFound(p, arg, k + 1);
    }
  }

  /** The linker's table is that of the client and that of the worker together. */
  lemma LinkerTablesAgree(option: string)
    ensures LinkerOptionNamesPath(option) <==> LinkerOptionTakesPath(option) || LinkerOptionWritesFile(option)
    ensures LinkerOptionNamesOutput(option) <==> LinkerOptionWritesFile(option)
  {
  }

  /** The driver's reading of the head of args in terms of the client's tables. */
  lemma HeadTokenIs(root: Comps, wd: Comps, args: seq<string>)
    requires args != []
    ensures var arg, prefix := args[0], SplitAttachedPathFlag(args[0]);
            HeadToken(root, wd, args) ==
            if ConsumesPathValue(arg) then
              if |args| == 1 then (Flag(arg), 1) else (FlagValue(arg, RefOf(root, wd, args[1])), 2)
            else if prefix.Some? then (AttachedPath(prefix.value, RefOf(root, wd, arg[|prefix.value|..])), 1)
            else if "-Wl," <= arg then (Linker(LinkParts(root, wd, Split(arg, ',')[1..], None)), 1)
            else if "-" <= arg then (Flag(arg), 1)
            else if "@" <= arg then (ResponseFile(RefOf(root, wd, arg[1..])), 1)
            else (Input(RefOf(root, wd, arg)), 1)
  {
    hide ConsumesPathValue, SplitAttachedPathFlag, PathOptionOf, RefOf, LinkParts, Split;
    TablesAgree(args[0]);
  }

  /** Attached to its flag or given after it, a path is rewritten alike, and reported alike as the output. */
  lemma AttachedLikeSeparate(root: Comps, wd: Comps, f: string, v: string)
    requires PathOption(f) && v != ""
    ensures var attached, separate := RewriteHead(root, wd, [f + v]), RewriteHead(root, wd, [f, v]);
            && (attached.Ok? <==> separate.Ok?)
            && (separate.Ok? ==>
                  && |separate.value.emitted| == 2 && separate.value.emitted[0] == f
                  && attached.value.emitted == [f + separate.value.emitted[1]]
                  && attached.value.output == separate.value.output)
  {
    hide RewriteCommandPath, RelativeToRoot, SplitAttachedPathFlag, ConsumesPathValue, PathOption, ATTACHED;
    SameOptions(f);
    AttachedAgain(f, v);
  }

  /** The paths that a command names with path options, as they are spelled. */
  function OptionPaths(args: seq<string>): seq<string>
    decreases |args|
  {
    if args == [] then []
    else
      var arg := args[0];
      match PathOptionOf(arg, 0)
      case None => OptionPaths(args[1..])
      case Some(option) =>
        if option != arg then [arg[|option|..]] + OptionPaths(args[1..])
        else if |args| == 1 then []
        else [args[1]] + OptionPaths(args[2..])
  }

  lemma {:induction false} CutAgain(option: string, v: string)
    requires Free(option, '=')
    ensures Cut(option + "=" + v) == Some((option, v))
  {
    var s := option + "=" + v;
    if option == "" {
      assert s[0] == '=' && s[1..] == v;
    } else {
      assert s[0] == option[0] && option[0] in option;
      assert s[1..] == option[1..] + "=" + v;
      assert [option[0]] + option[1..] == option;
      CutAgain(option[1..], v);
    }
  }

  lemma {:induction false} CutIs(s: string)
    ensures Cut(s).Some? ==> Free(Cut(s).value.0, '=') && s == Cut(s).value.0 + "=" + Cut(s).value.1
  {
    if s != "" && s[0] != '=' {
      CutIs(s[1..]);
      if Cut(s[1..]).Some? {
        var (a, b) := Cut(s[1..]).value;
        assert s == [s[0]] + s[1..] == ([s[0]] + a) + "=" + b;
      }
    } else if s != "" {
      assert s == "" + "=" + s[1..];
    }
  }

  /** A path that is passed on as it is must be relative and must not leave the source root on its way. */
  predicate PassedOn(root: Comps, wd: Comps, raw: string) {
    !IsAbs(raw) && Walk(0, Below(root, wd), CompsOf(raw)).0 == 0
  }

  /** What is written for a path can be passed on, and names the file that the path names. */
  predicate SamePath(root: Comps, wd: Comps, raw: string, out: string) {
    PassedOn(root, wd, out) && RefOf(root, wd, out) == RefOf(root, wd, raw)
  }

  /** The file of an option that the client does not know must be one that can be passed on. Where the client takes
      such a file for an option, or waits for a path that the linker does not expect, what it writes must be read
      like what it was given. */
  predicate PartTame(root: Comps, wd: Comps, part: string, after: Option<string>, awaits: bool) {
    var cut, r := Cut(part), RewritePart(root, wd, part, awaits);
    if r.Err? then true
    else if after.Some? then awaits || SamePath(root, wd, part, r.value)
    else if cut.Some? && LinkerOptionNamesPath(cut.value.0) then
      if awaits then
        var written := Cut(r.value);
        written.Some? && written.value.0 == cut.value.0 && SamePath(root, wd, cut.value.1, written.value.1)
      else LinkerOptionTakesPath(cut.value.0) || PassedOn(root, wd, cut.value.1)
    else awaits ==> r.value == part
  }

  /** Whether the client takes the part after this one for a path. */
  predicate StillAwaits(part: string, awaits: bool) {
    !awaits && Cut(part).None? && LinkerOptionTakesPath(part)
  }

  predicate PartsTame(root: Comps, wd: Comps, parts: seq<string>, after: Option<string>, awaits: bool)
    decreases |parts|
  {
    parts == []
    || (PartTame(root, wd, parts[0], after, awaits)
        && PartsTame(root, wd, parts[1..], NextAfter(parts[0], after), StillAwaits(parts[0], awaits)))
  }

  lemma PartKeepsMeaning(root: Comps, wd: Comps, root2: Comps, wd2: Comps, part: string, after: Option<string>, awaits: bool)
    requires Moved(root, wd, root2, wd2) && RewritePart(root, wd, part, awaits).Ok? && PartTame(root, wd, part, after, awaits)
    ensures var out := RewritePart(root, wd, part, awaits).value;
            LinkPartOf(root2, wd2, out, after) == LinkPartOf(root, wd, part, after)
  {
    hide RefOf, RewriteCommandPath, PassedOn, Cut, LinkerOptionTakesPath, LinkerOptionNamesPath;
    var cut, out := Cut(part), RewritePart(root, wd, part, awaits).value;
    CutIs(part);
    if cut.Some? { LinkerTablesAgree(cut.value.0); }
    if after.Some? {
      if awaits {
        RewriteKeepsRef(root, wd, root2, wd2, part);
        assert "" + RewriteCommandPath(root, wd, part).value.0 == RewriteCommandPath(root, wd, part).value.0;
      } else {
        PassedOnKeepsRef(root, wd, root2, wd2, out);
      }
    } else if cut.Some? && LinkerOptionNamesPath(cut.value.0) {
      var (option, raw) := cut.value;
      if awaits {
        PassedOnKeepsRef(root, wd, root2, wd2, Cut(out).value.1);
      } else if LinkerOptionTakesPath(option) {
        RewriteKeepsRef(root, wd, root2, wd2, raw);
        CutAgain(option, RewriteCommandPath(root, wd, raw).value.0);
      } else {
        PassedOnKeepsRef(root, wd, root2, wd2, raw);
      }
    }
  }

  /** Parts that are read alike make the linker expect alike. */
  lemma ReadAlike(root: Comps, wd: Comps, root2: Comps, wd2: Comps, part: string, out: string, after: Option<string>)
    requires LinkPartOf(root2, wd2, out, after) == LinkPartOf(root, wd, part, after)
    ensures NextAfter(out, after) == NextAfter(part, after)
  {
    hide RefOf, Cut, LinkerOptionNamesPath;
  }

  lemma PassedOnKeepsRef(root: Comps, wd: Comps, root2: Comps, wd2: Comps, raw: string)
    requires Moved(root, wd, root2, wd2) && PassedOn(root, wd, raw)
    ensures RefOf(root2, wd2, raw) == RefOf(root, wd, raw)
  {
    if raw != "" { StaysInside(root, wd, root2, wd2, raw); }
  }

  lemma {:induction false} PartsKeepMeaning(root: Comps, wd: Comps, root2: Comps, wd2: Comps, parts: seq<string>,
                                            after: Option<string>, awaits: bool)
    requires Moved(root, wd, root2, wd2) && RewriteParts(root, wd, parts, awaits).Ok?
    requires PartsTame(root, wd, parts, after, awaits)
    ensures LinkParts(root2, wd2, RewriteParts(root, wd, parts, awaits).value, after) == LinkParts(root, wd, parts, after)
    decreases |parts|
  {
    hide RewritePart, PartTame, LinkPartOf, NextAfter, Cut, LinkerOptionTakesPath, Moved;
    if parts != [] {
      var part, next, then_ := parts[0], NextAfter(parts[0], after), StillAwaits(parts[0], awaits);
      PartKeepsMeaning(root, wd, root2, wd2, part, after, awaits);
      PartsKeepMeaning(root, wd, root2, wd2, parts[1..], next, then_);
      var out := RewriteParts(root, wd, parts, awaits).value;
      ReadAlike(root, wd, root2, wd2, part, out[0], after);
      assert out[1..] == RewriteParts(root, wd, parts[1..], then_).value;
    }
  }

  lemma LinkerKeepsMeaning(root: Comps, wd: Comps, root2: Comps, wd2: Comps, arg: string)
    requires Moved(root, wd, root2, wd2) && "-Wl," <= arg && RewriteLinkerArgument(root, wd, arg).Ok?
    requires PartsTame(root, wd, Split(arg, ',')[1..], None, false)
    ensures var out := RewriteLinkerArgument(root, wd, arg).value;
            "-Wl," <= out && !ConsumesPathValue(out) && SplitAttachedPathFlag(out) == None
            && LinkParts(root2, wd2, Split(out, ',')[1..], None) == LinkParts(root, wd, Split(arg, ',')[1..], None)
  {
    LinkerForm(root, wd, arg);
    PartsKeepMeaning(root, wd, root2, wd2, Split(arg, ',')[1..], None, false);
  }

  /** A rewritten linker argument has the rewritten parts as its parts. */
  lemma LinkerForm(root: Comps, wd: Comps, arg: string)
    requires Names(wd) && "-Wl," <= arg && RewriteLinkerArgument(root, wd, arg).Ok?
    ensures var out := RewriteLinkerArgument(root, wd, arg).value;
            && "-Wl," <= out && !ConsumesPathValue(out) && SplitAttachedPathFlag(out) == None
            && (forall p <- Split(arg, ',')[1..] :: Free(p, ','))
            && RewriteParts(root, wd, Split(arg, ',')[1..], false) == Ok(Split(out, ',')[1..])
  {
    var parts := Split(arg, ',');
    assert arg == "-Wl" + [','] + arg[4..];
    SplitCons("-Wl", ',', arg[4..]);
    assert parts[0] == "-Wl" && parts[1..] == Split(arg[4..], ',');
    RewritePartsFree(root, wd, parts[1..], false);
    var rest := RewriteParts(root, wd, parts[1..], false).value;
    SplitJoin(["-Wl"] + rest, ',');
    assert (["-Wl"] + rest)[1..] == rest;
    NotAFlag(RewriteLinkerArgument(root, wd, arg).value);
  }

  lemma {:induction false} RewritePartsFree(root: Comps, wd: Comps, parts: seq<string>, awaits: bool)
    requires Names(wd) && RewriteParts(root, wd, parts, awaits).Ok? && forall p <- parts :: Free(p, ',')
    ensures var out := RewriteParts(root, wd, parts, awaits).value;
            |out| == |parts| && forall p <- out :: Free(p, ',')
    decreases |parts|
  {
    if parts != [] {
      assert parts[0] in parts && forall p <- parts[1..] :: p in parts;
      RewritePartsFree(root, wd, parts[1..], !awaits && Cut(parts[0]).None? && LinkerOptionTakesPath(parts[0]));
      RewritePartFree(root, wd, parts[0], awaits);
      hide RewritePart, RewriteParts, Cut, LinkerOptionTakesPath;
    }
  }

  lemma RewritePartFree(root: Comps, wd: Comps, part: string, awaits: bool)
    requires Names(wd) && RewritePart(root, wd, part, awaits).Ok? && Free(part, ',')
    ensures Free(RewritePart(root, wd, part, awaits).value, ',')
  {
    CutIs(part);
    var cut := Cut(part);
    if awaits {
      RewriteKeepsFree(root, wd, part);
    } else if cut.Some? && LinkerOptionTakesPath(cut.value.0) {
      assert forall x <- cut.value.1 :: x in part;
      RewriteKeepsFree(root, wd, cut.value.1);
    }
  }

  lemma NotAFlag(arg: string)
    requires arg == "" || arg[0] != '-' || (|arg| > 1 && arg[1] == 'W')
    ensures !ConsumesPathValue(arg) && SplitAttachedPathFlag(arg) == None
  {
    NoPrefix(ATTACHED, arg);
  }

  lemma {:induction false} NoPrefix(prefixes: seq<string>, arg: string)
    requires arg == "" || arg[0] != '-' || (|arg| > 1 && arg[1] == 'W')
    requires forall q <- prefixes :: q in ATTACHED
    ensures FirstPrefix(prefixes, arg) == None
  {
    if prefixes != [] {
      assert prefixes[0] in prefixes && forall q <- prefixes[1..] :: q in prefixes;
      NoPrefix(prefixes[1..], arg);
    }
  }

  /** An argument that is neither an option nor a response file. */
  predicate Positional(arg: string) {
    !ConsumesPathValue(arg) && SplitAttachedPathFlag(arg) == None && !("-" <= arg) && !("@" <= arg)
  }

  predicate LooksSpecial(s: string) {
    "-" <= s || "@" <= s
  }

  /** An absolute input below the working directory must not be reached through a name that looks like an option
      or a response file; a relative input, which is passed on as it is, must not leave the source root on its way. */
  predicate Tame(root: Comps, wd: Comps, arg: string) {
    if IsAbs(arg) then
      var t := Resolve(wd, arg);
      !(wd < t && LooksSpecial(t[|wd|]))
    else PassedOn(root, wd, arg)
  }

  /** The path below the working directory that raw names, if that is where it leads. */
  function BelowName(wd: Comps, raw: string): Option<string> {
    var t := Resolve(wd, raw);
    if raw != "" && wd < t then Some(Join(t[|wd|..], '/')) else None
  }

  /** What is sent for a path: its form below the working directory, or something that starts with a dot. */
  lemma SentForm(root: Comps, wd: Comps, raw: string)
    requires Names(wd) && RewriteCommandPath(root, wd, raw).Ok?
    ensures var v, n := RewriteCommandPath(root, wd, raw).value.0, BelowName(wd, raw);
            && (v == "" <==> raw == "") && if n.Some? then v == n.value else v == "" || v[0] == '.'
  {
    if raw != "" {
      var t := Resolve(wd, raw);
      ResolveNames(wd, raw);
      CommonPrefixIs(wd, t);
      var k := CommonPrefix(wd, t);
      DotsAre(|wd| - k);
      RelParts(wd, t);
      RenderComps(false, [], Rel(wd, t));
      WithinIsPrefix(wd, t);
      if wd <= t {
        CommonPrefixMax(wd, t, |wd|);
        assert Dots(0) + t[k..] == t[k..];
      }
      hide CommonPrefix, Dots, Name, Resolve;
      if Rel(wd, t) != [] { StartOfJoin(Rel(wd, t)); }
    }
  }

  /** It looks like an option or a response file exactly when the first name below the working directory does. */
  lemma SentSpecial(root: Comps, wd: Comps, raw: string)
    requires Names(wd) && raw != "" && RewriteCommandPath(root, wd, raw).Ok?
    ensures var t := Resolve(wd, raw);
            LooksSpecial(RewriteCommandPath(root, wd, raw).value.0) <==> wd < t && LooksSpecial(t[|wd|])
  {
    SentForm(root, wd, raw);
    var t := Resolve(wd, raw);
    ResolveNames(wd, raw);
    hide Resolve;
    if wd < t {
      assert t[|wd|] in t;
      StartOfJoin(t[|wd|..]);
    }
  }

  lemma StartOfJoin(cs: Comps)
    requires cs != [] && cs[0] != ""
    ensures Join(cs, '/') != "" && Join(cs, '/')[0] == cs[0][0]
  {
  }

  predicate AllTame(root: Comps, wd: Comps, args: seq<string>)
    decreases |args|
  {
    args == []
    || (HeadTame(root, wd, args[0]) && AllTame(root, wd, args[HeadToken(root, wd, args).1..]))
  }

  predicate HeadTame(root: Comps, wd: Comps, arg: string) {
    && (Positional(arg) ==> Tame(root, wd, arg))
    && ("-Wl," <= arg ==> PartsTame(root, wd, Split(arg, ',')[1..], None, false))
  }

  /** A relative path that does not climb above the root names the same file below every root. */
  lemma StaysInside(root: Comps, wd: Comps, root2: Comps, wd2: Comps, raw: string)
    requires Moved(root, wd, root2, wd2) && raw != "" && !IsAbs(raw)
    requires Walk(0, Below(root, wd), CompsOf(raw)).0 == 0
    ensures RefOf(root2, wd2, raw) == RefOf(root, wd, raw) == Inside(Walk(0, Below(root, wd), CompsOf(raw)).1)
  {
    MovedNames(root, wd, root2, wd2);
    var s, n := Below(root, wd), Walk(0, Below(root, wd), CompsOf(raw)).1;
    WalkResolves(root, 0, s, CompsOf(raw));
    WalkResolves(root2, 0, s, CompsOf(raw));
    assert root[..|root| - 0] == root && root2[..|root2| - 0] == root2;
    assert (root + n)[|root|..] == n && (root2 + n)[|root2|..] == n;
  }

  lemma HeadKeepsMeaning(root: Comps, wd: Comps, root2: Comps, wd2: Comps, args: seq<string>, more: seq<string>)
    requires Moved(root, wd, root2, wd2) && args != [] && RewriteHead(root, wd, args).Ok?
    requires HeadTame(root, wd, args[0])
    ensures var step := RewriteHead(root, wd, args).value;
            var (t, used) := HeadToken(root, wd, args);
            used == step.used && step.emitted != [] && HeadToken(root2, wd2, step.emitted + more) == (t, |step.emitted|)
  {
    hide RefOf, RewriteCommandPath, SplitAttachedPathFlag, ConsumesPathValue, LinkParts, RewriteLinkerArgument, Tame, PartsTame,
      HeadToken;
    var arg, prefix := args[0], SplitAttachedPathFlag(args[0]);
    var out := RewriteHead(root, wd, args).value.emitted;
    assert (out + more)[0] == out[0];
    HeadTokenIs(root, wd, args);
    HeadTokenIs(root2, wd2, out + more);
    if ConsumesPathValue(arg) {
      RewriteKeepsRef(root, wd, root2, wd2, args[1]);
      assert (out + more)[1] == out[1];
    } else if prefix.Some? {
      RewriteKeepsRef(root, wd, root2, wd2, arg[|prefix.value|..]);
      AttachedAgain(prefix.value, RewriteCommandPath(root, wd, arg[|prefix.value|..]).value.0);
    } else if "-Wl," <= arg {
      LinkerKeepsMeaning(root, wd, root2, wd2, arg);
    } else {
      PositionalKeepsMeaning(root, wd, root2, wd2, arg, out[0]);
    }
  }

  /** The remaining kinds of arguments: options, response files and inputs. */
  lemma PositionalKeepsMeaning(root: Comps, wd: Comps, root2: Comps, wd2: Comps, arg: string, out: string)
    requires Moved(root, wd, root2, wd2) && RewritePositionalArgument(root, wd, arg) == Ok(out)
    requires !ConsumesPathValue(arg) && SplitAttachedPathFlag(arg) == None && !("-Wl," <= arg)
    requires Positional(arg) ==> Tame(root, wd, arg)
    ensures !ConsumesPathValue(out) && SplitAttachedPathFlag(out) == None && !("-Wl," <= out)
    ensures if "-" <= arg then out == arg
            else !("-" <= out) && if "@" <= arg then "@" <= out && RefOf(root2, wd2, out[1..]) == RefOf(root, wd, arg[1..])
                                  else !("@" <= out) && RefOf(root2, wd2, out) == RefOf(root, wd, arg)
  {
    if "-" <= arg {
    } else if "@" <= arg {
      RewriteKeepsRef(root, wd, root2, wd2, arg[1..]);
      var v := RewriteCommandPath(root, wd, arg[1..]).value.0;
      assert out == "@" + v && out[1..] == v && out[0] == '@';
      NotAFlag(out);
    } else if IsAbs(arg) {
      RewriteKeepsRef(root, wd, root2, wd2, arg);
      assert out == "" + RewriteCommandPath(root, wd, arg).value.0 == RewriteCommandPath(root, wd, arg).value.0;
      SentSpecial(root, wd, arg);
      NotAFlag(out);
    } else if arg != "" {
      StaysInside(root, wd, root2, wd2, arg);
    }
  }

  /** The remote command line means what the local one means: the same options, and the same files of the
      source tree, wherever the worker unpacked it. */
  lemma {:induction false} RewriteKeepsMeaning(root: Comps, wd: Comps, root2: Comps, wd2: Comps, args: seq<string>)
    requires Moved(root, wd, root2, wd2) && RewriteAll(root, wd, args).Ok? && AllTame(root, wd, args)
    ensures Interpret(root2, wd2, RewriteAll(root, wd, args).value.0) == Interpret(root, wd, args)
    decreases |args|
  {
    if args != [] {
      var step := RewriteHead(root, wd, args).value;
      var rest := args[step.used..];
      var out := RewriteAll(root, wd, rest).value.0;
      HeadKeepsMeaning(root, wd, root2, wd2, args, out);
      RewriteKeepsMeaning(root, wd, root2, wd2, rest);
      assert (step.emitted + out)[|step.emitted|..] == out;
    }
  }

  /** Every path after one of the driver's path options is sent rewritten, hence relative; none is lost or added. */
  lemma {:induction false} OptionPathsSent(root: Comps, wd: Comps, args: seq<string>)
    requires Names(root) && Names(wd) && root <= wd && RewriteAll(root, wd, args).Ok? && AllTame(root, wd, args)
    ensures var raws, sent := OptionPaths(args), OptionPaths(RewriteAll(root, wd, args).value.0);
            |sent| == |raws| && forall i :: 0 <= i < |raws| ==> SentAs(root, wd, raws[i], sent[i])
    decreases |args|
  {
    hide OptionPaths, HeadPath, HeadToken, RewriteHead, HeadTame, SentAs;
    if args == [] {
      NoOptionPaths();
    } else {
      var step := RewriteHead(root, wd, args).value;
      var rest := args[step.used..];
      var out := RewriteAll(root, wd, rest).value.0;
      HeadPathSent(root, wd, args, out);
      TakesAsMany(root, wd, args);
      OptionPathsSent(root, wd, rest);
      OptionPathsHead(args);
      OptionPathsHead(step.emitted + out);
      assert (step.emitted + out)[|step.emitted|..] == out;
    }
  }

  lemma NoOptionPaths()
    ensures OptionPaths([]) == []
  {
  }

  lemma TakesAsMany(root: Comps, wd: Comps, args: seq<string>)
    requires args != [] && RewriteHead(root, wd, args).Ok?
    ensures HeadToken(root, wd, args).1 == RewriteHead(root, wd, args).value.used
  {
    hide HeadToken, RefOf, LinkParts, SplitAttachedPathFlag, ConsumesPathValue;
    HeadTokenIs(root, wd, args);
  }

  /** The path that the head of args names with a path option, and how many arguments that takes. */
  function HeadPath(args: seq<string>): (r: (seq<string>, nat))
    requires args != []
  {
    match PathOptionOf(args[0], 0)
    case None => ([], 1)
    case Some(option) =>
      if option != args[0] then ([args[0][|option|..]], 1) else if |args| == 1 then ([], 1) else ([args[1]], 2)
  }

  lemma OptionPathsHead(args: seq<string>)
    requires args != []
    ensures OptionPaths(args) == HeadPath(args).0 + OptionPaths(args[HeadPath(args).1..])
  {
    hide PathOptionOf;
    if |args| == 1 { assert args[1..] == []; }
  }

  lemma HeadPathSent(root: Comps, wd: Comps, args: seq<string>, more: seq<string>)
    requires Names(root) && Names(wd) && root <= wd && args != [] && RewriteHead(root, wd, args).Ok? && HeadTame(root, wd, args[0])
    ensures var step := RewriteHead(root, wd, args).value;
            var (raw, sent) := (HeadPath(args), HeadPath(step.emitted + more));
            && raw.1 == step.used && sent.1 == |step.emitted| > 0 && |raw.0| == |sent.0| <= 1
            && (raw.0 != [] ==> SentAs(root, wd, raw.0[0], sent.0[0]))
  {
    hide RewriteCommandPath, SplitAttachedPathFlag, ConsumesPathValue, RewriteLinkerArgument, Tame, PartsTame, PathOptionOf, SentAs;
    var arg, prefix := args[0], SplitAttachedPathFlag(args[0]);
    var out := RewriteHead(root, wd, args).value.emitted;
    assert (out + more)[0] == out[0];
    TablesAgree(arg);
    TablesAgree(out[0]);
    InsideItself(root, wd);
    if ConsumesPathValue(arg) {
      assert (out + more)[1] == out[1];
      SentPath(root, wd, args[1]);
    } else if prefix.Some? {
      var raw := arg[|prefix.value|..];
      SentPath(root, wd, raw);
      AttachedAgain(prefix.value, RewriteCommandPath(root, wd, raw).value.0);
    } else if "-Wl," <= arg {
      LinkerForm(root, wd, arg);
    } else {
      PositionalKeepsMeaning(root, wd, root, wd, arg, out[0]);
    }
  }

  /** A path and what is sent for it. */
  predicate SentAs(root: Comps, wd: Comps, raw: string, sent: string) {
    var r := RewriteCommandPath(root, wd, raw);
    r.Ok? && sent == r.value.0 && !IsAbs(sent)
  }

  lemma SentPath(root: Comps, wd: Comps, raw: string)
    requires Names(root) && Names(wd) && root <= wd && RewriteCommandPath(root, wd, raw).Ok?
    ensures var v := RewriteCommandPath(root, wd, raw).value.0;
            SentAs(root, wd, raw, v) && (v == "" <==> raw == "")
  {
    InsideItself(root, wd);
    RewriteKeepsRef(root, wd, root, wd, raw);
  }

  function OutputOf(t: Token): Option<Comps> {
    match t
    case FlagValue(flag, Inside(rel)) => if flag == "-o" then Some(rel) else None
    case AttachedPath(flag, Inside(rel)) => if flag == "-o" then Some(rel) else None
    case _ => None
  }

  /** The file that the last -o of a command names. */
  function LastOut(ts: seq<Token>): Option<Comps> {
    if ts == [] then None
    else
      var last := LastOut(ts[1..]);
      if last.Some? then last else OutputOf(ts[0])
  }

  /** The output that the client reports, and the artifact that it asks for, is the file that the driver writes
      last. */
  lemma {:induction false} OutputIsLast(root: Comps, wd: Comps, args: seq<string>)
    requires Names(wd) && RewriteAll(root, wd, args).Ok?
    ensures RewriteAll(root, wd, args).value.1 == LastOut(Interpret(root, wd, args))
    decreases |args|
  {
    if args != [] {
      var (t, used) := HeadToken(root, wd, args);
      HeadOutput(root, wd, args);
      OutputIsLast(root, wd, args[used..]);
      assert ([t] + Interpret(root, wd, args[used..]))[1..] == Interpret(root, wd, args[used..]);
      hide HeadToken, RewriteHead, OutputOf;
    }
  }

  lemma HeadOutput(root: Comps, wd: Comps, args: seq<string>)
    requires Names(wd) && args != [] && RewriteHead(root, wd, args).Ok?
    ensures var (step, head) := (RewriteHead(root, wd, args).value, HeadToken(root, wd, args));
            step.used == head.1 && step.output == OutputOf(head.0)
  {
    hide ConsumesPathValue, SplitAttachedPathFlag, LinkParts, RewriteLinkerArgument, RewriteCommandPath, RefOf, RelativeToRoot,
      HeadToken;
    var arg, prefix := args[0], SplitAttachedPathFlag(args[0]);
    HeadTokenIs(root, wd, args);
    if ConsumesPathValue(arg) {
      OutputRel(root, wd, args[1]);
    } else if prefix.Some? {
      OutputRel(root, wd, arg[|prefix.value|..]);
    }
  }

  lemma OutputRel(root: Comps, wd: Comps, raw: string)
    requires Names(wd) && RewriteCommandPath(root, wd, raw).Ok?
    ensures RelativeToRoot(root, RewriteCommandPath(root, wd, raw).value.1)
            == match RefOf(root, wd, raw) { case Inside(rel) => Ok(rel) case _ => Err }
  {
    if raw != "" {
      var abs := Resolve(wd, raw);
      ResolveNames(wd, raw);
      WithinIsPrefix(root, abs);
      RelBelow(root, abs[|root|..]);
      assert root + abs[|root|..] == abs;
    }
  }

  lemma RelBelow(root: Comps, rel: Comps)
    ensures Rel(root, root + rel) == rel
  {
    RelShift(root, [], rel);
    assert root + [] == root;
    assert Dots(0) + rel[0..] == rel;
  }

  // ---------------------------------------------------------------- exactly what is refused

  /** A path is refused exactly if it leads out of the source tree. */
  lemma PathAccepted(root: Comps, wd: Comps, raw: string)
    requires Names(wd)
    ensures RewriteCommandPath(root, wd, raw).Ok? <==> RefOf(root, wd, raw) != Outside
  {
    ResolveNames(wd, raw);
    WithinIsPrefix(root, Resolve(wd, raw));
    hide Resolve, Render, Rel, IsWithinBase;
  }

  /** A linker part that names a file outside the tree, as the client reads it. */
  predicate PartRefused(root: Comps, wd: Comps, part: string, awaits: bool) {
    var cut := Cut(part);
    if awaits then RefOf(root, wd, part) == Outside
    else cut.Some? && cut.value.0 in {"--out-implib", "--output-def", "-Map", "-T"} && RefOf(root, wd, cut.value.1) == Outside
  }

  predicate SomePartRefused(root: Comps, wd: Comps, parts: seq<string>, awaits: bool)
    decreases |parts|
  {
    parts != []
    && (PartRefused(root, wd, parts[0], awaits) || SomePartRefused(root, wd, parts[1..], StillAwaits(parts[0], awaits)))
  }

  lemma {:induction false} PartsAccepted(root: Comps, wd: Comps, parts: seq<string>, awaits: bool)
    requires Names(wd)
    ensures RewriteParts(root, wd, parts, awaits).Ok? <==> !SomePartRefused(root, wd, parts, awaits)
    decreases |parts|
  {
    hide RewritePart, PartRefused, Cut, LinkerOptionTakesPath;
    if parts != [] {
      PartAccepted(root, wd, parts[0], awaits);
      PartsAccepted(root, wd, parts[1..], StillAwaits(parts[0], awaits));
    }
  }

  lemma PartAccepted(root: Comps, wd: Comps, part: string, awaits: bool)
    requires Names(wd)
    ensures RewritePart(root, wd, part, awaits).Ok? <==> !PartRefused(root, wd, part, awaits)
  {
    hide RewriteCommandPath, RefOf, Cut;
    PathAccepted(root, wd, part);
    if Cut(part).Some? { PathAccepted(root, wd, Cut(part).value.1); }
  }

  /** What the driver reads at the head of args names a file outside the tree, but for relative inputs, or is an empty
      output, or a path option at the end without its path. */
  predicate HeadRefused(root: Comps, wd: Comps, args: seq<string>)
    requires args != []
  {
    match HeadToken(root, wd, args).0
    case FlagValue(option, file) => file == Outside || (option == "-o" && file == NoPath)
    case AttachedPath(_, file) => file == Outside
    case ResponseFile(file) => file == Outside
    case Input(file) => IsAbs(args[0]) && file == Outside
    case Linker(_) => SomePartRefused(root, wd, Split(args[0], ',')[1..], false)
    case Flag(text) => PathOption(text)
  }

  predicate SomeRefused(root: Comps, wd: Comps, args: seq<string>)
    decreases |args|
  {
    args != [] && (HeadRefused(root, wd, args) || SomeRefused(root, wd, args[HeadToken(root, wd, args).1..]))
  }

  /** The command line is refused exactly if one of its arguments is. */
  lemma {:induction false} RefusedExactly(root: Comps, wd: Comps, args: seq<string>)
    requires Names(wd)
    ensures RewriteAll(root, wd, args).Err? <==> SomeRefused(root, wd, args)
    decreases |args|
  {
    hide RewriteHead, HeadToken, HeadRefused;
    if args != [] {
      HeadAccepted(root, wd, args);
      RefusedExactly(root, wd, args[HeadToken(root, wd, args).1..]);
    }
  }

  lemma HeadAccepted(root: Comps, wd: Comps, args: seq<string>)
    requires Names(wd) && args != []
    ensures RewriteHead(root, wd, args).Ok? <==> !HeadRefused(root, wd, args)
    ensures RewriteHead(root, wd, args).Ok? ==> RewriteHead(root, wd, args).value.used == HeadToken(root, wd, args).1
  {
    hide RefOf, RewriteCommandPath, SplitAttachedPathFlag, ConsumesPathValue, PathOption, LinkParts, HeadToken, SomePartRefused,
      RewriteParts, Split, Join, RelativeToRoot;
    var arg, prefix := args[0], SplitAttachedPathFlag(args[0]);
    HeadTokenIs(root, wd, args);
    TablesAgree(arg);
    if ConsumesPathValue(arg) {
      if |args| > 1 {
        ValueAccepted(root, wd, args[1]);
        RefIsPath(root, wd, args[1]);
      }
    } else if prefix.Some? {
      ValueAccepted(root, wd, arg[|prefix.value|..]);
    } else if "-Wl," <= arg {
      PartsAccepted(root, wd, Split(arg, ',')[1..], false);
    } else {
      PathAccepted(root, wd, arg);
      if arg != "" { PathAccepted(root, wd, arg[1..]); }
    }
  }

  /** An accepted path can also be named relative to the root, unless it is empty. */
  lemma ValueAccepted(root: Comps, wd: Comps, raw: string)
    requires Names(wd)
    ensures var r := RewriteCommandPath(root, wd, raw);
            && (r.Ok? <==> RefOf(root, wd, raw) != Outside)
            && (r.Ok? ==> (RelativeToRoot(root, r.value.1).Ok? <==> raw != ""))
  {
    PathAccepted(root, wd, raw);
  }

  // ---------------------------------------------------------------- exactly when the meaning is kept

  lemma PathLost(root: Comps, wd: Comps, raw: string, out: string) returns (root2: Comps, wd2: Comps)
    requires Names(root) && Names(wd) && root <= wd && !SamePath(root, wd, raw, out)
    ensures Moved(root, wd, root2, wd2) && RefOf(root2, wd2, out) != RefOf(root, wd, raw)
  {
    hide RefOf, PassedOn, Moved;
    InsideItself(root, wd);
    root2, wd2 := root, wd;
    if RefOf(root, wd, out) == RefOf(root, wd, raw) { root2, wd2 := NotPassedOn(root, wd, out); }
  }

  lemma PartLost(root: Comps, wd: Comps, part: string, after: Option<string>, awaits: bool) returns (root2: Comps, wd2: Comps)
    requires Names(root) && Names(wd) && root <= wd && RewritePart(root, wd, part, awaits).Ok?
    requires !PartTame(root, wd, part, after, awaits)
    ensures Moved(root, wd, root2, wd2)
    ensures LinkPartOf(root2, wd2, RewritePart(root, wd, part, awaits).value, after) != LinkPartOf(root, wd, part, after)
  {
    hide RefOf, RewriteCommandPath, PassedOn, Cut, LinkerOptionTakesPath, LinkerOptionNamesPath, Moved;
    var cut, out := Cut(part), RewritePart(root, wd, part, awaits).value;
    InsideItself(root, wd);
    root2, wd2 := root, wd;
    if after.Some? {
      root2, wd2 := PathLost(root, wd, part, out);
    } else if cut.Some? && LinkerOptionNamesPath(cut.value.0) {
      var written := Cut(out);
      if !awaits {
        root2, wd2 := NotPassedOn(root, wd, cut.value.1);
      } else if written.Some? && written.value.0 == cut.value.0 {
        root2, wd2 := PathLost(root, wd, cut.value.1, written.value.1);
      }
    }
  }

  lemma {:induction false} PartsLost(root: Comps, wd: Comps, parts: seq<string>, after: Option<string>, awaits: bool)
    returns (root2: Comps, wd2: Comps)
    requires Names(root) && Names(wd) && root <= wd && RewriteParts(root, wd, parts, awaits).Ok?
    requires !PartsTame(root, wd, parts, after, awaits)
    ensures Moved(root, wd, root2, wd2)
    ensures LinkParts(root2, wd2, RewriteParts(root, wd, parts, awaits).value, after) != LinkParts(root, wd, parts, after)
    decreases |parts|
  {
    hide RewritePart, PartTame, LinkPartOf, NextAfter, Cut, LinkerOptionTakesPath, Moved;
    var part, next, then_ := parts[0], NextAfter(parts[0], after), StillAwaits(parts[0], awaits);
    var out := RewriteParts(root, wd, parts, awaits).value;
    assert out[1..] == RewriteParts(root, wd, parts[1..], then_).value;
    if PartTame(root, wd, part, after, awaits) {
      root2, wd2 := PartsLost(root, wd, parts[1..], next, then_);
      PartKeepsMeaning(root, wd, root2, wd2, part, after, awaits);
      ReadAlike(root, wd, root2, wd2, part, out[0], after);
      assert LinkParts(root2, wd2, out, after)[1..] == LinkParts(root2, wd2, out[1..], next);
      assert LinkParts(root, wd, parts, after)[1..] == LinkParts(root, wd, parts[1..], next);
    } else {
      root2, wd2 := PartLost(root, wd, part, after, awaits);
      assert LinkParts(root2, wd2, out, after)[0] != LinkParts(root, wd, parts, after)[0];
    }
  }

  /** The first argument that is not tame is read as something else. */
  lemma HeadLost(root: Comps, wd: Comps, args: seq<string>, more: seq<string>) returns (root2: Comps, wd2: Comps)
    requires Names(root) && Names(wd) && root <= wd && args != [] && RewriteHead(root, wd, args).Ok?
    requires !HeadTame(root, wd, args[0])
    ensures Moved(root, wd, root2, wd2)
    ensures var out := RewriteHead(root, wd, args).value.emitted;
            out != [] && HeadToken(root2, wd2, out + more).0 != HeadToken(root, wd, args).0
  {
    hide RefOf, RewriteCommandPath, SplitAttachedPathFlag, ConsumesPathValue, LinkParts, RewriteLinkerArgument, Tame, PartsTame, Moved,
      HeadToken;
    var arg := args[0];
    var out := RewriteHead(root, wd, args).value.emitted;
    assert (out + more)[0] == out[0];
    HeadTokenIs(root, wd, args);
    if Positional(arg) && !Tame(root, wd, arg) {
      root2, wd2 := InputLost(root, wd, arg, out[0]);
    } else {
      NotAFlagOfLinker(arg);
      LinkerForm(root, wd, arg);
      root2, wd2 := PartsLost(root, wd, Split(arg, ',')[1..], None, false);
    }
    HeadTokenIs(root2, wd2, out + more);
  }

  lemma NotAFlagOfLinker(arg: string)
    requires "-Wl," <= arg
    ensures !ConsumesPathValue(arg) && SplitAttachedPathFlag(arg) == None
  {
    assert arg[1] == 'W';
    NotAFlag(arg);
  }

  lemma InputLost(root: Comps, wd: Comps, arg: string, out: string) returns (root2: Comps, wd2: Comps)
    requires Names(root) && Names(wd) && root <= wd && Positional(arg) && !Tame(root, wd, arg)
    requires RewritePositionalArgument(root, wd, arg) == Ok(out)
    ensures Moved(root, wd, root2, wd2)
    ensures LooksSpecial(out) || (out == arg && RefOf(root2, wd2, out) != RefOf(root, wd, arg))
  {
    hide RefOf, PassedOn, Moved;
    InsideItself(root, wd);
    root2, wd2 := root, wd;
    if IsAbs(arg) {
      SentSpecial(root, wd, arg);
      assert "" + RewriteCommandPath(root, wd, arg).value.0 == RewriteCommandPath(root, wd, arg).value.0;
    } else {
      root2, wd2 := NotPassedOn(root, wd, arg);
    }
  }

  lemma {:induction false} MeaningLost(root: Comps, wd: Comps, args: seq<string>) returns (root2: Comps, wd2: Comps)
    requires Names(root) && Names(wd) && root <= wd && RewriteAll(root, wd, args).Ok? && !AllTame(root, wd, args)
    ensures Moved(root, wd, root2, wd2)
    ensures Interpret(root2, wd2, RewriteAll(root, wd, args).value.0) != Interpret(root, wd, args)
    decreases |args|
  {
    hide RewriteHead, HeadToken, HeadTame, Moved;
    var step := RewriteHead(root, wd, args).value;
    var rest := args[step.used..];
    var out := RewriteAll(root, wd, rest).value.0;
    if HeadTame(root, wd, args[0]) {
      InsideItself(root, wd);
      HeadKeepsMeaning(root, wd, root, wd, args, out);
      root2, wd2 := MeaningLost(root, wd, rest);
      HeadKeepsMeaning(root, wd, root2, wd2, args, out);
      assert (step.emitted + out)[|step.emitted|..] == out;
      assert Interpret(root2, wd2, step.emitted + out)[1..] == Interpret(root2, wd2, out);
      assert Interpret(root, wd, args)[1..] == Interpret(root, wd, rest);
    } else {
      root2, wd2 := HeadLost(root, wd, args, out);
      assert Interpret(root2, wd2, step.emitted + out)[0] != Interpret(root, wd, args)[0];
    }
  }

  /** The command means what it meant, wherever the tree is unpacked, exactly when all its arguments are tame. */
  lemma MeaningKeptExactly(root: Comps, wd: Comps, args: seq<string>)
    requires Names(root) && Names(wd) && root <= wd && RewriteAll(root, wd, args).Ok?
    ensures (forall root2, wd2 | Moved(root, wd, root2, wd2) ::
               Interpret(root2, wd2, RewriteAll(root, wd, args).value.0) == Interpret(root, wd, args))
            <==> AllTame(root, wd, args)
  {
    hide Interpret, RewriteAll, AllTame, Moved;
    if AllTame(root, wd, args) {
      forall root2, wd2 | Moved(root, wd, root2, wd2)
        ensures Interpret(root2, wd2, RewriteAll(root, wd, args).value.0) == Interpret(root, wd, args)
      {
        RewriteKeepsMeaning(root, wd, root2, wd2, args);
      }
    } else {
      var root2, wd2 := MeaningLost(root, wd, args);
    }
  }

  /** An absolute input stays an input, of the same file, exactly when it is not reached through a name below the
      working directory that starts with a dash or an at sign. */
  lemma AbsoluteInputKept(root: Comps, wd: Comps, root2: Comps, wd2: Comps, arg: string)
    requires Moved(root, wd, root2, wd2) && Positional(arg) && IsAbs(arg) && RewritePositionalArgument(root, wd, arg).Ok?
    ensures HeadToken(root2, wd2, [RewritePositionalArgument(root, wd, arg).value]).0 == Input(RefOf(root, wd, arg))
            <==> Tame(root, wd, arg)
  {
    var out := RewritePositionalArgument(root, wd, arg).value;
    assert out == RewriteCommandPath(root, wd, arg).value.0;
    RewriteKeepsRef(root, wd, root2, wd2, arg);
    SentSpecial(root, wd, arg);
    HeadTokenIs(root2, wd2, [out]);
    hide HeadToken, RefOf, RewriteCommandPath, SplitAttachedPathFlag, ConsumesPathValue;
    if Tame(root, wd, arg) {
      PositionalKeepsMeaning(root, wd, root2, wd2, arg, out);
    }
  }

  lemma AbsoluteIsPositional(arg: string)
    requires IsAbs(arg)
    ensures Positional(arg)
    ensures forall root, wd :: RewritePositionalArgument(root, wd, arg) == FirstOf(RewriteCommandPath(root, wd, arg), "")
  {
    NotAFlag(arg);
  }

  /** Such arguments exist: files in the working directory whose name starts with a dash become options, */
  lemma DashInputLost(root: Comps, wd: Comps, name: string)
    requires Names(wd) && root <= wd && Name(name) && "-" <= name
    ensures var arg := "/" + Join(wd + [name], '/');
            Positional(arg) && RewritePositionalArgument(root, wd, arg) == Ok(name) && !Tame(root, wd, arg)
            && forall root2, wd2 :: !HeadToken(root2, wd2, [name]).0.Input?
  {
    FileInDirectory(root, wd, name);
  }

  /** and those whose name starts with an at sign become response files. */
  lemma AtInputLost(root: Comps, wd: Comps, name: string)
    requires Names(wd) && root <= wd && Name(name) && "@" <= name
    ensures var arg := "/" + Join(wd + [name], '/');
            Positional(arg) && RewritePositionalArgument(root, wd, arg) == Ok(name) && !Tame(root, wd, arg)
            && forall root2, wd2 :: HeadToken(root2, wd2, [name]).0 == ResponseFile(RefOf(root2, wd2, name[1..]))
  {
    hide *;
    FileInDirectory(root, wd, name);
    AtSignIsSpecial(root, wd, name);
    forall root2, wd2
      ensures HeadToken(root2, wd2, [name]).0 == ResponseFile(RefOf(root2, wd2, name[1..]))
    {
      AtSignIsResponse(root2, wd2, name);
    }
  }

  lemma AtSignIsSpecial(root: Comps, wd: Comps, name: string)
    requires "@" <= name
    ensures var arg := "/" + Join(wd + [name], '/'); Resolve(wd, arg) == wd + [name] ==> !Tame(root, wd, arg)
  {
    hide Resolve, Join;
    assert (wd + [name])[|wd|] == name;
  }

  lemma AtSignIsResponse(root: Comps, wd: Comps, name: string)
    requires "@" <= name
    ensures HeadToken(root, wd, [name]).0 == ResponseFile(RefOf(root, wd, name[1..]))
  {
    hide RefOf, HeadToken;
    HeadTokenIs(root, wd, [name]);
    NotAFlag(name);
  }

  /** A file in the working directory, given by its absolute path, is sent as its bare name. */
  lemma FileInDirectory(root: Comps, wd: Comps, name: string)
    requires Names(wd) && root <= wd && Name(name)
    ensures var arg := "/" + Join(wd + [name], '/');
            Positional(arg) && RewritePositionalArgument(root, wd, arg) == Ok(name) && Resolve(wd, arg) == wd + [name]
  {
    var cs := wd + [name];
    var arg := "/" + Join(cs, '/');
    AbsoluteIsPositional(arg);
    SplitCons("", '/', Join(cs, '/'));
    SplitJoin(cs, '/');
    assert arg == "" + ['/'] + Join(cs, '/');
    assert ([""] + cs)[1..] == cs;
    CleanOntoNames(true, [], cs);
    assert Resolve(wd, arg) == cs;
    RelShift(wd, [], [name]);
    assert wd + [] == wd;
    assert Rel([], [name]) == Dots(0) + [name] == [name];
    WithinIsPrefix(root, cs);
    hide Resolve, Rel;
    assert RewriteCommandPath(root, wd, arg) == Ok((name, Some(cs)));
    assert "" + name == name;
  }

  /** A name longer than every name in ns. */
  function LongName(ns: Comps): (x: string)
    ensures Name(x) && x !in ns && |x| > 2
    ensures forall p <- ns :: |p| < |x|
  {
    if ns == [] then "xxx"
    else
      var x := LongName(ns[1..]);
      if |ns[0]| < |x| then x else Xs(|ns[0]| + 1)
  }

  function Xs(n: nat): (x: string)
    ensures |x| == n && forall c <- x :: c == 'x'
  {
    if n == 0 then "" else "x" + Xs(n - 1)
  }

  /** A relative input that names a source file here names it below every other root exactly when it
      does not climb above the root on its way. */
  lemma RelativeInputKept(root: Comps, wd: Comps, arg: string, f: Comps)
    requires Names(root) && Names(wd) && root <= wd && arg != "" && !IsAbs(arg) && RefOf(root, wd, arg) == Inside(f)
    ensures (forall root2, wd2 | Moved(root, wd, root2, wd2) :: RefOf(root2, wd2, arg) == Inside(f))
            <==> Tame(root, wd, arg)
  {
    hide RefOf, Moved, Walk;
    InsideItself(root, wd);
    if Tame(root, wd, arg) {
      forall root2, wd2 | Moved(root, wd, root2, wd2)
        ensures RefOf(root2, wd2, arg) == Inside(f)
      {
        StaysInside(root, wd, root2, wd2, arg);
      }
    } else {
      var root2, wd2 := ClimbedOut(root, wd, arg);
      assert Moved(root, wd, root2, wd2) && RefOf(root2, wd2, arg) == Outside;
    }
  }

  /** Below a root of other names, a path that climbs above it ends outside. */
  lemma ClimbedOut(root: Comps, wd: Comps, arg: string) returns (root2: Comps, wd2: Comps)
    requires Names(root) && Names(wd) && root <= wd && arg != "" && !IsAbs(arg)
    requires Walk(0, Below(root, wd), CompsOf(arg)).0 > 0
    ensures Moved(root, wd, root2, wd2) && RefOf(root2, wd2, arg) == Outside
  {
    hide Walk, CleanOnto;
    var s := Below(root, wd);
    var (k, n) := Walk(0, s, CompsOf(arg));
    var x := LongName(n);
    root2 := seq(k, i => x);
    wd2 := root2 + s;
    MovedNames(root, wd, root2, wd2);
    WalkResolves(root2, 0, s, CompsOf(arg));
    assert root2[..|root2| - 0] == root2 && root2[..|root2| - k] + n == n;
    assert root2[0] == x && (n != [] ==> n[0] in n);
  }

  lemma InsideItself(root: Comps, wd: Comps)
    requires Names(root) && Names(wd) && root <= wd
    ensures Moved(root, wd, root, wd)
  {
  }

  /** For a path of any form, the file of --pdb among them, that the client passes on as it is. */
  lemma PassedOnKept(root: Comps, wd: Comps, raw: string)
    requires Names(root) && Names(wd) && root <= wd
    ensures (forall root2, wd2 | Moved(root, wd, root2, wd2) :: RefOf(root2, wd2, raw) == RefOf(root, wd, raw))
            <==> PassedOn(root, wd, raw)
  {
    hide RefOf, PassedOn, Moved;
    if PassedOn(root, wd, raw) {
      forall root2, wd2 | Moved(root, wd, root2, wd2)
        ensures RefOf(root2, wd2, raw) == RefOf(root, wd, raw)
      {
        PassedOnKeepsRef(root, wd, root2, wd2, raw);
      }
    } else {
      var root2, wd2 := NotPassedOn(root, wd, raw);
    }
  }

  /** Somewhere else such a path names another file: inside the tree if it is outside here, and the other way round. */
  lemma NotPassedOn(root: Comps, wd: Comps, raw: string) returns (root2: Comps, wd2: Comps)
    requires Names(root) && Names(wd) && root <= wd && !PassedOn(root, wd, raw)
    ensures Moved(root, wd, root2, wd2) && RefOf(root2, wd2, raw) != RefOf(root, wd, raw)
  {
    hide Walk, CleanOnto, Clean, Name;
    NothingPassesOn(root, wd);
    if RefOf(root, wd, raw) == Outside {
      root2, wd2 := [], [] + Below(root, wd);
      OtherRoot(root, wd, [], raw);
    } else if IsAbs(raw) {
      var target := Clean(true, CompsOf(raw));
      root2 := [LongName(target)];
      wd2 := root2 + Below(root, wd);
      OtherRoot(root, wd, root2, raw);
      assert target != [] ==> target[0] in target;
    } else {
      root2, wd2 := ClimbedOut(root, wd, raw);
    }
  }

  lemma NothingPassesOn(root: Comps, wd: Comps)
    ensures PassedOn(root, wd, "")
  {
    assert CompsOf("")[1..] == [];
  }

  lemma OtherRoot(root: Comps, wd: Comps, root2: Comps, raw: string)
    requires Names(root) && Names(wd) && root <= wd && Names(root2)
    ensures Moved(root, wd, root2, root2 + Below(root, wd))
    ensures IsAbs(raw) && !(root2 <= Clean(true, CompsOf(raw))) ==> RefOf(root2, root2 + Below(root, wd), raw) == Outside
  {
  }

  /** Such inputs exist: paths that leave the root and come back by its name. */
  lemma ReentryClimbs(up: Comps, d: string, name: string)
    requires Names(up) && Name(d) && Name(name)
    ensures var root, arg := up + [d], Join(["..", d, name], '/');
            RefOf(root, root, arg) == Inside([name]) && !Tame(root, root, arg)
  {
    var root, cs := up + [d], ["..", d, name];
    var arg := Join(cs, '/');
    SplitJoin(cs, '/');
    assert cs[0] == ".." && cs[1..] == [d, name] && [d, name][1..] == [name] && [name][1..] == [];
    assert root[..|root| - 1] == up && root[|root|..] == [];
    CleanOntoNames(true, up, [d, name]);
    assert up + [d, name] == root + [name] && (root + [name])[|root|..] == [name];
    assert Walk(1, [], [d, name]) == Walk(1, [] + [d], [name]);
    WalkOnlyClimbs(1, [], [d, name]);
  }
}
