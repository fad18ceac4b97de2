/** Slash-separated paths as path/filepath treats them: splitting, Clean, Join, Rel and the check
    isWithinBase that Cliant and Sarver share. Resolution is lexical. */
module Paths {
  import opened Prelude

  // ---------------------------------------------------------------- splitting and joining

  predicate Free(s: string, c: char) {
    c !in s
  }

  /** strings.Split by one character. */
  function Split(s: string, c: char): (r: seq<string>)
    ensures r != [] && forall p <- r :: Free(p, c)
  {
    if s == "" then [""]
    else
      var rest := Split(s[1..], c);
      assert rest[0] in rest && forall p <- rest[1..] :: p in rest;
      if s[0] == c then [""] + rest else [[s[0]] + rest[0]] + rest[1..]
  }

  /** strings.Join with one character. */
  function Join(parts: seq<string>, c: char): string {
    if parts == [] then ""
    else if |parts| == 1 then parts[0]
    else parts[0] + [c] + Join(parts[1..], c)
  }

  lemma {:induction false} JoinSplit(s: string, c: char)
    ensures Join(Split(s, c), c) == s
  {
    if s != "" {
      JoinSplit(s[1..], c);
      var rest := Split(s[1..], c);
      if s[0] == c {
        assert ([""] + rest)[1..] == rest;
        assert Join([""] + rest, c) == [c] + s[1..];
      } else {
        var more := [[s[0]] + rest[0]] + rest[1..];
        assert more[1..] == rest[1..];
        assert Join(more, c) == [s[0]] + Join(rest, c);
      }
    }
  }

  lemma {:induction false} SplitFree(s: string, c: char)
    requires Free(s, c)
    ensures Split(s, c) == [s]
  {
    if s != "" {
      SplitFree(s[1..], c);
      assert [s[0]] + s[1..] == s;
    }
  }

  lemma {:induction false} SplitCons(p: string, c: char, rest: string)
    requires Free(p, c)
    ensures Split(p + [c] + rest, c) == [p] + Split(rest, c)
  {
    var s := p + [c] + rest;
    if p == "" {
      assert s[1..] == rest;
    } else {
      assert p[0] in p;
      SplitCons(p[1..], c, rest);
      assert s[1..] == p[1..] + [c] + rest;
      assert [p[0]] + p[1..] == p;
    }
  }

  lemma {:induction false} SplitJoin(parts: seq<string>, c: char)
    requires parts != [] && forall p <- parts :: Free(p, c)
    ensures Split(Join(parts, c), c) == parts
  {
    if |parts| == 1 {
      SplitFree(parts[0], c);
    } else {
      SplitJoin(parts[1..], c);
      SplitCons(parts[0], c, Join(parts[1..], c));
      assert parts == [parts[0]] + parts[1..];
    }
  }

  // ---------------------------------------------------------------- Clean, Rel

  type Comps = seq<string>

  /** A component that Clean keeps as a name. */
  predicate Name(p: string) {
    p != "" && p != "." && p != ".." && Free(p, '/')
  }

  predicate Names(cs: Comps) {
    forall p <- cs :: Name(p)
  }

  function IsAbs(s: string): bool {
    s != "" && s[0] == '/'
  }

  function CompsOf(s: string): (cs: Comps)
    ensures forall p <- cs :: Free(p, '/')
  {
    Split(s, '/')
  }

  /** Clean, one component at a time, onto an already clean prefix. */
  function Push(rooted: bool, stack: Comps, p: string): Comps {
    if p == "" || p == "." then stack
    else if p == ".." then
      if stack != [] && stack[|stack| - 1] != ".." then stack[..|stack| - 1]
      else if rooted then stack
      else stack + [".."]
    else stack + [p]
  }

  function CleanOnto(rooted: bool, stack: Comps, cs: Comps): Comps
    decreases cs
  {
    if cs == [] then stack else CleanOnto(rooted, Push(rooted, stack, cs[0]), cs[1..])
  }

  function Clean(rooted: bool, cs: Comps): Comps {
    CleanOnto(rooted, [], cs)
  }

  /** A clean path written out: "." when nothing is left. */
  function Render(cs: Comps): string {
    if cs == [] then "." else Join(cs, '/')
  }

  /** The absolute path that raw names in directory dir: Clean(Join(dir, raw)), or Clean(raw). */
  function Resolve(dir: Comps, raw: string): Comps {
    if IsAbs(raw) then Clean(true, CompsOf(raw)) else CleanOnto(true, dir, CompsOf(raw))
  }

  function CommonPrefix(a: Comps, b: Comps): nat {
    if a != [] && b != [] && a[0] == b[0] then 1 + CommonPrefix(a[1..], b[1..]) else 0
  }

  function Dots(n: nat): Comps {
    if n == 0 then [] else [".."] + Dots(n - 1)
  }

  /** filepath.Rel of two clean absolute paths. */
  function Rel(base: Comps, target: Comps): Comps {
    var k := CommonPrefix(base, target);
    if k <= |base| && k <= |target| then Dots(|base| - k) + target[k..] else []
  }

  /** rel != ".." and rel does not start with "../" */
  predicate IsWithinBase(base: Comps, target: Comps) {
    var rel := Rel(base, target);
    rel == [] || rel[0] != ".."
  }

  lemma {:induction false} CommonPrefixIs(a: Comps, b: Comps)
    ensures var k := CommonPrefix(a, b);
            k <= |a| && k <= |b| && a[..k] == b[..k] && (k < |a| && k < |b| ==> a[k] != b[k])
  {
    if a != [] && b != [] && a[0] == b[0] {
      CommonPrefixIs(a[1..], b[1..]);
      var k := CommonPrefix(a[1..], b[1..]);
      assert a[..k + 1] == [a[0]] + a[1..][..k];
      assert b[..k + 1] == [b[0]] + b[1..][..k];
    }
  }

  lemma {:induction false} CommonPrefixMax(a: Comps, b: Comps, m: nat)
    requires m <= |a| && m <= |b| && a[..m] == b[..m]
    ensures m <= CommonPrefix(a, b)
  {
    if m > 0 {
      assert a[0] == a[..m][0] == b[..m][0] == b[0];
      assert a[1..][..m - 1] == a[..m][1..] == b[..m][1..] == b[1..][..m - 1];
      CommonPrefixMax(a[1..], b[1..], m - 1);
    }
  }

  /** isWithinBase is the prefix relation on clean paths. */
  lemma WithinIsPrefix(base: Comps, target: Comps)
    requires Names(target)
    ensures IsWithinBase(base, target) <==> base <= target
  {
    CommonPrefixIs(base, target);
    var k := CommonPrefix(base, target);
    DotsAre(|base| - k);
    if k == |base| {
      assert base == base[..k];
      assert Dots(0) + target[k..] == target[k..];
      if k < |target| { assert target[k] in target; }
    }
  }

  // ---------------------------------------------------------------- facts about Clean

  lemma CleanStep(rooted: bool, stack: Comps, cs: Comps)
    ensures CleanOnto(rooted, stack, cs) == if cs == [] then stack else CleanOnto(rooted, Push(rooted, stack, cs[0]), cs[1..])
  {
  }

  lemma {:induction false} CleanOntoConcat(rooted: bool, stack: Comps, a: Comps, b: Comps)
    ensures CleanOnto(rooted, stack, a + b) == CleanOnto(rooted, CleanOnto(rooted, stack, a), b)
    decreases a
  {
    if a == [] {
      assert a + b == b;
    } else {
      assert (a + b)[1..] == a[1..] + b;
      CleanOntoConcat(rooted, Push(rooted, stack, a[0]), a[1..], b);
    }
  }

  lemma {:induction false} CleanOntoNames(rooted: bool, stack: Comps, cs: Comps)
    requires Names(cs)
    ensures CleanOnto(rooted, stack, cs) == stack + cs
    decreases cs
  {
    if cs == [] {
      assert stack + cs == stack;
    } else {
      assert cs[0] in cs && forall p <- cs[1..] :: p in cs;
      CleanOntoNames(rooted, stack + [cs[0]], cs[1..]);
      assert stack + cs == stack + [cs[0]] + cs[1..];
    }
  }

  lemma {:induction false} CleanRootedNames(stack: Comps, cs: Comps)
    requires Names(stack) && forall p <- cs :: Free(p, '/')
    ensures Names(CleanOnto(true, stack, cs))
    decreases cs
  {
    if cs != [] {
      assert cs[0] in cs && forall p <- cs[1..] :: p in cs;
      if stack != [] { assert stack[|stack| - 1] in stack; }
      CleanRootedNames(Push(true, stack, cs[0]), cs[1..]);
    }
  }

  lemma {:induction false} CleanDots(stack: Comps, n: nat)
    requires Names(stack) && n <= |stack|
    ensures CleanOnto(true, stack, Dots(n)) == stack[..|stack| - n]
    decreases n
  {
    if n > 0 {
      assert stack[|stack| - 1] in stack;
      var s1 := stack[..|stack| - 1];
      assert forall p <- s1 :: p in stack;
      CleanDots(s1, n - 1);
      assert Dots(n)[1..] == Dots(n - 1);
      assert s1[..|s1| - (n - 1)] == stack[..|stack| - n];
    }
  }

  lemma {:induction false} DotsAre(n: nat)
    ensures |Dots(n)| == n && forall i :: 0 <= i < n ==> Dots(n)[i] == ".."
  {
    if n > 0 { DotsAre(n - 1); }
  }

  /** Joining dir with Rel(dir, target) leads to target: what filepath.Rel promises. */
  lemma RelResolves(dir: Comps, target: Comps)
    requires Names(dir) && Names(target)
    ensures CleanOnto(true, dir, Rel(dir, target)) == target
  {
    hide CleanOnto, Dots, Name, CommonPrefix;
    CommonPrefixIs(dir, target);
    var k := CommonPrefix(dir, target);
    CleanOntoConcat(true, dir, Dots(|dir| - k), target[k..]);
    CleanDots(dir, |dir| - k);
    assert forall p <- target[k..] :: p in target;
    CleanOntoNames(true, dir[..k], target[k..]);
    assert dir[..k] + target[k..] == target;
  }

  /** Render and CompsOf lose nothing but the spelling of the empty path. */
  lemma RenderComps(rooted: bool, stack: Comps, cs: Comps)
    requires forall p <- cs :: p != "" && Free(p, '/')
    ensures CleanOnto(rooted, stack, CompsOf(Render(cs))) == CleanOnto(rooted, stack, cs)
    ensures !IsAbs(Render(cs)) && Render(cs) != ""
    ensures cs != [] ==> CompsOf(Render(cs)) == cs
  {
    if cs == [] {
      SplitFree(".", '/');
      assert Push(rooted, stack, ".") == stack;
      assert ["."][1..] == [];
    } else {
      SplitJoin(cs, '/');
      assert cs[0] in cs;
    }
  }

  lemma RelParts(base: Comps, target: Comps)
    requires Names(target)
    ensures forall p <- Rel(base, target) :: p != "" && Free(p, '/') && (p == ".." || p in target)
  {
    CommonPrefixIs(base, target);
    var k := CommonPrefix(base, target);
    DotsAre(|base| - k);
    forall p <- Rel(base, target)
      ensures p != "" && Free(p, '/') && (p == ".." || p in target)
    {
      if p in Dots(|base| - k) { assert p == ".."; } else { assert p in target[k..] && p in target; }
    }
  }

  /** What is resolved from a clean directory is clean. */
  lemma ResolveNames(dir: Comps, raw: string)
    requires Names(dir)
    ensures Names(Resolve(dir, raw))
  {
    CleanRootedNames(if IsAbs(raw) then [] else dir, CompsOf(raw));
  }

  // ---------------------------------------------------------------- moving a tree to another root

  lemma {:induction false} CommonPrefixShift(base: Comps, a: Comps, b: Comps)
    ensures CommonPrefix(base + a, base + b) == |base| + CommonPrefix(a, b)
  {
    if base == [] {
      assert base + a == a && base + b == b;
    } else {
      assert (base + a)[1..] == base[1..] + a && (base + b)[1..] == base[1..] + b;
      CommonPrefixShift(base[1..], a, b);
    }
  }

  /** Rel does not depend on what both paths start with. */
  lemma RelShift(base: Comps, a: Comps, b: Comps)
    ensures Rel(base + a, base + b) == Rel(a, b)
  {
    CommonPrefixShift(base, a, b);
    CommonPrefixIs(a, b);
    var k := CommonPrefix(a, b);
    assert (base + b)[|base| + k..] == b[k..];
  }

  /** Follows cs from below a root: how many levels it climbed above the root, and the names it ends with. */
  function Walk(up: nat, s: Comps, cs: Comps): (nat, Comps)
    decreases cs
  {
    if cs == [] then (up, s)
    else if cs[0] == "" || cs[0] == "." then Walk(up, s, cs[1..])
    else if cs[0] == ".." then
      if s != [] then Walk(up, s[..|s| - 1], cs[1..]) else Walk(up + 1, [], cs[1..])
    else Walk(up, s + [cs[0]], cs[1..])
  }

  /** Resolving below root r comes to r without the levels climbed, then the names. */
  lemma {:induction false} WalkResolves(r: Comps, up: nat, s: Comps, cs: Comps)
    requires Names(r) && Names(s) && up <= |r| && forall p <- cs :: Free(p, '/')
    ensures var (k, n) := Walk(up, s, cs);
            up <= k && Names(n) && (k <= |r| ==> CleanOnto(true, r[..|r| - up] + s, cs) == r[..|r| - k] + n)
    decreases cs
  {
    hide CleanOnto;
    CleanStep(true, r[..|r| - up] + s, cs);
    if cs != [] {
      var p, rest, stack := cs[0], cs[1..], r[..|r| - up] + s;
      assert p in cs && forall q <- rest :: q in cs;
      if p == "" || p == "." {
        WalkResolves(r, up, s, rest);
      } else if p == ".." {
        if s != [] {
          assert s[|s| - 1] in s && forall q <- s[..|s| - 1] :: q in s;
          WalkResolves(r, up, s[..|s| - 1], rest);
          assert stack[|stack| - 1] == s[|s| - 1];
          assert stack[..|stack| - 1] == r[..|r| - up] + s[..|s| - 1];
        } else if up < |r| {
          WalkResolves(r, up + 1, [], rest);
          assert r[|r| - up - 1] in r && stack == r[..|r| - up];
          assert stack[..|stack| - 1] == r[..|r| - (up + 1)] + [];
        } else {
          WalkOnlyClimbs(up + 1, [], rest);
        }
      } else {
        WalkResolves(r, up, s + [p], rest);
        assert stack + [p] == r[..|r| - up] + (s + [p]);
      }
    }
  }

  lemma {:induction false} WalkOnlyClimbs(up: nat, s: Comps, cs: Comps)
    requires Names(s) && forall p <- cs :: Free(p, '/')
    ensures up <= Walk(up, s, cs).0 && Names(Walk(up, s, cs).1)
    decreases cs
  {
    if cs != [] {
      assert cs[0] in cs && forall q <- cs[1..] :: q in cs;
      assert s != [] ==> forall q <- s[..|s| - 1] :: q in s;
      WalkOnlyClimbs(up, s, cs[1..]);
      WalkOnlyClimbs(up + 1, [], cs[1..]);
      if s != [] { WalkOnlyClimbs(up, s[..|s| - 1], cs[1..]); }
      if Name(cs[0]) { WalkOnlyClimbs(up, s + [cs[0]], cs[1..]); }
    }
  }

  /** What Clean leaves is a prefix of where it started, then components of the path. */
  lemma {:induction false} CleanShape(stack: Comps, cs: Comps) returns (m: nat)
    ensures m <= |stack| && m <= |CleanOnto(true, stack, cs)|
    ensures CleanOnto(true, stack, cs)[..m] == stack[..m]
    ensures forall p <- CleanOnto(true, stack, cs)[m..] :: p in cs
    decreases cs
  {
    hide CleanOnto;
    CleanStep(true, stack, cs);
    if cs == [] {
      m := |stack|;
    } else {
      assert cs[0] in cs && forall q <- cs[1..] :: q in cs;
      var next := Push(true, stack, cs[0]);
      m := CleanShape(next, cs[1..]);
      var t := CleanOnto(true, stack, cs);
      if m > |stack| {
        assert next == stack + [cs[0]] && m == |stack| + 1;
        m := |stack|;
        assert t[..m] == t[..m + 1][..m] && t[m] == t[..m + 1][m] == cs[0];
        assert t[m..] == [t[m]] + t[m + 1..];
      } else {
        assert next[..m] == stack[..m];
      }
    }
  }

  /** A rewritten path is spelled with ".." and components of the path it came from. */
  lemma RelUsesRaw(dir: Comps, raw: string)
    requires Names(dir)
    ensures forall p <- Rel(dir, Resolve(dir, raw)) :: p == ".." || p in CompsOf(raw)
  {
    var t, cs := Resolve(dir, raw), CompsOf(raw);
    ResolveNames(dir, raw);
    var m := CleanShape(if IsAbs(raw) then [] else dir, cs);
    CommonPrefixIs(dir, t);
    var k := CommonPrefix(dir, t);
    CommonPrefixMax(dir, t, m);
    DotsAre(|dir| - k);
    hide Resolve, CommonPrefix, CompsOf, Dots, Name;
    forall p <- Rel(dir, t)
      ensures p == ".." || p in cs
    {
      assert p in Dots(|dir| - k) || p in t[k..];
      InSuffix(t, m, k, p);
    }
  }

  lemma InSuffix(t: Comps, m: nat, k: nat, p: string)
    requires m <= k <= |t|
    ensures p in t[k..] ==> p in t[m..]
  {
    if p in t[k..] {
      var i :| k <= i < |t| && t[i] == p;
      assert t[m..][i - m] == p;
    }
  }

  lemma CleanOne(rooted: bool, stack: Comps, p: string)
    ensures CleanOnto(rooted, stack, [p]) == Push(rooted, stack, p)
  {
    assert [p][1..] == [];
  }

  lemma PushTwice(stack: Comps, part: Comps, p: string)
    requires forall q <- part :: q != "" && q != "."
    ensures CleanOnto(true, stack, Push(false, part, p)) == Push(true, CleanOnto(true, stack, part), p)
  {
    hide CleanOnto;
    forall q: string
      ensures CleanOnto(true, CleanOnto(true, stack, part), [q]) == Push(true, CleanOnto(true, stack, part), q)
    {
      CleanOne(true, CleanOnto(true, stack, part), q);
    }
    if part != [] && part[|part| - 1] != ".." {
      var init, last := part[..|part| - 1], part[|part| - 1];
      assert last in part && part == init + [last];
      CleanOntoConcat(true, stack, init, [last]);
      CleanOne(true, CleanOnto(true, stack, init), last);
    }
    CleanOntoConcat(true, stack, part, [p]);
  }

  lemma PushNames(part: Comps, p: string)
    requires forall q <- part :: q != "" && q != "."
    ensures forall q <- Push(false, part, p) :: q != "" && q != "."
  {
    assert forall q <- Push(false, part, p) :: q in part || q == p;
  }

  /** Cleaning a relative path first does not change where it leads. */
  lemma {:induction false} CleanTwice(stack: Comps, part: Comps, cs: Comps)
    requires forall q <- part :: q != "" && q != "."
    ensures CleanOnto(true, stack, CleanOnto(false, part, cs)) == CleanOnto(true, CleanOnto(true, stack, part), cs)
    decreases cs
  {
    hide CleanOnto;
    CleanStep(false, part, cs);
    CleanStep(true, CleanOnto(true, stack, part), cs);
    if cs != [] {
      PushTwice(stack, part, cs[0]);
      PushNames(part, cs[0]);
      CleanTwice(stack, Push(false, part, cs[0]), cs[1..]);
    }
  }
}
