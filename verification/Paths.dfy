/** The shell's path canonicaliser: absolute paths of upper-case components without empty ones, "." or "..". */
module Paths {
  import opened Base
  import opened Text

  const DOTS: Str := [DOT, DOT]

  predicate Absolute(raw: Str) { raw != [] && raw[0] == SLASH }

  /** What one component does to the components so far. */
  function Push(stack: seq<Str>, part: Str): seq<Str>
  {
    if part == [] || part == [DOT] then stack
    else if part == DOTS then (if stack == [] then stack else stack[..|stack| - 1])
    else stack + [ToUpper(part)]
  }

  function PushAll(stack: seq<Str>, parts: seq<Str>): seq<Str>
  {
    if parts == [] then stack else Push(PushAll(stack, parts[..|parts| - 1]), parts[|parts| - 1])
  }

  /** The path of a list of components. */
  function PathOf(stack: seq<Str>): Str { if stack == [] then [SLASH] else [SLASH] + Join(stack, SLASH) }

  /** The text that is taken apart: the path itself if it is absolute, else put behind the current directory. */
  function Joined(cwd: Str, raw: Str): Str
  {
    if Absolute(raw) then raw else if cwd == [SLASH] then [SLASH] + raw else cwd + [SLASH] + raw
  }

  function FromCwd(cwd: Str, raw: Str): Result<Str>
  {
    if raw == [] then Failure(InvalidPath) else Success(PathOf(PushAll([], Split(Joined(cwd, raw), SLASH))))
  }

  method FromCwdStr(cwd: Str, raw: Str) returns (r: Result<Str>)
    ensures r == FromCwd(cwd, raw)
  {
    if raw == [] {
      return Failure(InvalidPath);
    }
    var parts := Split(Joined(cwd, raw), SLASH);
    var stack: seq<Str> := [];
    assert parts[..0] == [];
    for i := 0 to |parts|
      invariant stack == PushAll([], parts[..i])
    {
      assert parts[..i + 1][..i] == parts[..i];
      var part := parts[i];
      if part == [] || part == [DOT] {
        continue;
      }
      if part == DOTS {
        stack := if stack == [] then stack else stack[..|stack| - 1];
        continue;
      }
      stack := stack + [ToUpper(part)];
    }
    assert parts[..|parts|] == parts;
    return Success(if stack == [] then [SLASH] else [SLASH] + Join(stack, SLASH));
  }

  // --- canonical paths ----------------------------------------------------------------------------------

  predicate Component(c: Str) { c != [] && c != [DOT] && c != DOTS && SLASH !in c && ToUpper(c) == c }

  predicate Components(stack: seq<Str>) { forall i :: 0 <= i < |stack| ==> Component(stack[i]) }

  /** The path of a list of proper components. */
  ghost predicate Canonical(p: Str) { exists stack :: Components(stack) && p == PathOf(stack) }

  lemma UpperKeeps(part: Str)
    ensures |ToUpper(part)| == |part| && ToUpper(ToUpper(part)) == ToUpper(part)
    ensures ToUpper(part) == [DOT] <==> part == [DOT]
    ensures ToUpper(part) == DOTS <==> part == DOTS
    ensures SLASH !in part ==> SLASH !in ToUpper(part)
  {
    assert forall i :: 0 <= i < |part| ==> ToUpper(part)[i] == Upper(part[i]);
    if ToUpper(part) == [DOT] { assert part[0] == DOT && part == [part[0]]; }
    if ToUpper(part) == DOTS { assert ToUpper(part)[0] == DOT && ToUpper(part)[1] == DOT
      && part == [part[0], part[1]]; }
  }

  lemma {:induction false} PushAllComponents(stack: seq<Str>, parts: seq<Str>)
    requires Components(stack) && forall i :: 0 <= i < |parts| ==> SLASH !in parts[i]
    ensures Components(PushAll(stack, parts))
  {
    if parts != [] {
      PushAllComponents(stack, parts[..|parts| - 1]);
      UpperKeeps(parts[|parts| - 1]);
    }
  }

  lemma {:induction false} PushAllConcat(stack: seq<Str>, a: seq<Str>, b: seq<Str>)
    ensures PushAll(stack, a + b) == PushAll(PushAll(stack, a), b)
  {
    if b == [] {
      assert a + b == a;
    } else {
      PushAllConcat(stack, a, b[..|b| - 1]);
      assert (a + b)[..|a + b| - 1] == a + b[..|b| - 1];
    }
  }

  /** Proper components are pushed as they are. */
  lemma {:induction false} PushComponents(stack: seq<Str>, more: seq<Str>)
    requires Components(more)
    ensures PushAll(stack, more) == stack + more
  {
    if more != [] {
      PushComponents(stack, more[..|more| - 1]);
      assert Component(more[|more| - 1]);
      assert more == more[..|more| - 1] + [more[|more| - 1]];
    }
  }

  lemma EmptyPart(stack: seq<Str>)
    ensures PushAll(stack, [[]]) == stack
  {
    var parts: seq<Str> := [[]];
    assert parts[..0] == [];
  }

  /** The empty part in front of a slash does nothing. */
  lemma AfterSlash(stack: seq<Str>, s: Str)
    ensures PushAll(stack, Split([SLASH] + s, SLASH)) == PushAll(stack, Split(s, SLASH))
  {
    SplitConcat([], SLASH, s);
    assert [] + [SLASH] + s == [SLASH] + s;
    SplitNone([], SLASH);
    hide Split;
    PushAllConcat(stack, [[]], Split(s, SLASH));
    EmptyPart(stack);
  }

  /** Taking a canonical path apart gives its components. */
  lemma ComponentsOf(stack: seq<Str>)
    requires Components(stack)
    ensures PushAll([], Split(PathOf(stack), SLASH)) == stack
  {
    if stack == [] {
      assert [SLASH] == [SLASH] + [];
      AfterSlash([], []);
      SplitNone([], SLASH);
      EmptyPart([]);
    } else {
      AfterSlash([], Join(stack, SLASH));
      forall i | 0 <= i < |stack| ensures SLASH !in stack[i] { assert Component(stack[i]); }
      SplitJoin(stack, SLASH);
      hide Split, Join;
      PushComponents([], stack);
      assert [] + stack == stack;
    }
  }

  /** From a canonical directory, a relative path starts with its components and an absolute one with none. */
  lemma FromStack(stack: seq<Str>, raw: Str)
    requires Components(stack) && raw != []
    ensures FromCwd(PathOf(stack), raw) == Success(PathOf(PushAll(if Absolute(raw) then []
      else stack, Split(raw, SLASH))))
  {
    hide Split, PushAll, Join;
    if !Absolute(raw) {
      if stack == [] {
        AfterSlash([], raw);
      } else {
        RootIsOnly(stack);
        SplitConcat(PathOf(stack), SLASH, raw);
        PushAllConcat([], Split(PathOf(stack), SLASH), Split(raw, SLASH));
        ComponentsOf(stack);
      }
    }
  }

  lemma RootIsOnly(stack: seq<Str>)
    requires Components(stack) && stack != []
    ensures PathOf(stack) != [SLASH] && Absolute(PathOf(stack))
  {
    assert Component(stack[0]);
    JoinStarts(stack);
  }

  lemma JoinStarts(stack: seq<Str>)
    requires stack != [] && stack[0] != []
    ensures Join(stack, SLASH) != []
  {
  }

  /** The result is always canonical: no empty component, no "." and no "..", all upper case. */
  lemma ResultIsCanonical(cwd: Str, raw: Str)
    requires raw != []
    ensures FromCwd(cwd, raw).Success? && Canonical(FromCwd(cwd, raw).value)
  {
    var parts := Split(Joined(cwd, raw), SLASH);
    SplitClean(Joined(cwd, raw), SLASH);
    hide Split;
    PushAllComponents([], parts);
  }

  /** Canonicalising a canonical path changes nothing, wherever one stands. */
  lemma Idempotent(cwd: Str, raw: Str, cwd': Str)
    requires raw != []
    ensures FromCwd(cwd', FromCwd(cwd, raw).value) == FromCwd(cwd, raw)
  {
    ResultIsCanonical(cwd, raw);
    var stack :| Components(stack) && FromCwd(cwd, raw).value == PathOf(stack);
    hide FromCwd, Split, Join;
    PathIsAbsolute(stack);
    AbsoluteAgain(cwd', stack);
  }

  lemma PathIsAbsolute(stack: seq<Str>)
    ensures Absolute(PathOf(stack))
  {
    hide Join;
  }

  lemma AbsoluteAgain(cwd: Str, stack: seq<Str>)
    requires Components(stack) && Absolute(PathOf(stack))
    ensures FromCwd(cwd, PathOf(stack)) == Success(PathOf(stack))
  {
    hide Split, Join, PathOf;
    ComponentsOf(stack);
  }

  /** Going to `a` and from there to `b` is going to `a/b`. */
  lemma Composes(cwd: Str, a: Str, b: Str)
    requires Canonical(cwd) && a != [] && b != [] && !Absolute(b)
    ensures FromCwd(cwd, a).Success?
    ensures FromCwd(FromCwd(cwd, a).value, b) == FromCwd(cwd, a + [SLASH] + b)
  {
    var stack :| Components(stack) && cwd == PathOf(stack);
    var base := if Absolute(a) then [] else stack;
    FromStack(stack, a);
    var mid := PushAll(base, Split(a, SLASH));
    SplitClean(a, SLASH);
    hide Split, PushAll, PathOf, FromCwd;
    PushAllComponents(base, Split(a, SLASH));
    FromStack(mid, b);
    assert Absolute(a + [SLASH] + b) <==> Absolute(a);
    FromStack(stack, a + [SLASH] + b);
    SplitConcat(a, SLASH, b);
    PushAllConcat(base, Split(a, SLASH), Split(b, SLASH));
  }

  // --- what the parts of a path do ----------------------------------------------------------------------

  /** Components are written behind slashes (47), none is the root. */
  lemma PathText(stack: seq<Str>, c: Str)
    ensures PathOf([]) == [47]
    ensures PathOf(stack + [c]) == (if stack == [] then [] else PathOf(stack)) + [47] + c
  {
    LastApart(stack + [c]);
    assert (stack + [c])[..|stack|] == stack;
    hide PathOf;
  }

  /**
   From a directory, ".." (46, 46) leads to its parent, or stays at the root; "." stays; any other name
   leads to the component of that name in capitals.
   */
  lemma FromDirectory(stack: seq<Str>, part: Str)
    requires Components(stack) && part != [] && 47 !in part
    ensures FromCwd(PathOf(stack), part) == Success(PathOf(
      if part == [46, 46] then (if stack == [] then [] else stack[..|stack| - 1])
      else if part == [46] then stack
      else stack + [ToUpper(part)]))
  {
    FromStack(stack, part);
    SplitNone(part, SLASH);
    OnePart(stack, part);
    hide Split, PathOf, PushAll;
  }

  lemma OnePart(stack: seq<Str>, part: Str)
    ensures PushAll(stack, [part]) == Push(stack, part)
  {
    assert [part][..0] == [];
    assert PushAll(stack, []) == stack;
  }

  /** The components that a path stands for. */
  function StackOf(cwd: Str, raw: Str): seq<Str> { PushAll([], Split(Joined(cwd, raw), SLASH)) }

  /** What stands behind a slash continues where the text in front of it leads. */
  lemma Behind(cwd: Str, a: Str, b: Str)
    requires a != []
    ensures a + [SLASH] + b != [] && StackOf(cwd, a + [SLASH] + b) == PushAll(StackOf(cwd, a), Split(b, SLASH))
  {
    hide Split, PushAll;
    var j := Joined(cwd, a);
    assert (a + [SLASH] + b)[0] == a[0];
    assert Joined(cwd, a + [SLASH] + b) == j + [SLASH] + b;
    SplitConcat(j, SLASH, b);
    PushAllConcat([], Split(j, SLASH), Split(b, SLASH));
  }

  /** Going into a directory and up again leads back, from anywhere and behind any path. */
  lemma UpAgain(cwd: Str, a: Str, c: Str)
    requires a != [] && c !in {[], [46], [46, 46]} && 47 !in c
    ensures FromCwd(cwd, a + [47] + c + [47, 46, 46]) == FromCwd(cwd, a)
  {
    hide Split, PushAll, PathOf, Joined;
    var stack := StackOf(cwd, a);
    assert a + [47] + c + [47, 46, 46] == a + [SLASH] + c + [SLASH] + DOTS;
    Behind(cwd, a, c);
    Behind(cwd, a + [SLASH] + c, DOTS);
    SplitNone(c, SLASH);
    SplitNone(DOTS, SLASH);
    OnePart(stack, c);
    OnePart(Push(stack, c), DOTS);
    assert (stack + [ToUpper(c)])[..|stack|] == stack;
  }

  /** A slash behind a path or a second one in it changes nothing. */
  lemma EmptyPartsVanish(cwd: Str, a: Str, b: Str)
    requires a != []
    ensures FromCwd(cwd, a + [47]) == FromCwd(cwd, a)
    ensures FromCwd(cwd, a + [47, 47] + b) == FromCwd(cwd, a + [47] + b)
  {
    hide Split, PushAll, PathOf, Joined;
    var stack := StackOf(cwd, a);
    assert a + [47] == a + [SLASH] + [];
    Behind(cwd, a, []);
    SplitNone([], SLASH);
    EmptyPart(stack);
    assert a + [47, 47] + b == a + [SLASH] + ([SLASH] + b);
    Behind(cwd, a, [SLASH] + b);
    Behind(cwd, a, b);
    AfterSlash(stack, b);
  }

  /** A path that starts with a slash starts at the root, wherever one stands; the empty path is refused. */
  lemma FromRoot(cwd: Str, raw: Str)
    ensures FromCwd(cwd, [47] + raw) == if raw == [] then Success([47]) else FromCwd([47], [47] + raw)
    ensures raw != [] && raw[0] != 47 ==> FromCwd(cwd, [47] + raw) == FromCwd([47], raw)
    ensures FromCwd(cwd, []) == Failure(InvalidPath)
  {
    if raw == [] {
      AfterSlash([], []);
      assert [SLASH] + [] == [SLASH];
      SplitNone([], SLASH);
      EmptyPart([]);
    }
    hide Split, PushAll;
  }

  // --- parent and name ----------------------------------------------------------------------------------

  /** Index behind the last slash, 0 if there is none. */
  function BehindLastSlash(p: Str): (i: nat)
    ensures i <= |p| && (i > 0 ==> p[i - 1] == SLASH) && SLASH !in p[i..]
  {
    if p == [] then 0
    else if p[|p| - 1] == SLASH then |p|
    else
      var i := BehindLastSlash(p[..|p| - 1]);
      assert p[i..] == p[..|p| - 1][i..] + [p[|p| - 1]];
      i
  }

  /** The directory part of a path and its last component. */
  function ParentAndName(p: Str): (Str, Str)
  {
    var i := BehindLastSlash(p);
    if i <= 1 then ([SLASH], p[i..]) else (p[..i - 1], p[i..])
  }

  lemma {:induction false} SlashSplit(left: Str, right: Str)
    requires SLASH !in right
    ensures BehindLastSlash(left + [SLASH] + right) == |left| + 1
    decreases |right|
  {
    var p := left + [SLASH] + right;
    if right != [] {
      SlashSplit(left, right[..|right| - 1]);
      assert p[..|p| - 1] == left + [SLASH] + right[..|right| - 1];
      assert p[|p| - 1] == right[|right| - 1];
    }
  }

  /** For a canonical path other than the root these are all components but the last, and the last. */
  lemma ParentAndNameOf(stack: seq<Str>)
    requires Components(stack) && stack != []
    ensures ParentAndName(PathOf(stack)) == (PathOf(stack[..|stack| - 1]), stack[|stack| - 1])
  {
    var n := |stack| - 1;
    var left := if n == 0 then [] else PathOf(stack[..n]);
    LastApart(stack);
    assert Component(stack[n]);
    SlashSplit(left, stack[n]);
    var p := left + [SLASH] + stack[n];
    assert p[..|left|] == left && p[|left| + 1..] == stack[n];
    if n > 0 { RootIsOnly(stack[..n]); }
    hide PathOf, BehindLastSlash, Component, Components;
  }

  lemma LastApart(stack: seq<Str>)
    requires stack != []
    ensures var n := |stack| - 1;
      PathOf(stack) == (if n == 0 then [] else PathOf(stack[..n])) + [SLASH] + stack[n]
  {
    var n := |stack| - 1;
    assert stack == stack[..n] + [stack[n]];
    if n > 0 {
      JoinSnoc(stack[..n], stack[n]);
      hide Join;
      assert [SLASH] + (Join(stack[..n], SLASH) + [SLASH] + stack[n]) ==
        ([SLASH] + Join(stack[..n], SLASH)) + [SLASH] + stack[n];
    }
  }

  lemma {:induction false} JoinSnoc(parts: seq<Str>, last: Str)
    requires parts != []
    ensures Join(parts + [last], SLASH) == Join(parts, SLASH) + [SLASH] + last
  {
    if |parts| > 1 {
      JoinSnoc(parts[1..], last);
      assert (parts + [last])[1..] == parts[1..] + [last];
      assert parts[0] + [SLASH] + (Join(parts[1..], SLASH) + [SLASH] + last) ==
        (parts[0] + [SLASH] + Join(parts[1..], SLASH)) + [SLASH] + last;
    } else {
      assert (parts + [last])[1..] == [last] && (parts + [last])[0] == parts[0];
    }
  }
}
