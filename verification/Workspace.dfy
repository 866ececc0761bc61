/** Path resolution against the workspace roots (internal/workspace/resolver.go), on slash-separated
    absolute paths. A cleaned absolute path is the list of its elements. */
module Workspace {
  import opened Wrappers

  /** A path element that survives filepath.Clean. */
  predicate Plain(name: string) {
    name != "" && name != "." && name != ".." && '/' !in name
  }

  predicate Cleaned(path: seq<string>) { forall i | 0 <= i < |path| :: Plain(path[i]) }

  /** A path as the user wrote it, split at its slashes. */
  datatype RawPath = RawPath(absolute: bool, parts: seq<string>)

  /** No part contains a slash, since the path was split at them. */
  predicate WasSplit(p: RawPath) { forall i | 0 <= i < |p.parts| :: '/' !in p.parts[i] }

  /** filepath.Clean of `base` followed by `parts`: "" and "." vanish, ".." drops one element. */
  function CleanOnto(base: seq<string>, parts: seq<string>): seq<string>
    decreases |parts|
  {
    if parts == [] then base
    else if parts[0] == "" || parts[0] == "." then CleanOnto(base, parts[1..])
    else if parts[0] == ".." then CleanOnto(if base == [] then [] else base[..|base| - 1], parts[1..])
    else CleanOnto(base + [parts[0]], parts[1..])
  }

  function CleanAbs(base: seq<string>, p: RawPath): seq<string> {
    CleanOnto(if p.absolute then [] else base, p.parts)
  }

  lemma {:induction false} CleanOntoIsCleaned(base: seq<string>, parts: seq<string>)
    requires Cleaned(base) && forall i | 0 <= i < |parts| :: '/' !in parts[i]
    ensures Cleaned(CleanOnto(base, parts))
    decreases |parts|
  {
    if parts != [] {
      if parts[0] == "" || parts[0] == "." {
        CleanOntoIsCleaned(base, parts[1..]);
      } else if parts[0] == ".." {
        CleanOntoIsCleaned(if base == [] then [] else base[..|base| - 1], parts[1..]);
      } else {
        CleanOntoIsCleaned(base + [parts[0]], parts[1..]);
      }
    }
  }

  lemma {:induction false} CleanOntoPlain(base: seq<string>, parts: seq<string>)
    requires Cleaned(parts)
    ensures CleanOnto(base, parts) == base + parts
    decreases |parts|
  {
    if parts != [] {
      CleanOntoPlain(base + [parts[0]], parts[1..]);
      assert base + [parts[0]] + parts[1..] == base + parts;
    } else {
      assert base + parts == base;
    }
  }

  lemma {:induction false} CleanOntoAppend(base: seq<string>, a: seq<string>, b: seq<string>)
    ensures CleanOnto(base, a + b) == CleanOnto(CleanOnto(base, a), b)
    decreases |a|
  {
    if a == [] {
      assert a + b == b;
    } else {
      assert (a + b)[1..] == a[1..] + b;
      var next := if a[0] == "" || a[0] == "." then base
                  else if a[0] == ".." then (if base == [] then [] else base[..|base| - 1])
                  else base + [a[0]];
      CleanOntoAppend(next, a[1..], b);
    }
  }

  /** The laws that make up the cleaned path: an element followed by ".." goes, ".." at the root goes, ""
      and "." go, and what is then left stays as it is, below the base or, if absolute, below the root. */
  lemma CleanLaws(base: seq<string>, before: seq<string>, name: string, after: seq<string>)
    requires Plain(name)
    ensures CleanOnto(base, before + [name, ".."] + after) == CleanOnto(base, before + after)
    ensures CleanOnto([], [".."] + after) == CleanOnto([], after)
    ensures CleanOnto(base, before + [""] + after) == CleanOnto(base, before + ["."] + after) == CleanOnto(base, before + after)
    ensures Cleaned(after) ==> CleanAbs(base, RawPath(true, after)) == after
    ensures Cleaned(after) ==> CleanAbs(base, RawPath(false, after)) == base + after
  {
    PartVanishes(base, before, [name, ".."], after);
    PartVanishes(base, before, [""], after);
    PartVanishes(base, before, ["."], after);
    RootKeepsDotDot(after);
    if Cleaned(after) {
      CleanOntoPlain([], after);
      CleanOntoPlain(base, after);
    }
    hide CleanOnto;
  }

  /** Parts that change nothing wherever the path has got to can be left out. */
  lemma PartVanishes(base: seq<string>, before: seq<string>, part: seq<string>, after: seq<string>)
    requires part == [""] || part == ["."] || (|part| == 2 && Plain(part[0]) && part[1] == "..")
    ensures CleanOnto(base, before + part + after) == CleanOnto(base, before + after)
  {
    CleanOntoAppend(base, before, after);
    CleanOntoAppend(base, before + part, after);
    CleanOntoAppend(base, before, part);
    ChangesNothing(CleanOnto(base, before), part);
    hide CleanOnto;
  }

  lemma ChangesNothing(reached: seq<string>, part: seq<string>)
    requires part == [""] || part == ["."] || (|part| == 2 && Plain(part[0]) && part[1] == "..")
    ensures CleanOnto(reached, part) == reached
  {
    if |part| == 2 {
      assert part[1..] == [".."] && [".."][1..] == [];
      assert (reached + [part[0]])[..|reached|] == reached;
    }
  }

  lemma RootKeepsDotDot(after: seq<string>)
    ensures CleanOnto([], [".."] + after) == CleanOnto([], after)
  {
    assert ([".."] + after)[1..] == after;
  }

  /** Without a ".." element a relative path cannot leave its base. */
  lemma {:induction false} NoDotDotStaysBelow(base: seq<string>, parts: seq<string>)
    requires ".." !in parts
    ensures base <= CleanOnto(base, parts)
    decreases |parts|
  {
    if parts != [] {
      NoDotDotStaysBelow(if parts[0] == "" || parts[0] == "." then base else base + [parts[0]], parts[1..]);
    }
  }

  // ----- filepath.Rel and the text test made on it -----

  function CommonPrefix(a: seq<string>, b: seq<string>): (n: nat)
    ensures n <= |a| && n <= |b| && a[..n] == b[..n]
    ensures n < |a| && n < |b| ==> a[n] != b[n]
  {
    if a == [] || b == [] || a[0] != b[0] then 0
    else
      var n := CommonPrefix(a[1..], b[1..]);
      assert a[..n + 1] == [a[0]] + a[1..][..n] && b[..n + 1] == [b[0]] + b[1..][..n];
      n + 1
  }

  function DotDots(n: nat): seq<string> { seq(n, i => "..") }

  function Render(elements: seq<string>): string {
    if elements == [] then "."
    else if |elements| == 1 then elements[0]
    else elements[0] + "/" + Render(elements[1..])
  }

  /** filepath.Rel of two cleaned absolute paths; it cannot fail on those. */
  function Rel(base: seq<string>, target: seq<string>): string {
    var n := CommonPrefix(base, target);
    Render(DotDots(|base| - n) + target[n..])
  }

  predicate HasPrefix(s: string, prefix: string) { prefix <= s }

  predicate RelInside(base: seq<string>, target: seq<string>) {
    var rel := Rel(base, target);
    !(rel == ".." || HasPrefix(rel, "../"))
  }

  lemma ClimbsByText(s: string)
    ensures HasPrefix(s, "../") <==> |s| >= 3 && s[0] == '.' && s[1] == '.' && s[2] == '/'
  {
  }

  lemma ElementIsNotDotDot(name: string, rest: string)
    requires '/' !in name && name != ".."
    ensures name != ".." && !HasPrefix(name + "/" + rest, "../")
    ensures !HasPrefix(name, "../")
  {
    var s := name + "/" + rest;
    assert s[|name|] == '/';
    assert forall i | 0 <= i < |name| :: s[i] == name[i] && name[i] != '/';
    assert |name| == 2 && name[0] == '.' && name[1] == '.' ==> name == "..";
    ClimbsByText(s);
    ClimbsByText(name);
  }

  /** The text test on the relative path decides element-wise prefixing, so a sibling such as
      "..data" is not taken for an escape and "/w-evil" is not taken for a child of "/w". */
  lemma RelInsideIsPrefix(base: seq<string>, target: seq<string>)
    requires Cleaned(base) && Cleaned(target)
    ensures RelInside(base, target) <==> base <= target
  {
    var n := CommonPrefix(base, target);
    var rest := target[n..];
    var elements := DotDots(|base| - n) + rest;
    if n == |base| {
      assert elements == rest && base <= target;
      if rest != [] {
        assert rest[0] == target[n];
        ElementIsNotDotDot(rest[0], if |rest| == 1 then "" else Render(rest[1..]));
      }
    } else {
      assert elements[0] == "..";
      if |elements| > 1 {
        assert Render(elements)[..3] == "../";
      }
    }
  }

  // ----- symlinks -----

  /** filepath.EvalSymlinks on one state of the file system: fails on paths that do not exist. */
  type FileSystem = seq<string> -> Option<seq<string>>

  ghost predicate ValidFileSystem(fs: FileSystem) {
    forall path :: fs(path).Some? ==> Cleaned(fs(path).value)
  }

  /** The longest prefix of `path` that exists has n elements. */
  ghost predicate DeepestExisting(fs: FileSystem, path: seq<string>, n: nat) {
    && n <= |path| && fs(path[..n]).Some?
    && forall m | n < m <= |path| :: fs(path[..m]).None?
  }

  /** r is `path` with its deepest existing ancestor canonicalized; `path` itself if none exists. */
  ghost predicate Canonicalizes(fs: FileSystem, path: seq<string>, r: seq<string>) {
    || (exists n: nat :: DeepestExisting(fs, path, n) && r == fs(path[..n]).value + path[n..])
    || ((forall m | 0 <= m <= |path| :: fs(path[..m]).None?) && r == path)
  }

  lemma CanonicalizationUnique(fs: FileSystem, path: seq<string>, r: seq<string>, s: seq<string>)
    requires Canonicalizes(fs, path, r) && Canonicalizes(fs, path, s)
    ensures r == s
  {
  }

  lemma CanonicalIsCleaned(fs: FileSystem, path: seq<string>, r: seq<string>)
    requires ValidFileSystem(fs) && Cleaned(path) && Canonicalizes(fs, path, r)
    ensures Cleaned(r)
  {
  }

  method ResolveExisting(fs: FileSystem, path: seq<string>) returns (r: seq<string>)
    requires ValidFileSystem(fs) && Cleaned(path)
    ensures Canonicalizes(fs, path, r)
    ensures Cleaned(r)
  {
    var current := path;
    var suffix: seq<string> := [];
    while true
      invariant current + suffix == path
      invariant forall m | |current| < m <= |path| :: fs(path[..m]).None?
      decreases |current|
    {
      assert current == path[..|current|] && suffix == path[|current|..];
      var resolved := fs(current);
      if resolved.Some? {
        assert DeepestExisting(fs, path, |current|);
        CleanOntoPlain(resolved.value, suffix);
        r := CleanOnto(resolved.value, suffix);
        CanonicalIsCleaned(fs, path, r);
        return;
      }
      if current == [] {
        return path;
      }
      suffix := [current[|current| - 1]] + suffix;
      current := current[..|current| - 1];
    }
  }

  /** Inside `base` as written, and still inside once both are canonicalized. */
  ghost predicate Inside(fs: FileSystem, base: seq<string>, target: seq<string>) {
    base <= target &&
    exists b, t :: Canonicalizes(fs, base, b) && Canonicalizes(fs, target, t) && b <= t
  }

  method Contained(fs: FileSystem, base: seq<string>, target: seq<string>) returns (ok: bool)
    requires ValidFileSystem(fs) && Cleaned(base) && Cleaned(target)
    ensures ok <==> Inside(fs, base, target)
  {
    RelInsideIsPrefix(base, target);
    if !RelInside(base, target) {
      return false;
    }
    var b := ResolveExisting(fs, base);
    var t := ResolveExisting(fs, target);
    RelInsideIsPrefix(b, t);
    ok := RelInside(b, t);
    forall b', t' | Canonicalizes(fs, base, b') && Canonicalizes(fs, target, t') ensures b' == b && t' == t {
      CanonicalizationUnique(fs, base, b', b);
      CanonicalizationUnique(fs, target, t', t);
    }
  }

  /** On a file system without symlinks canonicalizing changes nothing and only the lexical test is left. */
  lemma NoSymlinksLexical(fs: FileSystem, base: seq<string>, target: seq<string>)
    requires forall path :: fs(path).Some? ==> fs(path).value == path
    ensures Inside(fs, base, target) <==> base <= target
  {
    CanonicalizesToItself(fs, base);
    CanonicalizesToItself(fs, target);
  }

  lemma CanonicalizesToItself(fs: FileSystem, path: seq<string>)
    requires forall p :: fs(p).Some? ==> fs(p).value == p
    ensures Canonicalizes(fs, path, path)
  {
    var n := |path|;
    while n > 0 && fs(path[..n]).None?
      invariant 0 <= n <= |path|
      invariant forall m | n < m <= |path| :: fs(path[..m]).None?
    {
      n := n - 1;
    }
    if fs(path[..n]).Some? {
      assert DeepestExisting(fs, path, n);
      assert path == path[..n] + path[n..];
    }
  }

  datatype Escape = Escape(path: RawPath)

  /** The two allowed roots of a scenario, absolute and cleaned by the runtime. */
  datatype Resolver = Resolver(workdir: seq<string>, projectDir: Option<seq<string>>) {
    predicate Valid() { Cleaned(workdir) && (projectDir.Some? ==> Cleaned(projectDir.value)) }

    /** Writes: exactly the paths that are inside the work directory, as written and canonicalized. */
    method ResolveOutput(fs: FileSystem, p: RawPath) returns (r: Result<seq<string>, Escape>)
      requires Valid() && ValidFileSystem(fs) && WasSplit(p)
      ensures r.Ok? <==> Inside(fs, workdir, CleanAbs(workdir, p))
      ensures r == if r.Ok? then Ok(CleanAbs(workdir, p)) else Err(Escape(p))
    {
      var target := CleanAbs(workdir, p);
      CleanOntoIsCleaned(if p.absolute then [] else workdir, p.parts);
      var ok := Contained(fs, workdir, target);
      r := if ok then Ok(target) else Err(Escape(p));
    }

    /** Reads: the project directory is a second root. */
    ghost predicate Readable(fs: FileSystem, target: seq<string>) {
      Inside(fs, workdir, target) || (projectDir.Some? && Inside(fs, projectDir.value, target))
    }

    method ResolveInput(fs: FileSystem, p: RawPath) returns (r: Result<seq<string>, Escape>)
      requires Valid() && ValidFileSystem(fs) && WasSplit(p)
      ensures r.Ok? <==> Readable(fs, CleanAbs(workdir, p))
      ensures r == if r.Ok? then Ok(CleanAbs(workdir, p)) else Err(Escape(p))
    {
      var target := CleanAbs(workdir, p);
      CleanOntoIsCleaned(if p.absolute then [] else workdir, p.parts);
      var roots := [Some(workdir), projectDir];
      var i := 0;
      while i < |roots|
        invariant 0 <= i <= |roots|
        invariant forall j | 0 <= j < i :: roots[j].Some? ==> !Inside(fs, roots[j].value, target)
      {
        if roots[i].Some? {
          var ok := Contained(fs, roots[i].value, target);
          if ok {
            return Ok(target);
          }
        }
        i := i + 1;
      }
      assert roots[0] == Some(workdir) && roots[1] == projectDir;
      r := Err(Escape(p));
    }
  }

  /** A ".."-free relative path is accepted for writing wherever no symlink is involved. */
  lemma PlainRelativeAccepted(resolver: Resolver, fs: FileSystem, p: RawPath)
    requires !p.absolute && ".." !in p.parts
    requires forall path :: fs(path).Some? ==> fs(path).value == path
    ensures Inside(fs, resolver.workdir, CleanAbs(resolver.workdir, p))
  {
    NoDotDotStaysBelow(resolver.workdir, p.parts);
    NoSymlinksLexical(fs, resolver.workdir, CleanAbs(resolver.workdir, p));
  }
}
