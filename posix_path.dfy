/// The three POSIX functions of Node's `path` module that the static file
/// server calls: `normalize`, `resolve` (with one argument, against the
/// process working directory) and `extname`.  Both `normalize` and `resolve`
/// collapse the '/'-separated segments of a path: empty segments and '.' are
/// dropped, and '..' pops the segment before it.
module PosixPath {
  import opened Strings

  predicate IsAbsolute(p: string)
  {
    |p| > 0 && p[0] == '/'
  }

  /** One step of the segment walk.  A '..' pops the last kept segment unless
      that is itself '..'; with nothing to pop it is kept only when the path
      may climb above its start (relative paths). */
  function Push(stack: seq<string>, seg: string, aboveRoot: bool): seq<string>
  {
    if seg == "" || seg == "." then stack
    else if seg == ".." then
      if |stack| > 0 && stack[|stack| - 1] != ".." then stack[..|stack| - 1]
      else if aboveRoot then stack + [".."]
      else stack
    else stack + [seg]
  }

  /** Walks `segs` from left to right, starting from `stack`. */
  function Collapse(stack: seq<string>, segs: seq<string>, aboveRoot: bool): seq<string>
    decreases |segs|
  {
    if segs == [] then stack
    else Collapse(Push(stack, segs[0], aboveRoot), segs[1..], aboveRoot)
  }

  /** A segment that survives collapsing: neither empty nor '.'. */
  predicate Plain(seg: string)
  {
    seg != "" && seg != "."
  }

  /** What collapsing keeps: no empty or '.' segment, and a '..' only at the
      front and only where climbing above the start is allowed. */
  ghost predicate Collapsed(stack: seq<string>, aboveRoot: bool)
  {
    && (forall i :: 0 <= i < |stack| ==> Plain(stack[i]))
    && (forall i :: 0 <= i < |stack| && stack[i] == ".." ==> aboveRoot)
    && (forall i, j :: 0 <= i < j < |stack| && stack[j] == ".." ==> stack[i] == "..")
  }

  lemma {:induction false} CollapseKeepsCollapsed(stack: seq<string>, segs: seq<string>, aboveRoot: bool)
    requires Collapsed(stack, aboveRoot)
    ensures Collapsed(Collapse(stack, segs, aboveRoot), aboveRoot)
    decreases |segs|
  {
    if segs != [] {
      var next := Push(stack, segs[0], aboveRoot);
      assert Collapsed(next, aboveRoot) by {
        if segs[0] == ".." && |stack| > 0 && stack[|stack| - 1] != ".." {
          assert next == stack[..|stack| - 1];
        } else if segs[0] == ".." && aboveRoot {
          assert next == stack + [".."];
          forall i | 0 <= i < |stack| ensures stack[i] == ".." {
            if |stack| > 0 {
              assert stack[|stack| - 1] == "..";
            }
          }
        }
      }
      CollapseKeepsCollapsed(next, segs[1..], aboveRoot);
    }
  }

  /** No segment contains '/'. */
  predicate SlashFree(segs: seq<string>)
  {
    forall i :: 0 <= i < |segs| ==> '/' !in segs[i]
  }

  /** Collapsing only drops segments or adds the walked ones and "..", so
      no segment of the result contains '/'. */
  lemma {:induction false} CollapseKeepsSlashFree(stack: seq<string>, segs: seq<string>, aboveRoot: bool)
    requires SlashFree(stack) && SlashFree(segs)
    ensures SlashFree(Collapse(stack, segs, aboveRoot))
    decreases |segs|
  {
    if segs != [] {
      var next := Push(stack, segs[0], aboveRoot);
      assert SlashFree(next) by {
        if segs[0] == ".." && |stack| > 0 && stack[|stack| - 1] != ".." {
          assert next == stack[..|stack| - 1];
        }
      }
      assert SlashFree(segs[1..]) by {
        forall i | 0 <= i < |segs| - 1 ensures '/' !in segs[1..][i] {
          assert segs[1..][i] == segs[i + 1];
        }
      }
      CollapseKeepsSlashFree(next, segs[1..], aboveRoot);
    }
  }

  /** A join of non-empty, '/'-free segments is non-empty and neither
      starts nor ends with '/'. */
  lemma {:induction false} JoinPlainEnds(segs: seq<string>)
    requires |segs| >= 1 && SlashFree(segs) && forall i :: 0 <= i < |segs| ==> Plain(segs[i])
    ensures var j := Join(segs, '/'); j != "" && j[0] != '/' && j[|j| - 1] != '/'
  {
    var n := |segs|;
    var last := segs[n - 1];
    assert last != "" && '/' !in last;
    JoinHead(segs, '/');
    assert segs[0] != "" && '/' !in segs[0];
    assert Join(segs, '/')[0] == segs[0][0];
    if n > 1 {
      JoinAppend(segs[..n - 1], [last], '/');
      assert segs[..n - 1] + [last] == segs;
    }
  }

  /** `path.normalize(p)`. */
  function Normalize(p: string): (r: string)
    ensures r != ""
    ensures IsAbsolute(r) <==> IsAbsolute(p)
  {
    if p == "" then "."
    else
      var abs := p[0] == '/';
      var stack := Collapse([], Split(p, '/'), !abs);
      CollapseKeepsCollapsed([], Split(p, '/'), !abs);
      CollapseKeepsSlashFree([], Split(p, '/'), !abs);
      StackHead(stack, !abs);
      Assemble(abs, p[|p| - 1] == '/', Join(stack, '/'))
  }

  /** The last step of `path.normalize`: the collapsed body with the leading
      and trailing '/' of the input put back, or "/", "./" or "." when
      nothing is left. */
  function Assemble(abs: bool, trailing: bool, body: string): (r: string)
    ensures r != ""
  {
    if body == "" then
      if abs then "/" else if trailing then "./" else "."
    else
      (if abs then "/" else "") + body + (if trailing then "/" else "")
  }

  /** The segments `path.resolve(p)` walks: those of `p` alone when `p` is
      absolute, otherwise those of the working directory followed by `p`'s. */
  function ResolveSegments(cwd: string, p: string): seq<string>
  {
    if IsAbsolute(p) then Split(p, '/') else Split(cwd, '/') + Split(p, '/')
  }

  /** `path.resolve(p)` with the process working directory `cwd`. */
  function Resolve(cwd: string, p: string): (r: string)
    ensures r != ""
    ensures IsAbsolute(r) <==> IsAbsolute(p) || IsAbsolute(cwd)
  {
    var abs := IsAbsolute(p) || IsAbsolute(cwd);
    var stack := Collapse([], ResolveSegments(cwd, p), !abs);
    CollapseKeepsCollapsed([], ResolveSegments(cwd, p), !abs);
    ResolveSegmentsSlashFree(cwd, p);
    CollapseKeepsSlashFree([], ResolveSegments(cwd, p), !abs);
    StackHead(stack, !abs);
    var body := Join(stack, '/');
    if abs then "/" + body
    else if body == "" then "."
    else body
  }

  /** The join of a collapsed walk is empty only for the empty walk, and
      never starts with '/'.  So the result of `Assemble` is absolute
      exactly when a leading '/' is put back. */
  lemma StackHead(stack: seq<string>, aboveRoot: bool)
    requires Collapsed(stack, aboveRoot) && SlashFree(stack)
    ensures Join(stack, '/') == "" <==> stack == []
    ensures stack != [] ==> Join(stack, '/')[0] != '/'
    ensures forall abs, trailing :: IsAbsolute(Assemble(abs, trailing, Join(stack, '/'))) <==> abs
  {
    if stack != [] {
      JoinPlainEnds(stack);
    }
  }

  /** A resolved absolute path is collapsed completely: it starts with '/',
      and none of the segments after that is empty, '.' or '..'. */
  lemma {:induction false} ResolveIsCollapsed(cwd: string, p: string)
    requires IsAbsolute(p) || IsAbsolute(cwd)
    ensures IsAbsolute(Resolve(cwd, p))
    ensures
      var stack := Collapse([], ResolveSegments(cwd, p), false);
      && Resolve(cwd, p) == "/" + Join(stack, '/')
      && forall i :: 0 <= i < |stack| ==> Plain(stack[i]) && stack[i] != ".." && '/' !in stack[i]
  {
    CollapseKeepsCollapsed([], ResolveSegments(cwd, p), false);
    ResolveSegmentsSlashFree(cwd, p);
    CollapseKeepsSlashFree([], ResolveSegments(cwd, p), false);
  }

  /** The segments `path.resolve` walks are pieces of a split on '/'. */
  lemma ResolveSegmentsSlashFree(cwd: string, p: string)
    ensures SlashFree(ResolveSegments(cwd, p))
  {
    var a := Split(cwd, '/');
    var b := Split(p, '/');
    if !IsAbsolute(p) {
      forall i | 0 <= i < |a + b| ensures '/' !in (a + b)[i] {
        if i < |a| {
          assert (a + b)[i] == a[i];
        } else {
          assert (a + b)[i] == b[i - |a|];
        }
      }
    }
  }

  // ---------------------------------------------------------------------
  // The normal form
  // ---------------------------------------------------------------------

  /** `path.normalize` of a non-empty path puts the leading and trailing
      '/' of the input around a walk that is fully collapsed: no empty or
      '.' segment, '..' only at the front of a relative path, and no '/'
      inside a segment. */
  lemma NormalizeIsCollapsed(p: string)
    requires p != ""
    ensures var abs := IsAbsolute(p); var stack := Collapse([], Split(p, '/'), !abs);
      && Normalize(p) == Assemble(abs, p[|p| - 1] == '/', Join(stack, '/'))
      && Collapsed(stack, !abs) && SlashFree(stack)
  {
    CollapseKeepsCollapsed([], Split(p, '/'), !IsAbsolute(p));
    CollapseKeepsSlashFree([], Split(p, '/'), !IsAbsolute(p));
  }

  /** Walking segments that are already collapsed appends them unchanged. */
  lemma {:induction false} CollapseCollapsed(prefix: seq<string>, segs: seq<string>, aboveRoot: bool)
    requires Collapsed(prefix + segs, aboveRoot)
    ensures Collapse(prefix, segs, aboveRoot) == prefix + segs
    decreases |segs|
  {
    if segs != [] {
      var all := prefix + segs;
      var s0 := segs[0];
      assert all[|prefix|] == s0;
      assert Push(prefix, s0, aboveRoot) == prefix + [s0] by {
        if s0 == ".." && |prefix| > 0 {
          assert all[|prefix| - 1] == prefix[|prefix| - 1];
        }
      }
      assert (prefix + [s0]) + segs[1..] == all;
      CollapseCollapsed(prefix + [s0], segs[1..], aboveRoot);
    }
  }

  /** Walking two lists of segments is walking the first, then the second. */
  lemma {:induction false} CollapseAppend(stack: seq<string>, a: seq<string>, b: seq<string>, aboveRoot: bool)
    ensures Collapse(stack, a + b, aboveRoot) == Collapse(Collapse(stack, a, aboveRoot), b, aboveRoot)
    decreases |a|
  {
    if a == [] {
      assert a + b == b;
    } else {
      assert (a + b)[0] == a[0] && (a + b)[1..] == a[1..] + b;
      CollapseAppend(Push(stack, a[0], aboveRoot), a[1..], b, aboveRoot);
    }
  }

  /** A trailing '/' adds one empty piece to a split. */
  lemma SplitTrailingSlash(stack: seq<string>)
    requires |stack| >= 1 && SlashFree(stack)
    ensures Split(Join(stack, '/') + "/", '/') == stack + [""]
  {
    JoinAppend(stack, [""], '/');
    assert Join(stack + [""], '/') == Join(stack, '/') + "/";
    assert SlashFree(stack + [""]) by {
      forall i | 0 <= i < |stack| + 1 ensures '/' !in (stack + [""])[i] {
        if i < |stack| {
          assert (stack + [""])[i] == stack[i];
        }
      }
    }
    SplitJoin(stack + [""], '/');
  }

  /** A leading '/' adds one empty piece in front of a split. */
  lemma SplitLeadingSlash(x: string)
    ensures Split("/" + x, '/') == [""] + Split(x, '/')
  {
    SplitPrefix("", x, '/');
    assert "" + "/" + x == "/" + x;
  }

  /** `path.normalize` of a path read off its leading and trailing '/' and
      the walk of its segments. */
  lemma NormalizedGeneral(q: string, abs: bool, trailing: bool, stack: seq<string>)
    requires q != "" && (q[0] == '/') == abs && (q[|q| - 1] == '/') == trailing
    requires Collapse([], Split(q, '/'), !abs) == stack
    ensures Normalize(q) == Assemble(abs, trailing, Join(stack, '/'))
  {
  }

  /** The walk of a normal form with a non-empty body is that body's walk. */
  lemma CollapseNormalForm(abs: bool, trailing: bool, stack: seq<string>, segs: seq<string>)
    requires Collapsed(stack, !abs)
    requires segs == (if abs then [""] else []) + stack + (if trailing then [""] else [])
    ensures Collapse([], segs, !abs) == stack
  {
    var inner := stack + (if trailing then [""] else []);
    assert segs == (if abs then [""] else []) + inner;
    if abs {
      assert segs[0] == "" && segs[1..] == inner;
      assert Collapse([], segs, !abs) == Collapse(Push([], "", !abs), inner, !abs);
    }
    CollapseCollapsed([], stack, !abs);
    assert [] + stack == stack;
    if trailing {
      CollapseAppend([], stack, [""], !abs);
      assert Collapse(stack, [""], !abs) == Collapse(Push(stack, "", !abs), [], !abs);
    } else {
      assert inner == stack;
    }
  }

  /** The first and last characters of a normal form with a non-empty body
      show which '/' were put back. */
  lemma NormalFormEnds(abs: bool, trailing: bool, stack: seq<string>)
    requires |stack| >= 1 && Collapsed(stack, !abs) && SlashFree(stack)
    ensures var q := Assemble(abs, trailing, Join(stack, '/'));
      q != "" && (q[0] == '/') == abs && (q[|q| - 1] == '/') == trailing
  {
    JoinPlainEnds(stack);
  }

  /** The pieces of a normal form with a non-empty body: its segments, with
      an empty piece for each '/' put back. */
  lemma SplitNormalForm(abs: bool, trailing: bool, stack: seq<string>)
    requires |stack| >= 1 && Collapsed(stack, !abs) && SlashFree(stack)
    ensures Split(Assemble(abs, trailing, Join(stack, '/')), '/')
         == (if abs then [""] else []) + stack + (if trailing then [""] else [])
  {
    var body := Join(stack, '/');
    JoinPlainEnds(stack);
    var inner := body + (if trailing then "/" else "");
    var tail: seq<string> := if trailing then [""] else [];
    SplitBody(trailing, stack);
    AssembleBody(abs, trailing, body);
    if abs {
      SplitLeadingSlash(inner);
      assert [""] + (stack + tail) == [""] + stack + tail;
    } else {
      assert "" + inner == inner;
      assert [] + stack + tail == stack + tail;
    }
  }

  /** The split of a body and its optional trailing '/'. */
  lemma SplitBody(trailing: bool, stack: seq<string>)
    requires |stack| >= 1 && SlashFree(stack)
    ensures Split(Join(stack, '/') + (if trailing then "/" else ""), '/') == stack + (if trailing then [""] else [])
  {
    if trailing {
      SplitTrailingSlash(stack);
    } else {
      SplitJoin(stack, '/');
      assert Join(stack, '/') + "" == Join(stack, '/');
      assert stack + [] == stack;
    }
  }

  /** A non-empty body with the '/' put back around it. */
  lemma AssembleBody(abs: bool, trailing: bool, body: string)
    requires body != ""
    ensures Assemble(abs, trailing, body) == (if abs then "/" else "") + (body + (if trailing then "/" else ""))
  {
  }

  /** A normal form with a non-empty body normalises to itself. */
  lemma NormalizedBody(abs: bool, trailing: bool, stack: seq<string>)
    requires |stack| >= 1 && Collapsed(stack, !abs) && SlashFree(stack)
    ensures Normalize(Assemble(abs, trailing, Join(stack, '/'))) == Assemble(abs, trailing, Join(stack, '/'))
  {
    var q := Assemble(abs, trailing, Join(stack, '/'));
    NormalFormEnds(abs, trailing, stack);
    SplitNormalForm(abs, trailing, stack);
    CollapseNormalForm(abs, trailing, stack, Split(q, '/'));
    NormalizedGeneral(q, abs, trailing, stack);
  }

  lemma NormalizeRoot()
    ensures Normalize("/") == "/"
  {
    SplitSlash();
  }

  lemma SplitSlash()
    ensures Split("/", '/') == ["", ""]
  {
    assert "/"[1..] == "";
  }

  lemma NormalizeDotSlash()
    ensures Normalize("./") == "./"
  {
    assert "./"[1..] == "/";
    SplitSlash();
    assert Split("./", '/') == [['.'] + ""] + [""];
    assert ['.'] + "" == ".";
    assert Split("./", '/') == [".", ""];
  }

  lemma NormalizeDot()
    ensures Normalize(".") == "."
  {
    assert "."[1..] == "";
    assert Split(".", '/') == [['.'] + ""];
    assert ['.'] + "" == ".";
    assert Split(".", '/') == ["."];
  }

  /** `path.normalize` is idempotent: a normal form is its own normal form. */
  lemma NormalizeIdempotent(p: string)
    ensures Normalize(Normalize(p)) == Normalize(p)
  {
    if p == "" {
      NormalizeDot();
    } else {
      NormalizeIsCollapsed(p);
      var abs := p[0] == '/';
      var trailing := p[|p| - 1] == '/';
      var stack := Collapse([], Split(p, '/'), !abs);
      if stack == [] {
        assert Join(stack, '/') == "";
        if abs {
          NormalizeRoot();
        } else if trailing {
          NormalizeDotSlash();
        } else {
          NormalizeDot();
        }
      } else {
        NormalizedBody(abs, trailing, stack);
      }
    }
  }

  /** Drops every '/' at the end of `p`. */
  function TrimTrailingSlashes(p: string): (r: string)
    ensures |r| <= |p| && r == p[..|r|]
    ensures r == "" || r[|r| - 1] != '/'
    ensures forall i :: |r| <= i < |p| ==> p[i] == '/'
  {
    if |p| > 0 && p[|p| - 1] == '/' then TrimTrailingSlashes(p[..|p| - 1]) else p
  }

  /** Index of the last `c` in `s`, or -1. */
  function LastIndexOf(s: string, c: char): (i: int)
    ensures -1 <= i < |s|
    ensures i >= 0 ==> s[i] == c
    ensures forall j :: i < j < |s| ==> s[j] != c
  {
    if |s| == 0 then -1
    else if s[|s| - 1] == c then |s| - 1
    else LastIndexOf(s[..|s| - 1], c)
  }

  /** The last segment of `p`, trailing slashes ignored. */
  function BaseName(p: string): string
  {
    var t := TrimTrailingSlashes(p);
    t[LastIndexOf(t, '/') + 1..]
  }

  /** `path.extname(p)`: from the last '.' of the last segment to its end;
      empty when that segment has no '.', when its only '.'-prefix is its
      first character (".bashrc"), or when it is "..". */
  function Extname(p: string): (e: string)
    ensures e == "" || e[0] == '.'
    ensures '/' !in e
  {
    Extension(BaseName(p))
  }

  /** The extension of one segment. */
  function Extension(base: string): (e: string)
    ensures e == "" || e[0] == '.'
    ensures '/' !in base ==> '/' !in e
  {
    var dot := LastIndexOf(base, '.');
    if dot <= 0 || base == ".." then "" else base[dot..]
  }

  lemma LastIndexOfLower(s: string, c: char)
    requires !('A' <= c <= 'Z') && !('a' <= c <= 'z')
    ensures LastIndexOf(Lower(s), c) == LastIndexOf(s, c)
  {
    forall j | 0 <= j < |s| ensures Lower(s)[j] == c <==> s[j] == c {
      LowerKeepsChar(s, c, j);
    }
  }

  lemma {:induction false} TrimLower(p: string)
    ensures TrimTrailingSlashes(Lower(p)) == Lower(TrimTrailingSlashes(p))
    decreases |p|
  {
    if |p| > 0 {
      LowerKeepsChar(p, '/', |p| - 1);
      LowerSlice(p, 0, |p| - 1);
      if p[|p| - 1] == '/' {
        TrimLower(p[..|p| - 1]);
      }
    }
  }

  lemma BaseNameLower(p: string)
    ensures BaseName(Lower(p)) == Lower(BaseName(p))
  {
    var t := TrimTrailingSlashes(p);
    TrimLower(p);
    LastIndexOfLower(t, '/');
    LowerSlice(t, LastIndexOf(t, '/') + 1, |t|);
  }

  /** Lower-casing a name leaves "..", and only "..", as "..". */
  lemma DotDotLower(base: string)
    ensures Lower(base) == ".." <==> base == ".."
  {
    if |base| == 2 {
      LowerKeepsChar(base, '.', 0);
      LowerKeepsChar(base, '.', 1);
      assert base == ".." <==> base[0] == '.' && base[1] == '.';
      assert Lower(base) == ".." <==> Lower(base)[0] == '.' && Lower(base)[1] == '.';
    }
  }

  lemma ExtensionLower(base: string)
    ensures Extension(Lower(base)) == Lower(Extension(base))
  {
    LastIndexOfLower(base, '.');
    DotDotLower(base);
    var dot := LastIndexOf(base, '.');
    if dot > 0 && base != ".." {
      LowerSlice(base, dot, |base|);
    }
  }

  /** The extension of a lower-cased path is the lower-cased extension. */
  lemma ExtnameLower(p: string)
    ensures Extname(Lower(p)) == Lower(Extname(p))
  {
    BaseNameLower(p);
    ExtensionLower(BaseName(p));
  }

  /** A path without '/' is its own last segment. */
  lemma NoSlashBaseName(p: string)
    requires '/' !in p
    ensures BaseName(p) == p
  {
    var t := TrimTrailingSlashes(p);
    assert t == p;
    assert t[0..] == t;
  }

  /** The last '.' of a name, a dot and a dot-free suffix is that dot. */
  lemma LastDotOf(name: string, ext: string)
    requires '.' !in ext
    ensures LastIndexOf(name + "." + ext, '.') == |name|
  {
    var p := name + "." + ext;
    var i := LastIndexOf(p, '.');
    assert p[|name|] == '.';
  }

  lemma DotSuffix(p: string, name: string, ext: string)
    requires p == name + "." + ext && LastIndexOf(p, '.') == |name| && name != "" && name != "."
    ensures Extension(p) == "." + ext
  {
    assert p[0] == name[0];
    assert |name| == 1 ==> name == [name[0]];
    assert p[|name|..] == "." + ext;
  }

  /** A name, a dot and a dot-free suffix: the suffix is the extension. */
  lemma ExtnameOfName(name: string, ext: string)
    requires name != "" && name != "." && '/' !in name && '/' !in ext && '.' !in ext
    ensures Extname(name + "." + ext) == "." + ext
  {
    var p := name + "." + ext;
    NoSlashBaseName(p);
    LastDotOf(name, ext);
    DotSuffix(p, name, ext);
  }

  // ---------------------------------------------------------------------
  // Paths spelled with plain names only
  // ---------------------------------------------------------------------

  /** A segment that collapsing keeps as it is. */
  predicate Name(seg: string)
  {
    Plain(seg) && seg != ".." && '/' !in seg
  }

  predicate Names(segs: seq<string>)
  {
    forall i :: 0 <= i < |segs| ==> Name(segs[i])
  }

  /** The absolute path whose segments are `segs`. */
  function Absolute(segs: seq<string>): string
  {
    "/" + Join(segs, '/')
  }

  /** Plain names pass through the segment walk unchanged. */
  lemma {:induction false} CollapseNames(stack: seq<string>, segs: seq<string>, aboveRoot: bool)
    requires Names(segs)
    ensures Collapse(stack, segs, aboveRoot) == stack + segs
    decreases |segs|
  {
    if segs != [] {
      assert Push(stack, segs[0], aboveRoot) == stack + [segs[0]];
      CollapseNames(stack + [segs[0]], segs[1..], aboveRoot);
      assert stack + [segs[0]] + segs[1..] == stack + segs;
    }
  }

  lemma SplitNames(prefix: seq<string>, segs: seq<string>)
    requires |segs| >= 1 && Names(segs)
    requires forall i :: 0 <= i < |prefix| ==> '/' !in prefix[i]
    ensures |prefix| >= 1 ==> Split(Join(prefix + segs, '/'), '/') == prefix + segs
    ensures Split(Join(segs, '/'), '/') == segs
  {
    SplitJoin(segs, '/');
    if |prefix| >= 1 {
      SplitJoin(prefix + segs, '/');
    }
  }

  /** A join of names neither is empty nor ends with '/'. */
  lemma JoinNamesEnd(segs: seq<string>)
    requires |segs| >= 1 && Names(segs)
    ensures var j := Join(segs, '/'); j != "" && j[|j| - 1] != '/' && j[0] != '/'
  {
    JoinPlainEnds(segs);
  }

  /** `path.normalize` of a non-empty path without a trailing '/' whose
      segments collapse to a non-empty body. */
  lemma NormalizedAs(p: string, abs: bool, stack: seq<string>)
    requires p != "" && (p[0] == '/') == abs && p[|p| - 1] != '/'
    requires Collapse([], Split(p, '/'), !abs) == stack && Join(stack, '/') != ""
    ensures Normalize(p) == (if abs then "/" else "") + Join(stack, '/')
  {
  }

  /** `path.resolve` of a relative path against an absolute directory. */
  lemma ResolvedAs(cwd: string, p: string, stack: seq<string>)
    requires IsAbsolute(cwd) && !IsAbsolute(p)
    requires Collapse([], Split(cwd, '/') + Split(p, '/'), false) == stack
    ensures Resolve(cwd, p) == Absolute(stack)
  {
  }

  /** An absolute path made of names is already normal. */
  lemma NormalizeAbsolute(segs: seq<string>)
    requires |segs| >= 1 && Names(segs)
    ensures Normalize(Absolute(segs)) == Absolute(segs)
  {
    var j := Join(segs, '/');
    JoinNamesEnd(segs);
    SplitNames([], segs);
    SplitPrefix("", j, '/');
    assert "" + "/" + j == Absolute(segs);
    CollapseNames([], segs, false);
    assert Collapse([], [""] + segs, false) == segs;
    NormalizedAs(Absolute(segs), true, segs);
  }

  /** Splitting "." + "/" + r gives "." before the pieces of r. */
  lemma SplitDot(p: string, r: string, t: seq<string>)
    requires Split(r, '/') == t && p == "." + "/" + r
    ensures Split(p, '/') == ["."] + t
  {
    SplitPrefix(".", r, '/');
  }

  /** The "./" and "./../" prefixes spelled as concatenations.
   *  A lemma of its own: kept apart from the proofs that use it, the literal
   *  stays cheap to prove whatever the solver's seed. */
  lemma DotSpelling(j: string)
    ensures "." + "/" + j == "./" + j
    ensures "." + "/" + ("../" + j) == "./../" + j
  {
  }

  /** A relative path starting with "." and ending like `j`.
   *  A lemma of its own: kept apart from the proofs that use it, the literal
   *  stays cheap to prove whatever the solver's seed. */
  lemma DotEnds(p: string, q: string, j: string)
    requires j != "" && j[|j| - 1] != '/' && p == q + j && |q| >= 1 && q[0] == '.'
    ensures p != "" && p[0] == '.' && p[|p| - 1] != '/'
  {
  }

  lemma CollapseDot(segs: seq<string>)
    requires Names(segs)
    ensures Collapse([], ["."] + segs, true) == segs
  {
    var x := ["."] + segs;
    assert x[0] == "." && x[1..] == segs;
    CollapseNames([], segs, true);
  }

  /** "./" followed by names normalises to the names. */
  lemma NormalizeDotRelative(segs: seq<string>)
    requires |segs| >= 1 && Names(segs)
    ensures Normalize("./" + Join(segs, '/')) == Join(segs, '/')
  {
    var j := Join(segs, '/');
    JoinNamesEnd(segs);
    SplitNames([], segs);
    DotSpelling(j);
    SplitDot("./" + j, j, segs);
    CollapseDot(segs);
    DotEnds("./" + j, "./", j);
    NormalizedAs("./" + j, false, segs);
  }

  /** The same, for a path already spelled out as "./" and a string `q`. */
  lemma NormalizedDotRelative(p: string, q: string, segs: seq<string>)
    requires |segs| >= 1 && Names(segs)
    requires p == "./" + q && q == Join(segs, '/')
    ensures Normalize(p) == q
  {
    NormalizeDotRelative(segs);
  }

  lemma SplitParent(segs: seq<string>)
    requires |segs| >= 1 && Names(segs)
    ensures Split("../" + Join(segs, '/'), '/') == [".."] + segs
  {
    SplitNames([], segs);
    SplitParentOf(Join(segs, '/'), segs);
  }

  /** Splitting ".." + "/" + j gives ".." before the pieces of j. */
  lemma SplitParentOf(j: string, t: seq<string>)
    requires Split(j, '/') == t
    ensures Split("../" + j, '/') == [".."] + t
  {
    SplitPrefix("..", j, '/');
    ParentSpelling(j);
  }

  /** The "../" prefix spelled as a concatenation.
   *  A lemma of its own: kept apart from the proofs that use it, the literal
   *  stays cheap to prove whatever the solver's seed. */
  lemma ParentSpelling(j: string)
    ensures ".." + "/" + j == "../" + j
  {
  }

  lemma SplitDotParent(segs: seq<string>)
    requires |segs| >= 1 && Names(segs)
    ensures Split("./../" + Join(segs, '/'), '/') == [".", ".."] + segs
  {
    var j := Join(segs, '/');
    SplitParent(segs);
    DotSpelling(j);
    SplitDot("./../" + j, "../" + j, [".."] + segs);
    SeqSpelling(segs);
  }

  /** The segments [".", ".."] regrouped as one prefix.
   *  A lemma of its own: kept apart from the proofs that use it, the literal
   *  stays cheap to prove whatever the solver's seed. */
  lemma SeqSpelling(segs: seq<string>)
    ensures ["."] + ([".."] + segs) == [".", ".."] + segs
  {
  }

  lemma SplitAbsoluteName(dir: string)
    requires Name(dir)
    ensures Split(Absolute([dir]), '/') == ["", dir]
  {
    SplitWhole(dir, '/');
    SplitPrefix("", dir, '/');
    assert "" + "/" + dir == Absolute([dir]);
  }

  /** "./../" followed by names normalises to "../" and the names: a
      relative path keeps the '..' it cannot pop. */
  lemma NormalizeDotParent(segs: seq<string>)
    requires |segs| >= 1 && Names(segs)
    ensures Normalize("./../" + Join(segs, '/')) == "../" + Join(segs, '/')
  {
    var j := Join(segs, '/');
    JoinNamesEnd(segs);
    DotEnds("./../" + j, "./../", j);
    SplitDotParent(segs);
    NormalizedParent("./../" + j, segs);
  }

  lemma NormalizedParent(p: string, segs: seq<string>)
    requires |segs| >= 1 && Names(segs)
    requires p != "" && p[0] == '.' && p[|p| - 1] != '/' && Split(p, '/') == [".", ".."] + segs
    ensures Normalize(p) == "../" + Join(segs, '/')
  {
    CollapseParent(segs);
    JoinAppend([".."], segs, '/');
    NormalizedAs(p, false, [".."] + segs);
  }

  lemma CollapseParent(segs: seq<string>)
    requires Names(segs)
    ensures Collapse([], [".", ".."] + segs, true) == [".."] + segs
  {
    var x := [".", ".."] + segs;
    assert x[0] == "." && x[1..] == [".."] + segs;
    assert Collapse([], x, true) == Collapse([], [".."] + segs, true);
    var y := [".."] + segs;
    assert y[0] == ".." && y[1..] == segs;
    assert Push([], "..", true) == [".."];
    assert Collapse([], y, true) == Collapse([".."], segs, true);
    CollapseNames([".."], segs, true);
  }

  lemma CollapseUnder(dir: seq<string>, segs: seq<string>)
    requires Names(dir) && Names(segs)
    ensures Collapse([], ([""] + dir) + segs, false) == dir + segs
  {
    var x := ([""] + dir) + segs;
    assert x[0] == "" && x[1..] == dir + segs;
    assert Collapse([], x, false) == Collapse([], dir + segs, false);
    assert Names(dir + segs);
    CollapseNames([], dir + segs, false);
  }

  lemma CollapseClimb(dir: string, segs: seq<string>)
    requires Name(dir) && Names(segs)
    ensures Collapse([], ["", dir] + ([".."] + segs), false) == segs
  {
    var x := ["", dir] + ([".."] + segs);
    assert x[0] == "" && x[1..] == [dir, ".."] + segs;
    assert Collapse([], x, false) == Collapse([], [dir, ".."] + segs, false);
    var y := [dir, ".."] + segs;
    assert y[0] == dir && y[1..] == [".."] + segs;
    assert Collapse([], y, false) == Collapse([dir], [".."] + segs, false);
    var z := [".."] + segs;
    assert z[0] == ".." && z[1..] == segs;
    assert Collapse([dir], z, false) == Collapse([], segs, false);
    CollapseNames([], segs, false);
  }

  /** Names resolved against an absolute directory of names are appended. */
  lemma ResolveNames(dir: seq<string>, segs: seq<string>)
    requires |dir| >= 1 && Names(dir) && |segs| >= 1 && Names(segs)
    ensures Resolve(Absolute(dir), Join(segs, '/')) == Absolute(dir + segs)
  {
    var j := Join(segs, '/');
    SplitNames([], dir);
    SplitPrefix("", Join(dir, '/'), '/');
    assert "" + "/" + Join(dir, '/') == Absolute(dir);
    SplitNames([], segs);
    JoinNamesEnd(segs);
    CollapseUnder(dir, segs);
    ResolvedAs(Absolute(dir), j, dir + segs);
  }

  /** "../" and names, resolved against a one-segment directory, climb to
      the root. */
  lemma ResolveParent(dir: string, segs: seq<string>)
    requires Name(dir) && |segs| >= 1 && Names(segs)
    ensures Resolve(Absolute([dir]), "../" + Join(segs, '/')) == Absolute(segs)
  {
    var j := Join(segs, '/');
    SplitAbsoluteName(dir);
    SplitParent(segs);
    CollapseClimb(dir, segs);
    ResolvedAs(Absolute([dir]), "../" + j, segs);
  }

  /** Two absolute paths whose first names begin differently: neither
      string is a prefix of the other. */
  lemma FirstCharDiffers(x: seq<string>, y: seq<string>)
    requires |x| >= 1 && Names(x) && |y| >= 1 && Names(y)
    requires x[0][0] != y[0][0]
    ensures !StartsWith(Absolute(x), Absolute(y))
  {
    JoinHead(x, '/');
    JoinHead(y, '/');
    assert Absolute(x)[1] == x[0][0];
    assert Absolute(y)[1] == y[0][0];
  }

  /** The absolute path of `dir + segs` lies under the directory `dir`. */
  lemma AbsoluteUnder(dir: seq<string>, segs: seq<string>)
    requires |dir| >= 1 && |segs| >= 1
    ensures StartsWith(Absolute(dir + segs), Absolute(dir))
  {
    JoinAppend(dir, segs, '/');
  }
}
