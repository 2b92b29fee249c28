/**
 * POSIX path handling as Node's `path` module performs it for `path.join`:
 * the arguments that are not empty are glued with '/', and the result is
 * normalised (empty and "." segments vanish, ".." removes the segment before
 * it, a leading '/' and a trailing '/' are kept, and an empty relative result
 * reads ".").
 */
module PosixPath {

  /** JavaScript's `s.startsWith(prefix)`. */
  predicate StartsWith(s: string, prefix: string) {
    |prefix| <= |s| && s[..|prefix|] == prefix
  }

  /** True when `s` ends in a '/'. */
  predicate EndsWithSlash(s: string) {
    |s| > 0 && s[|s| - 1] == '/'
  }

  // ---------------------------------------------------------------------------
  // Splitting at '/' and gluing back
  // ---------------------------------------------------------------------------

  /** The pieces between the '/' characters of `p`, empty pieces included:
      "a//b/" gives ["a", "", "b", ""] and "" gives [""]. */
  function Split(p: string): (pieces: seq<string>)
    ensures |pieces| >= 1
    ensures forall i :: 0 <= i < |pieces| ==> '/' !in pieces[i]
    decreases |p|
  {
    if p == [] then [""]
    else
      var rest := Split(p[1..]);
      if p[0] == '/' then [""] + rest
      else [[p[0]] + rest[0]] + rest[1..]
  }

  /** The pieces glued back together with a '/' between neighbours. */
  function JoinWith(pieces: seq<string>): string
  {
    if |pieces| == 0 then ""
    else if |pieces| == 1 then pieces[0]
    else pieces[0] + "/" + JoinWith(pieces[1..])
  }

  /** A name that is one segment on its own: not empty, "." or "..", and free of '/'. */
  predicate PlainSegment(seg: string) {
    seg != "" && seg != "." && seg != ".." && '/' !in seg
  }

  /** True when no piece contains a separator. */
  predicate NoSlash(pieces: seq<string>) {
    forall i :: 0 <= i < |pieces| ==> '/' !in pieces[i]
  }

  /** A string without '/' is a single piece. */
  lemma {:induction false} SplitNoSlash(s: string)
    requires '/' !in s
    ensures Split(s) == [s]
    decreases |s|
  {
    if s != [] {
      assert '/' !in s[1..] by {
        forall k | 0 <= k < |s[1..]| ensures s[1..][k] != '/' {
          assert s[1..][k] == s[k + 1];
        }
      }
      SplitNoSlash(s[1..]);
      assert s == [s[0]] + s[1..];
    }
  }

  /** Splitting distributes over a separator: the pieces of `a/b` are the
      pieces of `a` followed by those of `b`. */
  lemma {:induction false} SplitAround(a: string, b: string)
    ensures Split(a + "/" + b) == Split(a) + Split(b)
    decreases |a|
  {
    if a == [] {
      assert a + "/" + b == ['/'] + b;
      SplitCons('/', b);
    } else {
      var c, tail := a[0], a[1..] + "/" + b;
      var rest, sb := Split(a[1..]), Split(b);
      assert a + "/" + b == [c] + tail;
      assert a == [c] + a[1..];
      SplitCons(c, tail);
      SplitCons(c, a[1..]);
      SplitAround(a[1..], b);
      assert Split(tail) == rest + sb;
      if c == '/' {
        Associative([""], rest, sb);
      } else {
        var head := [[c] + rest[0]];
        AppendAfterFirst(rest, sb);
        assert Split(a + "/" + b) == head + (rest[1..] + sb);
        Associative(head, rest[1..], sb);
      }
    }
  }

  /** A non-empty sequence is its first element followed by the rest. */
  lemma FirstAndRest<T>(s: seq<T>)
    requires |s| >= 1
    ensures s == [s[0]] + s[1..]
  {
  }

  /** The first element and the rest of a concatenation whose left part is not empty. */
  lemma AppendAfterFirst<T>(x: seq<T>, y: seq<T>)
    requires |x| >= 1
    ensures (x + y)[0] == x[0] && (x + y)[1..] == x[1..] + y
  {
  }

  /** Concatenation is associative. */
  lemma Associative<T>(x: seq<T>, y: seq<T>, z: seq<T>)
    ensures x + (y + z) == (x + y) + z
  {
  }

  /** Splitting a path with one more character in front. */
  lemma SplitCons(c: char, s: string)
    ensures Split([c] + s) ==
            if c == '/' then [""] + Split(s) else [[c] + Split(s)[0]] + Split(s)[1..]
  {
    assert ([c] + s)[1..] == s;
  }

  /** Gluing distributes over concatenation of non-empty piece lists. */
  lemma {:induction false} JoinWithAppend(s: seq<string>, t: seq<string>)
    requires |s| >= 1 && |t| >= 1
    ensures JoinWith(s + t) == JoinWith(s) + "/" + JoinWith(t)
    decreases |s|
  {
    if |s| == 1 {
      assert (s + t)[1..] == t;
    } else {
      assert (s + t)[1..] == s[1..] + t;
      JoinWithAppend(s[1..], t);
    }
  }

  /** Splitting glued pieces gives the pieces back, when none holds a '/'. */
  lemma {:induction false} SplitJoinWith(pieces: seq<string>)
    requires |pieces| >= 1 && NoSlash(pieces)
    ensures Split(JoinWith(pieces)) == pieces
    decreases |pieces|
  {
    if |pieces| == 1 {
      SplitNoSlash(pieces[0]);
    } else {
      var rest := pieces[1..];
      assert NoSlash(rest) by {
        forall k | 0 <= k < |rest| ensures '/' !in rest[k] {
          assert rest[k] == pieces[k + 1];
        }
      }
      assert JoinWith(pieces) == pieces[0] + "/" + JoinWith(rest);
      SplitNoSlash(pieces[0]);
      SplitJoinWith(rest);
      SplitAround(pieces[0], JoinWith(rest));
      assert Split(JoinWith(pieces)) == [pieces[0]] + rest;
      FirstAndRest(pieces);
    }
  }

  /** Glued non-empty pieces start with the first character of the first piece. */
  lemma {:induction false} JoinWithFirst(pieces: seq<string>)
    requires |pieces| >= 1 && pieces[0] != ""
    ensures |JoinWith(pieces)| > 0 && JoinWith(pieces)[0] == pieces[0][0]
  {
  }

  /** Glued non-empty pieces end with the last character of the last piece. */
  lemma {:induction false} JoinWithLast(pieces: seq<string>)
    requires |pieces| >= 1 && pieces[|pieces| - 1] != ""
    ensures var j := JoinWith(pieces); |j| > 0 && j[|j| - 1] == pieces[|pieces| - 1][|pieces[|pieces| - 1]| - 1]
    decreases |pieces|
  {
    if |pieces| > 1 {
      assert pieces[1..][|pieces[1..]| - 1] == pieces[|pieces| - 1];
      JoinWithLast(pieces[1..]);
    }
  }

  // ---------------------------------------------------------------------------
  // Segment normalisation (Node's `normalizeString`)
  // ---------------------------------------------------------------------------

  /** One segment folded into the normalised segments `acc`: "" and "." vanish;
      ".." drops the last segment unless that one is itself "..", and when there
      is nothing to drop it is kept only where the path may climb above its
      start (relative paths); anything else is appended. */
  function Step(acc: seq<string>, seg: string, allowAboveRoot: bool): seq<string>
  {
    if seg == "" || seg == "." then acc
    else if seg == ".." then
      if |acc| > 0 && acc[|acc| - 1] != ".." then acc[..|acc| - 1]
      else if allowAboveRoot then acc + [".."]
      else acc
    else acc + [seg]
  }

  /** The normal form of a segment list: no empty, "." or '/'-holding segment,
      ".." only at the front, and none at all where the path cannot climb. */
  ghost predicate Canonical(segs: seq<string>, allowAboveRoot: bool) {
    && (forall i :: 0 <= i < |segs| ==> segs[i] != "" && segs[i] != "." && '/' !in segs[i])
    && (forall i :: 0 < i < |segs| && segs[i] == ".." ==> segs[i - 1] == "..")
    && (!allowAboveRoot ==> forall i :: 0 <= i < |segs| ==> segs[i] != "..")
  }

  /** `segs` folded, left to right, into `acc` by Step. */
  function Resolve(acc: seq<string>, segs: seq<string>, allowAboveRoot: bool): (r: seq<string>)
    ensures Canonical(acc, allowAboveRoot) && NoSlash(segs) ==> Canonical(r, allowAboveRoot)
    decreases |segs|
  {
    if segs == [] then acc
    else
      StepCanonical(acc, segs[0], allowAboveRoot);
      Resolve(Step(acc, segs[0], allowAboveRoot), segs[1..], allowAboveRoot)
  }

  /** One step keeps a normal list normal. */
  lemma StepCanonical(acc: seq<string>, seg: string, allowAboveRoot: bool)
    ensures Canonical(acc, allowAboveRoot) && '/' !in seg ==> Canonical(Step(acc, seg, allowAboveRoot), allowAboveRoot)
  {
    if Canonical(acc, allowAboveRoot) && '/' !in seg && seg != "" && seg != "." {
      var next := Step(acc, seg, allowAboveRoot);
      if seg == ".." && |acc| > 0 && acc[|acc| - 1] != ".." {
        assert next == acc[..|acc| - 1];
      } else {
        assert next == acc + [seg] || next == acc;
      }
    }
  }

  /** Folding a concatenation is folding its halves one after the other. */
  lemma {:induction false} ResolveAppend(acc: seq<string>, s: seq<string>, t: seq<string>, allowAboveRoot: bool)
    ensures Resolve(acc, s + t, allowAboveRoot) == Resolve(Resolve(acc, s, allowAboveRoot), t, allowAboveRoot)
    decreases |s|
  {
    if s != [] {
      assert (s + t)[0] == s[0];
      assert (s + t)[1..] == s[1..] + t;
      ResolveAppend(Step(acc, s[0], allowAboveRoot), s[1..], t, allowAboveRoot);
    } else {
      assert s + t == t;
    }
  }

  /** The segments of `segs` other than "" and ".", in order. */
  function Plain(segs: seq<string>): seq<string>
  {
    if segs == [] then []
    else (if segs[0] == "" || segs[0] == "." then [] else [segs[0]]) + Plain(segs[1..])
  }

  /** A segment list without ".." adds exactly its plain segments. */
  lemma {:induction false} ResolveWithoutParent(acc: seq<string>, segs: seq<string>, allowAboveRoot: bool)
    requires ".." !in segs
    ensures Resolve(acc, segs, allowAboveRoot) == acc + Plain(segs)
    decreases |segs|
  {
    if segs != [] {
      assert ".." !in segs[1..] by {
        forall k | 0 <= k < |segs[1..]| ensures segs[1..][k] != ".." {
          assert segs[1..][k] == segs[k + 1];
        }
      }
      var head: seq<string> := if segs[0] == "" || segs[0] == "." then [] else [segs[0]];
      assert segs[0] != "..";
      assert Step(acc, segs[0], allowAboveRoot) == acc + head;
      ResolveWithoutParent(acc + head, segs[1..], allowAboveRoot);
      assert Plain(segs) == head + Plain(segs[1..]);
      Associative(acc, head, Plain(segs[1..]));
    }
  }

  /** Folding an already normal list onto a prefix that keeps it normal adds it unchanged. */
  lemma {:induction false} ResolveCanonical(acc: seq<string>, segs: seq<string>, allowAboveRoot: bool)
    requires Canonical(acc + segs, allowAboveRoot)
    ensures Resolve(acc, segs, allowAboveRoot) == acc + segs
    decreases |segs|
  {
    if segs != [] {
      var all := acc + segs;
      assert all[|acc|] == segs[0];
      var next := Step(acc, segs[0], allowAboveRoot);
      if segs[0] == ".." {
        assert allowAboveRoot;
        if |acc| > 0 {
          assert all[|acc| - 1] == acc[|acc| - 1];
        }
      }
      assert next == acc + [segs[0]];
      assert next + segs[1..] == all;
      ResolveCanonical(next, segs[1..], allowAboveRoot);
    }
  }

  // ---------------------------------------------------------------------------
  // path.normalize and path.join
  // ---------------------------------------------------------------------------

  /** The text of a normalised path: its segments glued with '/', behind a
      '/' for an absolute path and before a '/' when the input ended in one;
      with no segment left it is the root "/", or "./" or "." for a relative path. */
  function Render(isAbsolute: bool, segs: seq<string>, trailingSeparator: bool): string
  {
    if segs == [] then
      (if isAbsolute then "/" else if trailingSeparator then "./" else ".")
    else
      (if isAbsolute then "/" else "") + JoinWith(segs) + (if trailingSeparator then "/" else "")
  }

  /** Node's `path.posix.normalize`. */
  function Normalize(p: string): string
  {
    if p == "" then "."
    else
      var isAbsolute := p[0] == '/';
      Render(isAbsolute, Resolve([], Split(p), !isAbsolute), EndsWithSlash(p))
  }

  /** The non-empty arguments of `path.join`, glued with '/'. */
  function Joined(parts: seq<string>): string
  {
    if parts == [] then ""
    else
      var init := Joined(parts[..|parts| - 1]);
      var last := parts[|parts| - 1];
      if last == "" then init
      else if init == "" then last
      else init + "/" + last
  }

  /** Node's `path.posix.join`. */
  function Join(parts: seq<string>): string
  {
    var joined := Joined(parts);
    if joined == "" then "." else Normalize(joined)
  }

  /** The text that a path contributes in front of a relative name joined
      after it: nothing for the current directory ("." or "./"), otherwise the
      path with exactly one '/' at its end. */
  function DirPrefix(folder: string): string
  {
    if folder == "." || folder == "./" then ""
    else if EndsWithSlash(folder) then folder
    else folder + "/"
  }

  /** `path.join` never gives the empty string. */
  lemma JoinNotEmpty(parts: seq<string>)
    ensures Join(parts) != ""
  {
    var x := Joined(parts);
    if x != "" {
      var isAbsolute := x[0] == '/';
      var segs := Resolve([], Split(x), !isAbsolute);
      assert Canonical([], !isAbsolute);
      if segs != [] {
        JoinWithFirst(segs);
      }
    }
  }

  /** Normalising is idempotent. */
  lemma NormalizeIdempotent(p: string)
    ensures Normalize(Normalize(p)) == Normalize(p)
  {
    if p == "" {
      NormalizeDot();
    } else {
      var isAbsolute := p[0] == '/';
      var trailing := EndsWithSlash(p);
      var segs := Resolve([], Split(p), !isAbsolute);
      assert Canonical([], !isAbsolute);
      if segs == [] {
        if isAbsolute {
          NormalizeRoot();
        } else if trailing {
          NormalizeDotSlash();
        } else {
          NormalizeDot();
        }
      } else {
        RenderIsFixed(segs, isAbsolute, trailing);
      }
    }
  }

  lemma NormalizeDot()
    ensures Normalize(".") == "."
  {
    SplitNoSlash(".");
  }

  lemma NormalizeDotSlash()
    ensures Normalize("./") == "./"
  {
    assert Split("./") == [".", ""] by {
      SplitAround(".", "");
      SplitNoSlash(".");
      assert "." + "/" + "" == "./";
    }
  }

  lemma NormalizeRoot()
    ensures Normalize("/") == "/"
  {
    assert Split("/") == ["", ""] by {
      SplitAround("", "");
      assert "" + "/" + "" == "/";
    }
  }

  /** A rendered path made of normal segments normalises to itself. */
  lemma RenderIsFixed(segs: seq<string>, isAbsolute: bool, trailing: bool)
    requires segs != [] && Canonical(segs, !isAbsolute)
    ensures Normalize(Render(isAbsolute, segs, trailing)) == Render(isAbsolute, segs, trailing)
  {
    var q := Render(isAbsolute, segs, trailing);
    RenderEnds(segs, isAbsolute, trailing);
    SplitRender(segs, isAbsolute, trailing);
    ResolveRendered(segs, isAbsolute, trailing);
  }

  /** A rendered path starts with '/' exactly when absolute and ends with '/'
      exactly when asked to. */
  lemma RenderEnds(segs: seq<string>, isAbsolute: bool, trailing: bool)
    requires segs != [] && Canonical(segs, !isAbsolute)
    ensures var q := Render(isAbsolute, segs, trailing);
            q != "" && (q[0] == '/' <==> isAbsolute) && (EndsWithSlash(q) <==> trailing)
  {
    var body := JoinWith(segs);
    var q := Render(isAbsolute, segs, trailing);
    JoinWithFirst(segs);
    JoinWithLast(segs);
    if !isAbsolute { assert q[0] == body[0]; }
    if !trailing { assert q[|q| - 1] == body[|body| - 1]; }
  }

  /** The pieces of a rendered path: a leading "" for the root, the segments,
      a trailing "" for a final '/'. */
  lemma SplitRender(segs: seq<string>, isAbsolute: bool, trailing: bool)
    requires segs != [] && NoSlash(segs)
    ensures Split(Render(isAbsolute, segs, trailing)) ==
            (if isAbsolute then [""] else []) + segs + (if trailing then [""] else [])
  {
    var body := JoinWith(segs);
    var front := (if isAbsolute then "/" else "") + body;
    var lead: seq<string> := if isAbsolute then [""] else [];
    SplitJoinWith(segs);
    assert Split("") == [""];
    assert Split(front) == lead + segs by {
      if isAbsolute {
        SplitAround("", body);
        assert "" + "/" + body == front;
      } else {
        assert front == body;
      }
    }
    if trailing {
      SplitAround(front, "");
      assert front + "/" + "" == Render(isAbsolute, segs, trailing);
    } else {
      assert front == Render(isAbsolute, segs, trailing);
    }
  }

  /** Normal segments with a leading and a trailing "" resolve to themselves. */
  lemma ResolveRendered(segs: seq<string>, isAbsolute: bool, trailing: bool)
    requires Canonical(segs, !isAbsolute)
    ensures Resolve([], (if isAbsolute then [""] else []) + segs + (if trailing then [""] else []), !isAbsolute) == segs
  {
    var lead: seq<string> := if isAbsolute then [""] else [];
    var tail: seq<string> := if trailing then [""] else [];
    ResolveAppend([], lead + segs, tail, !isAbsolute);
    ResolveAppend([], lead, segs, !isAbsolute);
    assert Resolve([], lead, !isAbsolute) == [];
    ResolveCanonical([], segs, !isAbsolute);
    assert [] + segs == segs;
    assert Resolve(segs, tail, !isAbsolute) == segs;
  }

  /** Joining a single path that is itself the result of a join changes nothing. */
  lemma JoinIdempotent(parts: seq<string>)
    ensures Join([Join(parts)]) == Join(parts)
  {
    var f := Join(parts);
    assert [f][..0] == [];
    assert Joined([f]) == f;
    if Joined(parts) == "" {
      NormalizeDot();
    } else {
      NormalizeIdempotent(Joined(parts));
    }
  }

  /** Joining onto the result of a join is one join over all the arguments,
      except where every earlier argument is empty and the last one starts
      with '/': `path.join("", "/a")` is "/a" but `path.join(path.join(""), "/a")`
      is "a". */
  lemma JoinNested(parts: seq<string>, last: string)
    requires Joined(parts) != "" || !StartsWith(last, "/")
    ensures Join([Join(parts), last]) == Join(parts + [last])
  {
    var x := Joined(parts);
    var j := Join(parts);
    var all := parts + [last];
    JoinNotEmpty(parts);
    assert all[..|all| - 1] == parts && all[|all| - 1] == last;
    assert [j, last][..1] == [j] && [j][..0] == [];
    assert Joined([j]) == j;
    if last == "" {
      assert Joined([j, last]) == j && Joined(all) == x;
      JoinIdempotent(parts);
    } else if x == "" {
      assert Joined([j, last]) == "." + "/" + last && Joined(all) == last;
      assert last[0] != '/' by { assert last[..1] == [last[0]]; }
      NormalizeAfterDot(last);
    } else {
      assert Joined([j, last]) == j + "/" + last && Joined(all) == x + "/" + last;
      NormalizeAfterNormalized(x, last);
    }
  }

  /** A leading "./" is dropped by normalisation. */
  lemma NormalizeAfterDot(p: string)
    requires p != "" && p[0] != '/'
    ensures Normalize("." + "/" + p) == Normalize(p)
  {
    var q := "." + "/" + p;
    EndsAfter(".", p);
    SplitAround(".", p);
    SplitNoSlash(".");
    ResolveAppend([], ["."], Split(p), true);
    assert Resolve([], ["."], true) == [];
  }

  /** Normalising what comes before a '/' first does not change the
      normalisation of the whole. */
  lemma NormalizeAfterNormalized(x: string, p: string)
    requires x != "" && p != ""
    ensures Normalize(Normalize(x) + "/" + p) == Normalize(x + "/" + p)
  {
    var isAbsolute := x[0] == '/';
    var r := Resolve([], Split(x), !isAbsolute);
    var n := Normalize(x);
    assert n == Render(isAbsolute, r, EndsWithSlash(x));
    assert Canonical([], !isAbsolute);
    ResolveOfRender(r, isAbsolute, EndsWithSlash(x));
    EndsAfter(x, p);
    EndsAfter(n, p);
    SplitAround(x, p);
    SplitAround(n, p);
    ResolveAppend([], Split(x), Split(p), !isAbsolute);
    ResolveAppend([], Split(n), Split(p), !isAbsolute);
  }

  /** A normalised path starts with '/' exactly when absolute, and its
      segments resolve back to those it was rendered from. */
  lemma ResolveOfRender(r: seq<string>, isAbsolute: bool, trailing: bool)
    requires Canonical(r, !isAbsolute)
    ensures var n := Render(isAbsolute, r, trailing);
            n != "" && (n[0] == '/' <==> isAbsolute) && Resolve([], Split(n), !isAbsolute) == r
  {
    if r == [] {
      if isAbsolute {
        NormalizeRoot();
        assert Split("/") == ["", ""];
      } else if trailing {
        NormalizeDotSlash();
        assert Split("./") == [".", ""];
      } else {
        SplitNoSlash(".");
      }
    } else {
      RenderEnds(r, isAbsolute, trailing);
      SplitRender(r, isAbsolute, trailing);
      ResolveRendered(r, isAbsolute, trailing);
    }
  }

  /** The central fact about `path.join`: a last argument without ".."
      segments and with at least one real segment lands right under the
      directory the other arguments name, as its plain segments, keeping its
      own trailing '/'. (When every other argument is empty and the name
      starts with '/', the join is absolute instead; that case is excluded.) */
  lemma JoinAppend(parts: seq<string>, name: string)
    requires ".." !in Split(name)
    requires Plain(Split(name)) != []
    requires Joined(parts) != "" || !StartsWith(name, "/")
    ensures Join(parts + [name]) ==
            DirPrefix(Join(parts)) + JoinWith(Plain(Split(name))) + (if EndsWithSlash(name) then "/" else "")
  {
    var x := Joined(parts);
    var all := parts + [name];
    assert all[..|all| - 1] == parts && all[|all| - 1] == name;
    var plain := Plain(Split(name));
    assert name != "";
    if x == "" {
      // nothing before: the join is the normalised (relative) name alone
      assert Joined(all) == name;
      assert name[0] != '/' by { assert name[..1] == [name[0]]; }
      ResolveWithoutParent([], Split(name), true);
      assert [] + plain == plain;
    } else {
      assert Joined(all) == x + "/" + name;
      NormalizeAfter(x, name);
    }
  }

  /** Normalising `x/name` for a non-empty `x` and a name without "..". */
  lemma NormalizeAfter(x: string, name: string)
    requires x != "" && name != ""
    requires ".." !in Split(name)
    requires Plain(Split(name)) != []
    ensures Normalize(x + "/" + name) ==
            DirPrefix(Normalize(x)) + JoinWith(Plain(Split(name))) + (if EndsWithSlash(name) then "/" else "")
  {
    var isAbsolute := x[0] == '/';
    EndsAfter(x, name);
    ResolvedAfter(x, name, !isAbsolute);
    var r := Resolve([], Split(x), !isAbsolute);
    assert Canonical([], !isAbsolute);
    RenderAppend(r, Plain(Split(name)), isAbsolute, EndsWithSlash(x), EndsWithSlash(name));
  }

  /** `x/name` starts where `x` starts and ends as `name` ends. */
  lemma EndsAfter(x: string, name: string)
    requires x != "" && name != ""
    ensures (x + "/" + name)[0] == x[0]
    ensures EndsWithSlash(x + "/" + name) <==> EndsWithSlash(name)
  {
    var joined := x + "/" + name;
    assert joined[|joined| - 1] == name[|name| - 1];
  }

  /** Rendering more segments after normal ones puts them under the directory
      prefix of the shorter rendering. */
  lemma RenderAppend(r: seq<string>, plain: seq<string>, isAbsolute: bool, trailingBefore: bool, trailingAfter: bool)
    requires plain != [] && Canonical(r, !isAbsolute)
    ensures Render(isAbsolute, r + plain, trailingAfter) ==
            DirPrefix(Render(isAbsolute, r, trailingBefore)) + JoinWith(plain) + (if trailingAfter then "/" else "")
  {
    if r == [] {
      assert r + plain == plain;
      RenderNothing(isAbsolute, trailingBefore);
    } else {
      DirPrefixOfRender(r, isAbsolute, trailingBefore);
      JoinWithAppend(r, plain);
      Regroup(if isAbsolute then "/" else "", JoinWith(r), JoinWith(plain), if trailingAfter then "/" else "");
    }
  }

  /** The directory prefix of a path without segments: "/" for the root,
      nothing for the current directory. */
  lemma RenderNothing(isAbsolute: bool, trailing: bool)
    ensures DirPrefix(Render(isAbsolute, [], trailing)) == (if isAbsolute then "/" else "")
  {
  }

  /** Regrouping a concatenation around a '/'. */
  lemma Regroup(pre: string, a: string, b: string, tail: string)
    ensures pre + (a + "/" + b) + tail == (pre + a + "/") + b + tail
  {
  }

  /** The directory prefix of a rendered path with segments: the path with one '/' after it. */
  lemma DirPrefixOfRender(r: seq<string>, isAbsolute: bool, trailing: bool)
    requires r != [] && Canonical(r, !isAbsolute)
    ensures DirPrefix(Render(isAbsolute, r, trailing)) == (if isAbsolute then "/" else "") + JoinWith(r) + "/"
  {
    var pre: string := if isAbsolute then "/" else "";
    var j := JoinWith(r);
    var folder := Render(isAbsolute, r, trailing);
    JoinWithLast(r);
    NotDot(r, !isAbsolute);
    var last := r[|r| - 1];
    assert last[|last| - 1] in last;
    assert j[|j| - 1] != '/';
    if trailing {
      assert folder == (pre + j) + "/";
      assert EndsWithSlash(folder);
      assert folder != "./" by {
        if !isAbsolute {
          assert folder == j + "/";
          assert folder[..|j|] == j;
          assert "./"[..1] == ".";
        } else {
          assert |folder| > 2;
        }
      }
    } else {
      assert folder == pre + j;
      assert !EndsWithSlash(folder);
      assert folder != "." && folder != "./" by {
        if isAbsolute {
          assert |folder| > 1;
        }
      }
    }
  }

  /** The segments of `x/name`, for a name without "..": those of `x`
      followed by the plain segments of the name. */
  lemma ResolvedAfter(x: string, name: string, allowAboveRoot: bool)
    requires ".." !in Split(name)
    ensures Resolve([], Split(x + "/" + name), allowAboveRoot) ==
            Resolve([], Split(x), allowAboveRoot) + Plain(Split(name))
  {
    SplitAround(x, name);
    ResolveAppend([], Split(x), Split(name), allowAboveRoot);
    ResolveWithoutParent(Resolve([], Split(x), allowAboveRoot), Split(name), allowAboveRoot);
  }

  /** Normal segments never glue to ".". */
  lemma NotDot(r: seq<string>, allowAboveRoot: bool)
    requires r != [] && Canonical(r, allowAboveRoot)
    ensures JoinWith(r) != "."
  {
    if |r| > 1 {
      JoinWithFirst(r[1..]);
    }
  }
}
