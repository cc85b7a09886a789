/**
 Path strings: splitting into components, canonicalisation in a fixed buffer, and
 the choice of the mount that owns a path. Strings stand for C strings without
 their terminating NUL.
 */
module VfsPath {

  const MAX_PATH: nat := 512
  const NAME_MAX: nat := 256

  // ---------------------------------------------------------------- components

  /** Length of the leading run without a slash. */
  function Word(s: string): (n: nat)
    ensures n <= |s| && (forall i :: 0 <= i < n ==> s[i] != '/') && (n < |s| ==> s[n] == '/')
  {
    if s == "" || s[0] == '/' then 0 else 1 + Word(s[1..])
  }

  /** A component longer than fits is cut. */
  function Clip(s: string): string { if |s| < NAME_MAX then s else s[..NAME_MAX - 1] }

  function Components(s: string): seq<string>
    decreases |s|
  {
    if s == "" then []
    else if s[0] == '/' then Components(s[1..])
    else [Clip(s[..Word(s)])] + Components(s[Word(s)..])
  }

  lemma {:induction false} WordJoin(a: string, b: string)
    requires a != "" && a[0] != '/'
    ensures Word(a + "/" + b) == Word(a)
  {
    assert (a + "/" + b)[1..] == a[1..] + "/" + b;
    if |a| > 1 && a[1] != '/' { WordJoin(a[1..], b); }
  }

  /** A slash between two strings separates their components. */
  lemma {:induction false} ComponentsJoin(a: string, b: string)
    ensures Components(a + "/" + b) == Components(a) + Components(b)
    decreases |a|
  {
    var s := a + "/" + b;
    if a == "" {
      assert s[1..] == b;
    } else if a[0] == '/' {
      assert s[1..] == a[1..] + "/" + b;
      ComponentsJoin(a[1..], b);
    } else {
      hide Clip;
      var w := Word(a);
      WordJoin(a, b);
      hide Word;
      assert s[..w] == a[..w] && s[w..] == a[w..] + "/" + b;
      ComponentsJoin(a[w..], b);
    }
  }

  predicate IsName(n: string) { 0 < |n| < NAME_MAX && '/' !in n }

  lemma {:induction false} ComponentsAreNames(s: string)
    ensures forall i :: 0 <= i < |Components(s)| ==> IsName(Components(s)[i])
    decreases |s|
  {
    if s != "" {
      if s[0] == '/' {
        ComponentsAreNames(s[1..]);
      } else {
        ComponentsAreNames(s[Word(s)..]);
        assert IsName(Clip(s[..Word(s)]));
      }
    }
  }

  lemma {:induction false} WordWhole(n: string)
    requires '/' !in n
    ensures Word(n) == |n|
  {
  }

  lemma {:induction false} NameIsOneComponent(n: string)
    requires IsName(n)
    ensures Components(n) == [n]
  {
    WordWhole(n);
    assert n[0] in n && n[..|n|] == n && n[|n|..] == "";
  }

  // ---------------------------------------------------------------- the stack of components

  predicate Good(st: seq<string>) {
    forall i :: 0 <= i < |st| ==> IsName(st[i]) && st[i] != "." && st[i] != ".."
  }

  function Push(st: seq<string>, name: string): seq<string> {
    if name == "." then st
    else if name == ".." then if st == [] then [] else st[..|st| - 1]
    else st + [name]
  }

  function Fold(st: seq<string>, names: seq<string>): seq<string>
    decreases |names|
  {
    if names == [] then st else Fold(Push(st, names[0]), names[1..])
  }

  function Render(st: seq<string>): string {
    if st == [] then "/"
    else if |st| == 1 then "/" + st[0]
    else Render(st[..|st| - 1]) + "/" + st[|st| - 1]
  }

  /** Every prefix of the fold fits the buffer. */
  predicate Fits(st: seq<string>, names: seq<string>)
    decreases |names|
  {
    |Render(st)| < MAX_PATH && (names != [] ==> Fits(Push(st, names[0]), names[1..]))
  }

  lemma {:induction false} RenderPush(st: seq<string>, n: string)
    ensures Render(st + [n]) == (if st == [] then "/" else Render(st) + "/") + n
  {
    assert (st + [n])[..|st|] == st;
  }

  lemma {:induction false} FoldJoin(st: seq<string>, a: seq<string>, b: seq<string>)
    ensures Fold(st, a + b) == Fold(Fold(st, a), b)
    ensures Fits(st, a + b) <==> Fits(st, a) && Fits(Fold(st, a), b)
    decreases |a|
  {
    if a == [] {
      assert a + b == b;
      if b != [] { assert Fits(st, b) ==> |Render(st)| < MAX_PATH; }
    } else {
      assert (a + b)[0] == a[0] && (a + b)[1..] == a[1..] + b;
      FoldJoin(Push(st, a[0]), a[1..], b);
    }
  }

  lemma {:induction false} FoldGood(st: seq<string>, names: seq<string>)
    requires Good(st) && forall i :: 0 <= i < |names| ==> IsName(names[i])
    ensures Good(Fold(st, names))
    decreases |names|
  {
    if names != [] {
      FoldGood(Push(st, names[0]), names[1..]);
    }
  }

  /** Pushing good components one after another just appends them. */
  lemma {:induction false} FoldGoodNames(st: seq<string>, names: seq<string>)
    requires Good(names)
    ensures Fold(st, names) == st + names
    decreases |names|
  {
    if names == [] {
      assert st + names == st;
    } else {
      FoldGoodNames(st + [names[0]], names[1..]);
      assert st + names == st + [names[0]] + names[1..];
    }
  }

  lemma {:induction false} ComponentsOfRender(st: seq<string>)
    requires Good(st)
    ensures Components(Render(st)) == st
  {
    if st == [] {
      assert Components("/") == Components("/"[1..]);
    } else {
      var last, rest := st[|st| - 1], st[..|st| - 1];
      assert st == rest + [last] && Good(rest);
      NameIsOneComponent(last);
      if rest == [] {
        assert ("/" + last)[1..] == last;
      } else {
        ComponentsOfRender(rest);
        ComponentsJoin(Render(rest), last);
      }
    }
  }

  lemma {:induction false} RenderGrows(st: seq<string>, m: nat)
    requires m <= |st|
    ensures |Render(st[..m])| <= |Render(st)|
  {
    if m < |st| {
      RenderGrows(st[..|st| - 1], m);
      assert st[..|st| - 1][..m] == st[..m];
    } else {
      assert st[..m] == st;
    }
  }

  lemma {:induction false} FitsPrefixes(st: seq<string>, m: nat)
    requires Good(st) && m <= |st| && |Render(st)| < MAX_PATH
    ensures Fits(st[..m], st[m..])
    decreases |st| - m
  {
    RenderGrows(st, m);
    if m < |st| {
      assert st[..m] + [st[m]] == st[..m + 1] && st[m..][1..] == st[m + 1..];
      FitsPrefixes(st, m + 1);
    }
  }

  // ---------------------------------------------------------------- what canonicalisation gives

  /** The components a call works through: the base's first, unless the path is absolute. */
  function Names(base: string, path: string): seq<string> {
    if path != "" && path[0] == '/' then Components(path) else Components(base) + Components(path)
  }

  /** The stack canonicalisation ends with never holds ".", ".." or an empty component. */
  lemma {:induction false} ResultCanonical(base: string, path: string)
    ensures Good(Fold([], Names(base, path)))
  {
    ComponentsAreNames(base);
    ComponentsAreNames(path);
    FoldGood([], Names(base, path));
  }

  /** A rendered stack is absolute, splits back into its components, and ends in a slash only if it is the root. */
  lemma {:induction false} CanonicalShape(st: seq<string>)
    requires Good(st)
    ensures Render(st)[0] == '/' && Components(Render(st)) == st
    ensures |Render(st)| > 1 <==> st != []
    ensures st != [] ==> Render(st)[|Render(st)| - 1] != '/'
  {
    ComponentsOfRender(st);
    RenderAbsolute(st);
    if st != [] {
      var last := st[|st| - 1];
      assert Render(st)[|Render(st)| - 1] == last[|last| - 1];
    }
  }

  lemma {:induction false} RenderAbsolute(st: seq<string>)
    ensures |Render(st)| > 0 && Render(st)[0] == '/'
  {
    if |st| > 1 { RenderAbsolute(st[..|st| - 1]); }
  }

  /** Canonicalising a canonical path that fits gives it back, whatever the base. */
  lemma {:induction false} Idempotent(base: string, st: seq<string>)
    requires Good(st) && |Render(st)| < MAX_PATH
    ensures Fits([], Names(base, Render(st))) && Fold([], Names(base, Render(st))) == st
  {
    CanonicalShape(st);
    FoldGoodNames([], st);
    FitsPrefixes(st, 0);
    assert st[..0] == [] && st[0..] == st;
  }

  /** A relative path means the base and the path joined by a slash, in success and in failure. */
  lemma {:induction false} RelativeIsJoined(base: string, path: string, other: string)
    requires !(path != "" && path[0] == '/') && base != "" && base[0] == '/'
    ensures Names(base, path) == Names(other, base + "/" + path)
  {
    ComponentsJoin(base, path);
  }

  // ---------------------------------------------------------------- the code

  method SkipSlashes(s: string, at: nat) returns (next: nat)
    requires at <= |s|
    ensures at <= next <= |s| && Components(s[next..]) == Components(s[at..])
    ensures next < |s| ==> s[next] != '/'
  {
    next := at;
    while next < |s| && s[next] == '/'
      invariant at <= next <= |s| && Components(s[next..]) == Components(s[at..])
    {
      assert s[next..][1..] == s[next + 1..];
      next := next + 1;
    }
  }

  /** Copy a component, keeping at most 255 characters of it. */
  method TakeWord(s: string, start: nat) returns (name: string, next: nat)
    requires start < |s| && s[start] != '/'
    ensures start < next <= |s| && next - start == Word(s[start..]) && name == Clip(s[start..next])
  {
    next, name := start, "";
    while next < |s| && s[next] != '/' && |name| < NAME_MAX - 1
      invariant start <= next <= |s| && name == s[start..next] && |name| <= NAME_MAX - 1
      invariant forall j :: start <= j < next ==> s[j] != '/'
    {
      name := name + [s[next]];
      next := next + 1;
    }
    ghost var cut := next;
    while next < |s| && s[next] != '/'
      invariant cut <= next <= |s| && forall j :: start <= j < next ==> s[j] != '/'
    {
      next := next + 1;
    }
    assert s[start..next][..cut - start] == s[start..cut];
    WordIs(s, start, next);
  }

  lemma {:induction false} WordIs(s: string, start: nat, next: nat)
    requires start <= next <= |s| && (forall j :: start <= j < next ==> s[j] != '/') && (next < |s| ==> s[next] == '/')
    ensures Word(s[start..]) == next - start
  {
    assert forall j :: 0 <= j < |s| - start ==> s[start..][j] == s[start + j];
  }

  /** Copy the next component out and move past it. */
  method NextComponent(s: string, at: nat) returns (found: bool, name: string, next: nat)
    requires at <= |s|
    ensures at <= next <= |s|
    ensures !found ==> Components(s[at..]) == []
    ensures found ==> next > at && Components(s[at..]) == [name] + Components(s[next..])
  {
    var start := SkipSlashes(s, at);
    if start == |s| {
      return false, "", start;
    }
    name, next := TakeWord(s, start);
    found := true;
    var t := s[start..];
    assert t[..next - start] == s[start..next] && t[next - start..] == s[next..];
  }

  /** Drop the last component of the buffer. */
  method Pop(out: array<char>, len: nat, ghost st: seq<string>) returns (n: nat)
    requires out.Length == MAX_PATH && 0 < len == |Render(st)| < MAX_PATH && out[..len] == Render(st) && Good(st)
    modifies out
    ensures n == |Render(Push(st, ".."))| <= len && out[..n] == Render(Push(st, "..")) && out[n] == '\0'
  {
    n := len;
    ghost var rest := Push(st, "..");
    ghost var base := if st == [] then 1 else len - |st[|st| - 1]|;
    RenderAbsolute(rest);
    if st != [] {
      assert st == rest + [st[|st| - 1]];
      RenderPush(rest, st[|st| - 1]);
    }
    forall j | base <= j < len
      ensures Render(st)[j] != '/'
    {
      assert Render(st)[j] == st[|st| - 1][j - base] && st[|st| - 1][j - base] in st[|st| - 1];
    }
    while n > 1 && out[n - 1] != '/'
      invariant base <= n <= len && forall j :: 0 <= j < len ==> out[j] == Render(st)[j]
    {
      n := n - 1;
    }
    if n > 1 {
      n := n - 1;
    }
    assert Render(st)[..n] == Render(rest);
    assert out[..n] == Render(st)[..n];
    out[n] := '\0';
  }

  /** Append one component, or pop one for "..". */
  method CanonPush(out: array<char>, len: nat, name: string, ghost st: seq<string>) returns (ok: bool, n: nat)
    requires out.Length == MAX_PATH && 0 < len == |Render(st)| < MAX_PATH && out[..len] == Render(st) && Good(st)
    requires out[len] == '\0' && IsName(name)
    modifies out
    ensures ok <==> |Render(Push(st, name))| < MAX_PATH
    ensures ok ==> n == |Render(Push(st, name))| && out[..n] == Render(Push(st, name)) && out[n] == '\0'
  {
    if name == "." {
      return true, len;
    }
    if name == ".." {
      n := Pop(out, len, st);
      return true, n;
    }
    RenderPush(st, name);
    RenderAbsolute(st);
    var sep := if len > 1 then 1 else 0;
    assert len > 1 <==> st != [] by { CanonicalShape(st); }
    assert |Render(Push(st, name))| == len + sep + |name|;
    if len + sep + |name| + 1 > MAX_PATH {
      return false, len;
    }
    n := Append(out, len, sep, name);
    ok := true;
  }

  method Append(out: array<char>, len: nat, sep: nat, name: string) returns (n: nat)
    requires sep <= 1 && len + sep + |name| < out.Length
    modifies out
    ensures n == len + sep + |name| && out[..n] == old(out[..len]) + (if sep == 1 then "/" else "") + name && out[n] == '\0'
  {
    n := len;
    ghost var before := out[..len];
    if sep == 1 {
      out[n] := '/';
      n := n + 1;
    }
    ghost var front := out[..n];
    assert front == before + (if sep == 1 then "/" else "");
    var i := 0;
    while i < |name|
      invariant i <= |name| && n == len + sep + i && out[..n] == front + name[..i]
    {
      out[n] := name[i];
      assert out[..n + 1] == out[..n] + [name[i]];
      n, i := n + 1, i + 1;
    }
    out[n] := '\0';
    assert name[..|name|] == name;
  }

  /** Push every component of `s` onto the buffer. */
  method PushAll(out: array<char>, len: nat, s: string, ghost st: seq<string>) returns (ok: bool, n: nat)
    requires out.Length == MAX_PATH && 0 < len == |Render(st)| < MAX_PATH && out[..len] == Render(st) && Good(st) && out[len] == '\0'
    modifies out
    ensures ok <==> Fits(st, Components(s))
    ensures ok ==>
              var st' := Fold(st, Components(s));
              0 < n == |Render(st')| < MAX_PATH && out[..n] == Render(st') && Good(st') && out[n] == '\0'
  {
    ghost var cur := st;
    ok, n := true, len;
    var at := 0;
    ComponentsAreNames(s);
    assert s[0..] == s;
    while true
      invariant ok && at <= |s| && 0 < n == |Render(cur)| < MAX_PATH && out[..n] == Render(cur) && Good(cur) && out[n] == '\0'
      invariant Fold(cur, Components(s[at..])) == Fold(st, Components(s))
      invariant Fits(cur, Components(s[at..])) <==> Fits(st, Components(s))
      decreases |s| - at
    {
      var found, name, next := NextComponent(s, at);
      if !found {
        return;
      }
      ghost var names := Components(s[at..]);
      ComponentsAreNames(s[at..]);
      assert names[0] == name && names[1..] == Components(s[next..]);
      assert Fold(cur, names) == Fold(Push(cur, name), names[1..]);
      PushGood(cur, name);
      ok, n := CanonPush(out, n, name, cur);
      if !ok {
        return;
      }
      cur, at := Push(cur, name), next;
    }
  }

  lemma {:induction false} PushGood(st: seq<string>, name: string)
    requires Good(st) && IsName(name)
    ensures Good(Push(st, name)) && |Render(Push(st, name))| > 0
  {
    RenderAbsolute(Push(st, name));
  }

  /** Canonicalise `path`, relative to `base` unless it is absolute. Fails exactly when some intermediate result is too long. */
  method Canonicalise(base: string, path: string, out: array<char>) returns (ok: bool, len: nat)
    requires out.Length == MAX_PATH
    modifies out
    ensures ok <==> Fits([], Names(base, path))
    ensures ok ==> len < MAX_PATH && out[..len] == Render(Fold([], Names(base, path))) && out[len] == '\0'
  {
    out[0], out[1] := '/', '\0';
    ok, len := true, 1;
    ghost var st: seq<string> := [];
    assert out[..1] == "/";
    if !(path != "" && path[0] == '/') {
      FoldJoin([], Components(base), Components(path));
      ok, len := PushAll(out, 1, base, []);
      if !ok {
        return;
      }
      st := Fold([], Components(base));
    }
    ok, len := PushAll(out, len, path, st);
  }

  // ---------------------------------------------------------------- mounts

  const MAX_MOUNTS: nat := 8

  datatype Mount = Unused | At(path: string)

  /** The mount point is a prefix of the path that ends at a component boundary. */
  predicate Owns(m: Mount, path: string) {
    && m.At? && |m.path| <= |path| && path[..|m.path|] == m.path
    && (|m.path| > 1 ==> |path| == |m.path| || path[|m.path|] == '/')
  }

  function Relative(m: string, path: string): string
    requires |m| <= |path|
  {
    var rel := if |m| > 1 then path[|m|..] else path;
    if rel == "" then "/" else rel
  }

  /** The longest matching mount point, and the path below it. */
  method MountFor(mounts: seq<Mount>, path: string) returns (found: bool, best: nat, rel: string)
    requires |mounts| == MAX_MOUNTS
    ensures found <==> exists i :: 0 <= i < MAX_MOUNTS && Owns(mounts[i], path)
    ensures found ==> best < MAX_MOUNTS && Owns(mounts[best], path) && rel == Relative(mounts[best].path, path)
    ensures found ==> forall i :: 0 <= i < MAX_MOUNTS && Owns(mounts[i], path) ==> |mounts[i].path| <= |mounts[best].path|
  {
    found, best, rel := false, 0, "";
    var bestLen := 0;
    var i := 0;
    while i < MAX_MOUNTS
      invariant i <= MAX_MOUNTS && best < MAX_MOUNTS
      invariant !found ==> bestLen == 0 && forall j :: 0 <= j < i ==> !Owns(mounts[j], path)
      invariant found ==> Owns(mounts[best], path) && bestLen == |mounts[best].path|
      invariant found ==> forall j :: 0 <= j < i && Owns(mounts[j], path) ==> |mounts[j].path| <= bestLen
    {
      if mounts[i].At? {
        var m := mounts[i].path;
        var prefix := PrefixOk(m, path);
        if prefix && !(|m| > 1 && |path| > |m| && path[|m|] != '/') && |m| >= bestLen {
          found, best, bestLen := true, i, |m|;
        }
      }
      i := i + 1;
    }
    if found {
      rel := if bestLen > 1 then path[bestLen..] else path;
      if rel == "" {
        rel := "/";
      }
    }
  }

  method PrefixOk(m: string, path: string) returns (ok: bool)
    ensures ok <==> |m| <= |path| && path[..|m|] == m
  {
    var k := 0;
    while k < |m|
      invariant k <= |m| && k <= |path| && path[..k] == m[..k]
    {
      if k == |path| || path[k] != m[k] {
        if k < |path| && |m| <= |path| {
          assert path[..|m|][k] != m[k];
        }
        return false;
      }
      assert path[..k + 1] == m[..k + 1];
      k := k + 1;
    }
    ok := true;
  }

  /** A relative path below a mount starts with a slash, so the walk stays inside the mount. */
  lemma {:induction false} RelativeStartsAtRoot(m: Mount, path: string)
    requires Owns(m, path) && path != "" && path[0] == '/'
    ensures Relative(m.path, path)[0] == '/'
    ensures |m.path| > 1 ==> Components(path) == Components(m.path) + Components(Relative(m.path, path))
  {
    if |m.path| > 1 {
      var p := m.path;
      if |path| == |p| {
        assert path == p;
        assert Components("/") == Components("/"[1..]);
      } else {
        var tail := path[|p| + 1..];
        assert path == p + "/" + tail && path[|p|..] == "/" + tail;
        ComponentsJoin(p, tail);
        assert ("/" + tail)[1..] == tail;
      }
    }
  }
}
