/** The path arithmetic of scp_write: the directory part is copied to a 256-byte buffer and
cut by strtok, and the file name is what follows the last slash. */
module PathSplit {
  import opened ArduinoString

  const PATH_BUFFER := 256

  predicate IsSeparator(c: char) { c == '/' || c == '\\' }

  /** The length of the separator-free prefix. */
  function RunLength(s: string): (n: nat)
    ensures n <= |s|
    ensures forall i :: 0 <= i < n ==> !IsSeparator(s[i])
    ensures n < |s| ==> IsSeparator(s[n])
  {
    if s == [] || IsSeparator(s[0]) then 0 else 1 + RunLength(s[1..])
  }

  /** What strtok returns over and over: the maximal nonempty runs without separators. */
  function Components(s: string): seq<string>
    decreases |s|
  {
    if s == [] then []
    else if IsSeparator(s[0]) then Components(s[1..])
    else
      assert RunLength(s) > 0;
      [s[..RunLength(s)]] + Components(s[RunLength(s)..])
  }

  /** What strncpy into the buffer and the forced terminator leave. */
  function Copied(s: string): string
  {
    var c := CStr(s);
    if |c| < PATH_BUFFER then c else c[..PATH_BUFFER - 1]
  }

  function DirectoryPart(path: string): string { Substring(path, 0, LastIndexOf(path, '/')) }
  function FileName(path: string): string { Substring(path, LastIndexOf(path, '/') + 1, U32 - 1) }

  /** The directories that scp_write pushes for a path. */
  function Directories(path: string): seq<string> { Components(Copied(DirectoryPart(path))) }

  /** strtok with the separators "/\\": `rest` is the text it has not scanned yet. */
  class Tokenizer {
    var rest: string

    constructor (s: string)
      ensures rest == s
    {
      rest := s;
    }

    // The empty string stands for strtok's NULL.
    method Next() returns (token: string)
      modifies this
      ensures Components(old(rest)) == if token == [] then [] else [token] + Components(rest)
      ensures token != [] ==> |rest| < |old(rest)|
    {
      while rest != [] && IsSeparator(rest[0])
        invariant Components(rest) == Components(old(rest)) && |rest| <= |old(rest)|
        decreases |rest|
      {
        rest := rest[1..];
      }
      var n := RunLength(rest);
      token := rest[..n];
      ghost var after := rest[n..];
      rest := if n < |rest| then rest[n + 1..] else [];
      assert after != [] ==> rest == after[1..];
    }
  }

  // ---- What the split means -------------------------------------------------------------

  /** The text with every separator written '/', doubled and trailing ones dropped. */
  function Squeezed(s: string): string
  {
    if s == [] then []
    else if !IsSeparator(s[0]) then [s[0]] + Squeezed(s[1..])
    else if |s| > 1 && !IsSeparator(s[1]) then ['/'] + Squeezed(s[1..])
    else Squeezed(s[1..])
  }

  function Normalised(s: string): string
  {
    if s != [] && IsSeparator(s[0]) then Normalised(s[1..]) else Squeezed(s)
  }

  /** Each name preceded by a slash. */
  function Rooted(names: seq<string>): string
  {
    if names == [] then [] else ['/'] + names[0] + Rooted(names[1..])
  }

  function Joined(names: seq<string>): string
  {
    if names == [] then [] else names[0] + Rooted(names[1..])
  }

  lemma {:induction false} SqueezedRun(s: string, n: nat)
    requires n <= |s| && forall i :: 0 <= i < n ==> !IsSeparator(s[i])
    ensures Squeezed(s) == s[..n] + Squeezed(s[n..])
    decreases n
  {
    if n == 0 {
      assert s[0..] == s;
    } else {
      SqueezedRun(s[1..], n - 1);
      assert s[1..][n - 1..] == s[n..];
      assert s[..n] == [s[0]] + s[1..][..n - 1];
    }
  }

  lemma {:induction false} SqueezedComponents(s: string)
    ensures Squeezed(s) == if s != [] && !IsSeparator(s[0]) then Joined(Components(s)) else Rooted(Components(s))
    decreases |s|
  {
    if s != [] {
      if IsSeparator(s[0]) {
        SqueezedComponents(s[1..]);
        if |s| > 1 && !IsSeparator(s[1]) {
          var names := Components(s[1..]);
          assert ['/'] + Joined(names) == Rooted(names);
        }
      } else {
        var n := RunLength(s);
        assert n > 0;
        SqueezedRun(s, n);
        SqueezedComponents(s[n..]);
        assert Components(s)[1..] == Components(s[n..]);
      }
    }
  }

  /** The components are nonempty, separator-free and join to the normalised text. */
  lemma {:induction false} ComponentsRejoin(s: string)
    ensures Joined(Components(s)) == Normalised(s)
    ensures forall k :: 0 <= k < |Components(s)| ==> Plain(Components(s)[k])
    decreases |s|
  {
    if s != [] {
      if IsSeparator(s[0]) {
        ComponentsRejoin(s[1..]);
      } else {
        SqueezedComponents(s);
        assert RunLength(s) > 0;
        ComponentsRejoin(s[RunLength(s)..]);
      }
    }
  }

  lemma {:induction false} RunLengthIs(s: string, n: nat)
    requires n <= |s| && (forall i :: 0 <= i < n ==> !IsSeparator(s[i])) && (n < |s| ==> IsSeparator(s[n]))
    ensures RunLength(s) == n
  {
    if n > 0 {
      RunLengthIs(s[1..], n - 1);
    }
  }

  lemma CutJoin(a: string, c: char, b: string, n: nat)
    requires n <= |a|
    ensures var s := a + [c] + b; s[..n] == a[..n] && s[n..] == a[n..] + [c] + b
  {
  }

  lemma RunInJoin(a: string, c: char, b: string)
    requires IsSeparator(c)
    ensures RunLength(a + [c] + b) == RunLength(a)
  {
    RunLengthIs(a + [c] + b, RunLength(a));
  }

  /** A slash and a backslash both separate, */
  lemma {:induction false} SeparatorsSplit(a: string, c: char, b: string)
    requires c == '/' || c == '\\'
    ensures Components(a + [c] + b) == Components(a) + Components(b)
    decreases |a|
  {
    var s := a + [c] + b;
    if a == [] {
      assert s[1..] == b;
    } else if IsSeparator(a[0]) {
      CutJoin(a, c, b, 1);
      SeparatorsSplit(a[1..], c, b);
    } else {
      var n := RunLength(a);
      RunInJoin(a, c, b);
      CutJoin(a, c, b, n);
      SeparatorsSplit(a[n..], c, b);
      assert [a[..n]] + (Components(a[n..]) + Components(b)) == ([a[..n]] + Components(a[n..])) + Components(b);
    }
  }

  /** and nothing else does. */
  lemma OthersDoNotSplit(s: string)
    requires s != [] && '/' !in s && '\\' !in s
    ensures Components(s) == [s]
  {
    SingleComponent(s);
  }

  ghost predicate Plain(name: string)
  {
    name != [] && forall i :: 0 <= i < |name| ==> !IsSeparator(name[i])
  }

  /** Only one list of plain names joins to a given text, so the rejoining lemma fixes them. */
  lemma {:induction false} JoinIsInjective(a: seq<string>, b: seq<string>)
    requires forall k :: 0 <= k < |a| ==> Plain(a[k])
    requires forall k :: 0 <= k < |b| ==> Plain(b[k])
    requires Joined(a) == Joined(b)
    ensures a == b
  {
    if a != [] && b != [] {
      var x, y := Rooted(a[1..]), Rooted(b[1..]);
      SamePrefix(a[0], x, b[0], y);
      if |a| > 1 && |b| > 1 {
        assert Joined(a[1..]) == x[1..] && Joined(b[1..]) == y[1..];
      } else {
        assert a[1..] == [] == b[1..];
      }
      JoinIsInjective(a[1..], b[1..]);
    }
  }

  lemma SamePrefix(n: string, x: string, m: string, y: string)
    requires Plain(n) && Plain(m) && n + x == m + y
    requires x == [] || x[0] == '/'
    requires y == [] || y[0] == '/'
    ensures n == m && x == y
  {
    var s := n + x;
    assert x != [] ==> s[|n|] == '/';
    assert y != [] ==> s[|m|] == '/';
    assert forall i :: 0 <= i < |n| ==> s[i] == n[i] && s[i] != '/';
    assert forall i :: 0 <= i < |m| ==> s[i] == m[i] && s[i] != '/';
    assert n == s[..|n|] && m == s[..|m|];
    assert x == s[|n|..] && y == s[|m|..];
  }

  /** The characters that are no separators. */
  function Letters(s: string): nat
  {
    if s == [] then 0 else (if IsSeparator(s[0]) then 0 else 1) + Letters(s[1..])
  }

  lemma {:induction false} LettersJoin(a: string, b: string)
    ensures Letters(a + b) == Letters(a) + Letters(b)
  {
    if a == [] {
      assert a + b == b;
    } else {
      assert (a + b)[1..] == a[1..] + b;
      LettersJoin(a[1..], b);
    }
  }

  lemma {:induction false} SqueezedLetters(s: string)
    ensures Letters(Squeezed(s)) == Letters(s)
  {
    if s != [] {
      SqueezedLetters(s[1..]);
    }
  }

  lemma {:induction false} NormalisedLetters(s: string)
    ensures Letters(Normalised(s)) == Letters(s)
  {
    if s != [] && IsSeparator(s[0]) {
      NormalisedLetters(s[1..]);
    } else {
      SqueezedLetters(s);
    }
  }

  predicate Separators(s: string) { forall i :: 0 <= i < |s| ==> IsSeparator(s[i]) }

  lemma {:induction false} NoLetters(s: string)
    ensures Letters(s) == 0 <==> Separators(s)
  {
    if s != [] {
      NoLetters(s[1..]);
      assert forall i :: 0 < i < |s| ==> s[i] == s[1..][i - 1];
    }
  }

  lemma {:induction false} SqueezedDrops(a: string, b: string)
    requires Separators(b)
    ensures Squeezed(a + b) == Squeezed(a)
    decreases |a| + |b|
  {
    if a != [] {
      assert (a + b)[1..] == a[1..] + b;
      SqueezedDrops(a[1..], b);
      if |a| == 1 && b != [] {
        assert (a + b)[1] == b[0];
      }
    } else if b != [] {
      assert a + b == b;
      SqueezedDrops([], b[1..]);
      assert [] + b[1..] == b[1..];
    }
  }

  lemma {:induction false} NormalisedDrops(a: string, b: string)
    requires Separators(b)
    ensures Normalised(a + b) == Normalised(a)
    decreases |a| + |b|
  {
    if a != [] {
      assert (a + b)[1..] == a[1..] + b && (a + b)[0] == a[0];
      if IsSeparator(a[0]) {
        NormalisedDrops(a[1..], b);
      } else {
        SqueezedDrops(a, b);
      }
    } else if b != [] {
      assert a + b == b && [] + b[1..] == b[1..];
      NormalisedDrops([], b[1..]);
    }
  }

  /** Cutting a text changes its normal form exactly if more than separators is cut off. */
  lemma CutMatters(a: string, b: string)
    ensures Normalised(a) == Normalised(a + b) <==> Separators(b)
  {
    if Separators(b) {
      NormalisedDrops(a, b);
    } else {
      NoLetters(b);
      LettersJoin(a, b);
      NormalisedLetters(a);
      NormalisedLetters(a + b);
    }
  }

  /** A path with a slash splits into its directory part and the name after the last slash.  The
      directories pushed join to what the buffer holds of the directory part, normalised: to the
      whole of it exactly if it is shorter than the buffer or only separators are cut off. */
  lemma PathRoundTrip(path: string)
    requires '/' in path && |path| < U32 && NUL !in path
    ensures var d := DirectoryPart(path);
            && path == d + "/" + FileName(path) && '/' !in FileName(path)
            && Joined(Directories(path)) == Normalised(if |d| < 256 then d else d[..255])
            && (Joined(Directories(path)) == Normalised(d) <==> |d| < 256 || Separators(d[255..]))
    ensures forall k :: 0 <= k < |Directories(path)| ==> Plain(Directories(path)[k])
  {
    SplitAtSlash(path);
    var d := DirectoryPart(path);
    CStrKeeps(d);
    ComponentsRejoin(Copied(d));
    if |d| >= PATH_BUFFER {
      CutMatters(d[..PATH_BUFFER - 1], d[PATH_BUFFER - 1..]);
      assert d[..PATH_BUFFER - 1] + d[PATH_BUFFER - 1..] == d;
    }
  }

  lemma SplitAtSlash(path: string)
    requires '/' in path && |path| < U32 && NUL !in path
    ensures path == DirectoryPart(path) + "/" + FileName(path) && '/' !in FileName(path) && NUL !in DirectoryPart(path)
  {
    CStrKeeps(path);
    var i := LastIndexOf(path, '/');
    assert i + 1 < U32;
    assert DirectoryPart(path) == path[..i];
    assert FileName(path) == path[i + 1..];
  }

  /** Without a slash the "not found" index selects the whole path for both parts, so the
      file's own name is also pushed as a directory. */
  lemma PathWithoutSlash(path: string)
    requires '/' !in path && |path| < PATH_BUFFER && NUL !in path
    ensures FileName(path) == path
    ensures Joined(Directories(path)) == Normalised(path)
    ensures Plain(path) ==> Directories(path) == [path]
  {
    WholePath(path);
    CStrKeeps(path);
    ComponentsRejoin(path);
    if Plain(path) {
      SingleComponent(path);
    }
  }

  lemma WholePath(path: string)
    requires '/' !in path && |path| < PATH_BUFFER
    ensures DirectoryPart(path) == path == FileName(path)
  {
    assert Unsigned(-1) == U32 - 1 == Unsigned(U32 - 1);
  }

  lemma SingleComponent(name: string)
    requires Plain(name)
    ensures Components(name) == [name]
  {
    assert RunLength(name) == |name|;
    assert name[..|name|] == name;
    assert Components(name) == [name] + Components([]);
  }
}
