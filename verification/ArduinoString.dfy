/** The String operations of the Arduino core that the firmware relies on.
Positions are unsigned 32-bit in substring, so a "not found" result of -1 used as a
right end means "to the end of the string". */
module ArduinoString {

  const U32 := 0x1_0000_0000
  const NUL := '\0'

  /** An int converted to unsigned; the positions in use are far below the 32-bit limit. */
  function Unsigned(i: int): nat
    requires -U32 <= i
  {
    if i < 0 then i + U32 else i
  }

  /** indexOf(c, from): the first position at or after `from`, or -1; strchr stops at a NUL. */
  function IndexOf(s: string, c: char, from: nat): (i: int)
    ensures -1 <= i < |s|
    ensures i >= 0 ==> from <= i && s[i] == c
    ensures c !in s ==> i == -1
    decreases |s| - from
  {
    if from >= |s| then -1 else if s[from] == c then from else if s[from] == NUL then -1 else IndexOf(s, c, from + 1)
  }

  /** The last position before n, or -1. */
  function LastBefore(s: string, c: char, n: nat): (i: int)
    requires n <= |s|
    ensures -1 <= i < n
    ensures i >= 0 ==> s[i] == c
    ensures forall j :: i < j < n ==> s[j] != c
  {
    if n == 0 then -1 else if s[n - 1] == c then n - 1 else LastBefore(s, c, n - 1)
  }

  /** lastIndexOf(c): strrchr and strstr stop at a NUL as well. */
  function LastIndexOf(s: string, c: char): int { LastBefore(s, c, NulFrom(s, 0)) }

  function Min(a: nat, b: nat): nat { if a < b then a else b }
  function Max(a: nat, b: nat): nat { if a < b then b else a }

  /** substring(left, right): swaps crossed ends and clips to the string. */
  function Substring(s: string, left: int, right: int): string
    requires -U32 <= left && -U32 <= right
  {
    s[Min(Min(Unsigned(left), Unsigned(right)), |s|)..Min(Max(Unsigned(left), Unsigned(right)), |s|)]
  }

  predicate IsSpace(c: char)
  {
    c == ' ' || c == '\t' || c == '\n' || c == '\U{0B}' || c == '\U{0C}' || c == '\r'
  }

  /** The first position from i on that holds no blank. */
  function Lead(s: string, i: nat): (k: nat)
    requires i <= |s|
    ensures i <= k <= |s|
    decreases |s| - i
  {
    if i < |s| && IsSpace(s[i]) then Lead(s, i + 1) else i
  }

  /** Where the blanks that end s[..n] begin, not before m. */
  function Trail(s: string, m: nat, n: nat): (k: nat)
    requires m <= n <= |s|
    ensures m <= k <= n
    decreases n
  {
    if n > m && IsSpace(s[n - 1]) then Trail(s, m, n - 1) else n
  }

  function Trim(s: string): string
  {
    s[Lead(s, 0)..Trail(s, Lead(s, 0), |s|)]
  }

  /** strlen, from position i on. */
  function NulFrom(s: string, i: nat): (k: nat)
    requires i <= |s|
    ensures i <= k <= |s|
    decreases |s| - i
  {
    if i == |s| || s[i] == NUL then i else NulFrom(s, i + 1)
  }

  /** What strdup(s.c_str()) keeps of s. */
  function CStr(s: string): string { s[..NulFrom(s, 0)] }

  /** The first NUL ends the C string. */
  lemma {:induction false} NulEnds(s: string, i: nat)
    requires i <= |s|
    ensures var k := NulFrom(s, i); (k < |s| ==> s[k] == NUL) && forall j :: i <= j < k ==> s[j] != NUL
    decreases |s| - i
  {
    if i < |s| && s[i] != NUL {
      NulEnds(s, i + 1);
    }
  }

  /** The text after the last c, or everything when there is none. */
  function AfterLast(s: string, c: char): (r: string)
    ensures c !in r
  {
    if s == [] || s[|s| - 1] == c then [] else AfterLast(s[..|s| - 1], c) + [s[|s| - 1]]
  }

  ghost predicate NoOuterSpace(s: string)
  {
    s != [] ==> !IsSpace(s[0]) && !IsSpace(s[|s| - 1])
  }

  lemma TrimKeeps(s: string)
    requires NoOuterSpace(s)
    ensures Trim(s) == s
  {
  }

  lemma {:induction false} TrailSkips(s: string, m: nat, n: nat, k: nat)
    requires m < n <= k <= |s| && !IsSpace(s[n - 1])
    requires forall i :: n <= i < k ==> IsSpace(s[i])
    ensures Trail(s, m, k) == n
    decreases k
  {
    if n < k {
      TrailSkips(s, m, n, k - 1);
    }
  }

  lemma {:induction false} LeadBlanks(s: string, i: nat)
    requires i <= |s|
    ensures forall j :: i <= j < Lead(s, i) ==> IsSpace(s[j])
    ensures Lead(s, i) < |s| ==> !IsSpace(s[Lead(s, i)])
    decreases |s| - i
  {
    if i < |s| && IsSpace(s[i]) {
      LeadBlanks(s, i + 1);
    }
  }

  lemma {:induction false} TrailBlanks(s: string, m: nat, n: nat)
    requires m <= n <= |s|
    ensures forall j :: Trail(s, m, n) <= j < n ==> IsSpace(s[j])
    decreases n
  {
    if n > m && IsSpace(s[n - 1]) {
      TrailBlanks(s, m, n - 1);
    }
  }

  lemma {:induction false} LeadIs(s: string, i: nat, k: nat)
    requires i <= k < |s| && !IsSpace(s[k]) && forall j :: i <= j < k ==> IsSpace(s[j])
    ensures Lead(s, i) == k
    decreases k - i
  {
    if i < k {
      LeadIs(s, i + 1, k);
    }
  }

  predicate AllSpace(s: string) { forall i :: 0 <= i < |s| ==> IsSpace(s[i]) }

  /** Blanks around a text that neither starts nor ends with one are dropped. */
  lemma TrimPadded(pre: string, s: string, post: string)
    requires s != [] && NoOuterSpace(s) && AllSpace(pre) && AllSpace(post)
    ensures Trim(pre + s + post) == s
  {
    var t := pre + s + post;
    var m, n := |pre|, |pre| + |s|;
    assert t[m] == s[0] && t[n - 1] == s[|s| - 1];
    assert forall j :: 0 <= j < m ==> t[j] == pre[j];
    assert forall j :: n <= j < |t| ==> t[j] == post[j - n];
    LeadIs(t, 0, m);
    TrailSkips(t, m, n, |t|);
    assert t[m..n] == s;
  }

  /** What is dropped is blank. */
  lemma TrimDropsBlanks(s: string) returns (pre: string, post: string)
    ensures s == pre + Trim(s) + post && AllSpace(pre) && AllSpace(post)
  {
    var m := Lead(s, 0);
    var n := Trail(s, m, |s|);
    LeadBlanks(s, 0);
    TrailBlanks(s, m, |s|);
    pre, post := s[..m], s[n..];
    assert s == s[..m] + s[m..n] + s[n..];
  }

  lemma TrimBlank(s: string)
    requires forall i :: 0 <= i < |s| ==> IsSpace(s[i])
    ensures Trim(s) == []
  {
    LeadSkips(s, 0);
  }

  lemma {:induction false} LeadSkips(s: string, i: nat)
    requires i <= |s| && forall j :: i <= j < |s| ==> IsSpace(s[j])
    ensures Lead(s, i) == |s|
    decreases |s| - i
  {
    if i < |s| {
      LeadSkips(s, i + 1);
    }
  }

  lemma {:induction false} NulFromIs(s: string, i: nat, k: nat)
    requires i <= k <= |s| && (k < |s| ==> s[k] == NUL)
    requires forall j :: i <= j < k ==> s[j] != NUL
    ensures NulFrom(s, i) == k
    decreases k - i
  {
    if i < k {
      NulFromIs(s, i + 1, k);
    }
  }

  lemma CStrKeeps(s: string)
    requires NUL !in s
    ensures NulFrom(s, 0) == |s| && CStr(s) == s
  {
    NulFromIs(s, 0, |s|);
  }

  lemma {:induction false} IndexOfIs(s: string, c: char, from: nat, i: nat)
    requires from <= i < |s| && s[i] == c && forall j :: from <= j < i ==> s[j] != c && s[j] != NUL
    ensures IndexOf(s, c, from) == i
    decreases i - from
  {
    if from < i {
      IndexOfIs(s, c, from + 1, i);
    }
  }

  lemma SubstringIs(s: string, left: nat, right: nat)
    requires left <= right <= |s| < U32
    ensures Substring(s, left, right) == s[left..right]
  {
    assert Unsigned(left) == left && Unsigned(right) == right;
  }

  /** The "not found" index as an end selects everything. */
  lemma SubstringToMinusOne(s: string)
    requires |s| < U32
    ensures Substring(s, 0, -1) == s
  {
    assert Unsigned(-1) == U32 - 1;
  }

  lemma {:induction false} AfterLastOfJoin(a: string, c: char, b: string)
    requires c !in b
    ensures AfterLast(a + [c] + b, c) == b
  {
    var s := a + [c] + b;
    if b == [] {
      assert s[|s| - 1] == c;
    } else {
      var n := |b| - 1;
      AfterLastOfJoin(a, c, b[..n]);
      assert s[..|s| - 1] == a + [c] + b[..n] && s[|s| - 1] == b[n];
      assert b[..n] + [b[n]] == b;
    }
  }

  lemma {:induction false} AfterLastAbsent(s: string, c: char)
    requires c !in s
    ensures AfterLast(s, c) == s
  {
    if s != [] {
      var n := |s| - 1;
      AfterLastAbsent(s[..n], c);
      assert s[..n] + [s[n]] == s;
    }
  }

  /** What follows the last c that a search finds: c's after a NUL are not found. */
  function Rest(s: string, c: char): string { AfterLast(CStr(s), c) + s[NulFrom(s, 0)..] }

  lemma RestKeeps(s: string, c: char)
    requires NUL !in s
    ensures Rest(s, c) == AfterLast(s, c)
  {
    CStrKeeps(s);
  }

  lemma {:induction false} AfterLastIsPart(s: string, c: char)
    ensures forall x :: x in AfterLast(s, c) ==> x in s
  {
    if s != [] && s[|s| - 1] != c {
      AfterLastIsPart(s[..|s| - 1], c);
    }
  }

  lemma CStrOfRest(s: string, c: char)
    ensures CStr(Rest(s, c)) == AfterLast(CStr(s), c)
  {
    NulEnds(s, 0);
    var a, n := AfterLast(CStr(s), c), NulFrom(s, 0);
    AfterLastIsPart(CStr(s), c);
    var r := a + s[n..];
    assert forall j :: 0 <= j < |a| ==> r[j] == a[j] && a[j] in a;
    assert n < |s| ==> r[|a|] == s[n];
    NulFromIs(r, 0, |a|);
    assert r[..|a|] == a;
  }

  /** substring(lastIndexOf(c) + 1, length()), the "not found" index included. */
  lemma SubstringAfterLast(s: string, c: char)
    requires |s| < U32
    ensures Substring(s, LastIndexOf(s, c) + 1, |s|) == Rest(s, c)
  {
    var i, n := LastIndexOf(s, c), NulFrom(s, 0);
    var t := s[..n];
    SubstringIs(s, i + 1, |s|);
    assert s[i + 1..|s|] == t[i + 1..] + s[n..];
    assert forall j :: i < j < n ==> t[j] == s[j];
    if i < 0 {
      AfterLastAbsent(t, c);
      assert t[0..] == t;
    } else {
      assert t == t[..i] + [c] + t[i + 1..];
      AfterLastOfJoin(t[..i], c, t[i + 1..]);
    }
  }
}
