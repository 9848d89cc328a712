/** The log-in handler and the middleware in front of every page: a log-in is stored under the
hex form of its SHA-256 digest, and a request presents that key in its Cookie header. */
module SessionGate {
  import opened ArduinoString

  /** A SHA-256 digest; the hash itself is a parameter. */
  type Digest = d: seq<nat> | |d| == 32 && forall i :: 0 <= i < 32 ==> d[i] < 256 witness seq(32, _ => 0)

  /** A text that has come through c_str(). */
  type CText = s: string | NUL !in s witness ""

  function HexDigit(n: nat): char
    requires n < 16
  {
    if n < 10 then ('0' as int + n) as char else ('a' as int + n - 10) as char
  }

  // "%02x"
  function HexByte(b: nat): string
    requires b < 256
  {
    [HexDigit(b / 16), HexDigit(b % 16)]
  }

  function HexBytes(d: seq<nat>): (s: string)
    requires forall i :: 0 <= i < |d| ==> d[i] < 256
    ensures |s| == 2 * |d| && '=' !in s && NUL !in s
  {
    if d == [] then [] else HexBytes(d[..|d| - 1]) + HexByte(d[|d| - 1])
  }

  function Hex(d: Digest): string { HexBytes(d) }

  /** What the log-in form submits after the field name. */
  function SessionText(data: string): string
  {
    Substring(data, 9, |data|)
  }

  /** The part of a form after the nine characters of "password=". */
  function Submitted(data: string): string { if |data| <= 9 then [] else data[9..] }

  datatype Decision = Next | LogOutPage | NotFound

  predicate Exempt(path: string) { path == "/style.css" || path == "/admin" || path == "/update" }

  /** The stored log-in of a key; a missing key sets the store's error flag and reads as empty. */
  function Lookup(store: map<string, string>, key: string): string
  {
    if key in store then store[key] else ""
  }

  /** What the gate compares with the password. */
  function Presented(store: map<string, string>, header: CText): string
  {
    Rest(Lookup(store, AfterLast(header, '=')), '=')
  }

  /** String's ==: equal lengths and strcmp. */
  predicate Equals(a: string, b: string) { |a| == |b| && CStr(a) == CStr(b) }

  function Decide(store: map<string, string>, password: string, header: CText, path: CText): Decision
  {
    var user := Presented(store, header);
    if Equals(user, password) || Exempt(path) then
      if Equals(user, password) && path == "/admin" then LogOutPage else Next
    else NotFound
  }

  class Gate {
    const password: string
    var store: map<string, string>

    constructor (password: string)
      ensures this.password == password && store == map[]
    {
      this.password, store := password, map[];
    }

    // handleLogIn; returns the name and value of the cookie it sets
    method LogIn(data: string, sha: string -> Digest) returns (cookie: string)
      modifies this
      ensures store == old(store)[Hex(sha(SessionText(data))) := SessionText(data)]
      ensures cookie == "session=" + Hex(sha(SessionText(data)))
      ensures |data| < U32 ==> store == old(store)[Hex(sha(Submitted(data))) := Submitted(data)]
      ensures |data| < U32 ==> cookie == "session=" + Hex(sha(Submitted(data)))
    {
      if |data| < U32 {
        SubmittedIs(data);
      }
      var session := SessionText(data);
      var key := Hex(sha(session));
      store := store[key := session];
      cookie := "session=" + key;
    }

    // middlewareAuth
    method Middleware(header: CText, path: CText) returns (d: Decision)
      requires |header| < U32 && forall k :: k in store ==> |store[k]| < U32
      ensures d == Decide(store, password, header, path)
    {
      SubstringAfterLast(header, '=');
      RestKeeps(header, '=');
      AfterLastIsPart(header, '=');
      var key := Substring(header, LastIndexOf(header, '=') + 1, |header|);
      CStrKeeps(key);
      var stored := Lookup(store, CStr(key));
      SubstringAfterLast(stored, '=');
      var user := Substring(stored, LastIndexOf(stored, '=') + 1, |stored|);
      if Equals(user, password) || Exempt(path) {
        if Equals(user, password) && path == "/admin" {
          d := LogOutPage;
        } else {
          d := Next;
        }
      } else {
        d := NotFound;
      }
    }
  }

  // ---- The form ------------------------------------------------------------------------------

  lemma SubmittedIs(data: string)
    requires |data| < U32
    ensures SessionText(data) == Submitted(data)
  {
    if |data| >= 9 {
      SubstringIs(data, 9, |data|);
      assert data[9..|data|] == data[9..];
    }
  }

  /** The field's value is what is stored. */
  lemma FormValue(x: string)
    ensures Submitted("password=" + x) == x
  {
    assert ("password=" + x)[9..] == x;
  }

  /** Logging in with x stores exactly x under its digest, and the cookie that is set then opens
      every page that is not exempt exactly if x ends with the password; so the right password,
      if it has neither '=' nor a NUL, opens it. */
  method LogInAndVisit(g: Gate, x: string, sha: string -> Digest, before: CText, path: CText) returns (d: Decision)
    requires 9 + |x| < U32 && |before| + 72 < U32 && forall k :: k in g.store ==> |g.store[k]| < U32
    modifies g
    ensures g.store == old(g.store)[Hex(sha(x)) := x]
    ensures path != "/style.css" && path != "/admin" && path != "/update" ==>
              d == if Equals(Rest(x, '='), g.password) then Next else NotFound
    ensures path != "/style.css" && path != "/admin" && path != "/update" && x == g.password && '=' !in x && NUL !in x ==> d == Next
  {
    FormValue(x);
    var cookie := g.LogIn("password=" + x, sha);
    KeyIsRecovered(sha(x), sha(x), before);
    assert before + cookie == before + "session=" + Hex(sha(x));
    d := g.Middleware(before + cookie, path);
    if '=' !in x && NUL !in x {
      RestKeeps(x, '=');
      AfterLastAbsent(x, '=');
    }
  }

  // ---- The key ------------------------------------------------------------------------------

  lemma HexByteInjective(a: nat, b: nat)
    requires a < 256 && b < 256 && HexByte(a) == HexByte(b)
    ensures a == b
  {
    assert HexByte(a)[0] == HexByte(b)[0] && HexByte(a)[1] == HexByte(b)[1];
    assert a / 16 == b / 16 && a % 16 == b % 16;
  }

  lemma {:induction false} HexBytesInjective(a: seq<nat>, b: seq<nat>)
    requires forall i :: 0 <= i < |a| ==> a[i] < 256
    requires forall i :: 0 <= i < |b| ==> b[i] < 256
    requires HexBytes(a) == HexBytes(b)
    ensures a == b
  {
    if a != [] {
      var n := |a| - 1;
      SameEnd(HexBytes(a[..n]), HexByte(a[n]), HexBytes(b[..n]), HexByte(b[n]));
      HexBytesInjective(a[..n], b[..n]);
      HexByteInjective(a[n], b[n]);
      assert a == a[..n] + [a[n]] && b == b[..n] + [b[n]];
    }
  }

  lemma DigitIs(n: nat)
    requires n < 16
    ensures HexDigit(n) == "0123456789abcdef"[n]
  {
  }

  /** The key spells each byte with two lower-case hexadecimal digits. */
  lemma {:induction false} KeyIsHex(d: seq<nat>, i: nat)
    requires i < |d| && forall k :: 0 <= k < |d| ==> d[k] < 256
    ensures HexBytes(d)[2 * i] == "0123456789abcdef"[d[i] / 16] && HexBytes(d)[2 * i + 1] == "0123456789abcdef"[d[i] % 16]
  {
    var n := |d| - 1;
    if i < n {
      KeyIsHex(d[..n], i);
    } else {
      DigitIs(d[i] / 16);
      DigitIs(d[i] % 16);
    }
  }

  lemma SameEnd(x: string, p: string, y: string, q: string)
    requires x + p == y + q && |p| == |q|
    ensures x == y && p == q
  {
    assert x == (x + p)[..|x|] && y == (y + q)[..|x|];
    assert p == (x + p)[|x|..] && q == (y + q)[|x|..];
  }

  /** The key is 64 characters without '=', distinct for distinct digests, and is recovered
      from any Cookie header that ends with the session cookie. */
  lemma KeyIsRecovered(a: Digest, b: Digest, before: CText)
    ensures |Hex(a)| == 64 && '=' !in Hex(a) && NUL !in Hex(a)
    ensures Hex(a) == Hex(b) ==> a == b
    ensures AfterLast(before + "session=" + Hex(a), '=') == Hex(a)
  {
    if Hex(a) == Hex(b) {
      HexBytesInjective(a, b);
    }
    assert before + "session=" + Hex(a) == (before + "session") + ['='] + Hex(a);
    AfterLastOfJoin(before + "session", '=', Hex(a));
  }

  // ---- All runs of log-ins and requests ---------------------------------------------------------

  /** The store after some log-ins, from an empty one.  Requests do not change it. */
  function Store(logins: seq<string>, sha: string -> Digest): map<string, string>
  {
    if logins == [] then map[]
    else
      var last := logins[|logins| - 1];
      Store(logins[..|logins| - 1], sha)[Hex(sha(last)) := last]
  }

  method Run(g: Gate, forms: seq<string>, sha: string -> Digest)
    requires g.store == map[]
    modifies g
    ensures g.store == Store(seq(|forms|, i requires 0 <= i < |forms| => SessionText(forms[i])), sha)
    ensures (forall i :: 0 <= i < |forms| ==> |forms[i]| < U32) ==>
              g.store == Store(seq(|forms|, i requires 0 <= i < |forms| => Submitted(forms[i])), sha)
  {
    ghost var submitted := seq(|forms|, i requires 0 <= i < |forms| => Submitted(forms[i]));
    ghost var logins := seq(|forms|, i requires 0 <= i < |forms| => SessionText(forms[i]));
    for i := 0 to |forms|
      invariant g.store == Store(logins[..i], sha)
    {
      var cookie := g.LogIn(forms[i], sha);
      assert logins[..i + 1][..i] == logins[..i];
    }
    assert logins[..|forms|] == logins;
    if forall i :: 0 <= i < |forms| ==> |forms[i]| < U32 {
      forall i | 0 <= i < |forms| ensures logins[i] == submitted[i] {
        SubmittedIs(forms[i]);
      }
      assert logins == submitted;
    }
  }

  /** Log-in i is the latest one stored under its key. */
  ghost predicate Current(logins: seq<string>, sha: string -> Digest, i: nat, key: string)
  {
    && i < |logins| && Hex(sha(logins[i])) == key
    && forall j :: i < j < |logins| ==> Hex(sha(logins[j])) != key
  }

  lemma {:induction false} StoreHolds(logins: seq<string>, sha: string -> Digest, key: string)
    ensures key in Store(logins, sha) <==> exists i: nat :: Current(logins, sha, i, key)
    ensures forall i: nat :: Current(logins, sha, i, key) ==> key in Store(logins, sha) && Store(logins, sha)[key] == logins[i]
  {
    if logins != [] {
      var n: nat, front := |logins| - 1, logins[..|logins| - 1];
      if Hex(sha(logins[n])) == key {
        assert Current(logins, sha, n, key);
      } else {
        StoreHolds(front, sha, key);
        forall i: nat ensures Current(logins, sha, i, key) <==> Current(front, sha, i, key) {
          CurrentInFront(logins, sha, i, key);
        }
      }
    }
  }

  lemma CurrentInFront(logins: seq<string>, sha: string -> Digest, i: nat, key: string)
    requires logins != [] && Hex(sha(logins[|logins| - 1])) != key
    ensures Current(logins, sha, i, key) <==> Current(logins[..|logins| - 1], sha, i, key)
  {
    var n, front := |logins| - 1, logins[..|logins| - 1];
    assert forall j :: 0 <= j < n ==> front[j] == logins[j];
  }

  /** The cookie key is that of a stored log-in whose text after the last '=' is the password;
      with an empty password every key that no log-in has will do as well. */
  ghost predicate Known(logins: seq<string>, sha: string -> Digest, password: string, key: string)
  {
    || (exists i: nat :: Current(logins, sha, i, key) && Equals(Rest(logins[i], '='), password))
    || (password == "" && forall j :: 0 <= j < |logins| ==> Hex(sha(logins[j])) != key)
  }

  /** After any log-ins, a request is turned away exactly when its key is not known and its page
      is not exempt; a known key gets the log-out page for /admin and every other page itself. */
  lemma GateOpensExactly(logins: seq<string>, sha: string -> Digest, password: string, header: CText, path: CText)
    ensures var known := Known(logins, sha, password, AfterLast(header, '='));
            var d := Decide(Store(logins, sha), password, header, path);
            && (d == NotFound <==> !known && path != "/style.css" && path != "/admin" && path != "/update")
            && (d == LogOutPage <==> known && path == "/admin")
  {
    var key := AfterLast(header, '=');
    StoreHolds(logins, sha, key);
    if j: nat :| j < |logins| && Hex(sha(logins[j])) == key {
      var i := LatestExists(logins, sha, j, key);
    }
  }

  lemma {:induction false} LatestExists(logins: seq<string>, sha: string -> Digest, j: nat, key: string) returns (i: nat)
    requires j < |logins| && Hex(sha(logins[j])) == key
    ensures Current(logins, sha, i, key)
    decreases |logins| - j
  {
    i := j;
    if k: nat :| j < k < |logins| && Hex(sha(logins[k])) == key {
      i := LatestExists(logins, sha, k, key);
    }
  }

  /** The cookie a log-in sets opens the gate to it while no later log-in has the same key. */
  lemma OwnCookieOpens(logins: seq<string>, sha: string -> Digest, i: nat, password: string, before: CText, path: CText)
    requires i < |logins| && Current(logins, sha, i, Hex(sha(logins[i]))) && !Exempt(path)
    ensures Decide(Store(logins, sha), password, before + "session=" + Hex(sha(logins[i])), path)
            == if Equals(Rest(logins[i], '='), password) then Next else NotFound
  {
    var key := Hex(sha(logins[i]));
    KeyIsRecovered(sha(logins[i]), sha(logins[i]), before);
    StoreHolds(logins, sha, key);
  }

  /** A password with '=' in it shuts out every request, whatever has been stored. */
  lemma PasswordWithEquals(logins: seq<string>, sha: string -> Digest, password: string, header: CText, path: CText)
    requires '=' in CStr(password) && !Exempt(path)
    ensures Decide(Store(logins, sha), password, header, path) == NotFound
  {
    CStrOfRest(Lookup(Store(logins, sha), AfterLast(header, '=')), '=');
  }
}
